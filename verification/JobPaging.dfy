/** Whether a running job belongs to an active dedicated session: a search over a paged job list. */
module JobPaging {
  import opened Wrappers

  newtype i32 = x: int | -0x8000_0000 <= x < 0x8000_0000

  const PAGE_SIZE: i32 := 200
  const MAX_OFFSET: i32 := 2147483647

  /** The number of jobs the loop looks at when every page is full. */
  const REACH: nat := 2147483800

  datatype Job = Job(running: bool, session: Option<string>)

  datatype Session = Session(active: bool, dedicated: bool)

  type Lookup = string -> Result<Session, ErrorKind>

  /** One page of the job list, or the failure of the request. */
  type Pages = i32 -> Result<seq<Job>, ErrorKind>

  /** The cast of a length: the low 32 bits, read as two's complement. */
  function AsI32(n: nat): (r: i32)
    ensures (r as int - n) % 0x1_0000_0000 == 0
    ensures n < 0x8000_0000 ==> r as int == n
  {
    var low := n % 0x1_0000_0000;
    if low < 0x8000_0000 then low as i32 else (low - 0x1_0000_0000) as i32
  }

  /** A left-to-right search that ends at the first hit or failed session look-up. */
  function Search(jobs: seq<Job>, lookup: Lookup): Result<bool, ErrorKind> {
    if jobs == [] then Success(false)
    else if !jobs[0].running || jobs[0].session.None? then Search(jobs[1..], lookup)
    else
      match lookup(jobs[0].session.value)
      case Failure(e) => Failure(e)
      case Success(s) => if s.active && s.dedicated then Success(true) else Search(jobs[1..], lookup)
  }

  lemma {:induction false} SearchAppend(a: seq<Job>, b: seq<Job>, lookup: Lookup)
    ensures Search(a + b, lookup) ==
            if Search(a, lookup) == Success(false) then Search(b, lookup) else Search(a, lookup)
  {
    if a == [] {
      assert a + b == b;
    } else {
      assert (a + b)[1..] == a[1..] + b;
      SearchAppend(a[1..], b, lookup);
    }
  }

  /** The answer of the loop from `offset` on, for any pages whatsoever. */
  function Scan(pages: Pages, lookup: Lookup, offset: i32): Result<bool, ErrorKind>
    requires 0 <= offset
    decreases MAX_OFFSET - offset
  {
    match pages(offset)
    case Failure(e) => Failure(e)
    case Success(jobs) =>
      var found := Search(jobs, lookup);
      if found != Success(false) then found
      else if AsI32(|jobs|) < PAGE_SIZE || offset > MAX_OFFSET - PAGE_SIZE then Success(false)
      else Scan(pages, lookup, offset + PAGE_SIZE)
  }

  /** The loop over the jobs of one page. */
  method SearchPage(jobs: seq<Job>, lookup: Lookup) returns (r: Result<bool, ErrorKind>)
    ensures r == Search(jobs, lookup)
  {
    for i := 0 to |jobs|
      invariant Search(jobs, lookup) == Search(jobs[i..], lookup)
    {
      assert jobs[i..][1..] == jobs[i + 1..];
      var job := jobs[i];
      if job.running && job.session.Some? {
        var session := lookup(job.session.value);
        if session.Failure? {
          return Failure(session.error);
        }
        if session.value.active && session.value.dedicated {
          return Success(true);
        }
      }
    }
    return Success(false);
  }

  /**
   * The paging loop, for any server: it ends, its 32-bit offset never overflows, and the
   * requested offsets are 0, 200, 400, ... within the documented maximum.
   */
  method HasDedicatedActiveSession(pages: Pages, lookup: Lookup) returns (r: Result<bool, ErrorKind>, offsets: seq<i32>)
    ensures r == Scan(pages, lookup, 0)
    ensures forall i :: 0 <= i < |offsets| ==> offsets[i] as int == 200 * i && offsets[i] <= MAX_OFFSET
    ensures 1 <= |offsets| <= 10737419
  {
    var offset: i32 := 0;
    offsets := [];
    while true
      invariant 0 <= offset && offset as int == 200 * |offsets|
      invariant forall i :: 0 <= i < |offsets| ==> offsets[i] as int == 200 * i && offsets[i] <= MAX_OFFSET
      invariant Scan(pages, lookup, 0) == Scan(pages, lookup, offset)
      decreases MAX_OFFSET - offset
    {
      offsets := offsets + [offset];
      var page := pages(offset);
      if page.Failure? {
        return Failure(page.error), offsets;
      }
      var found := SearchPage(page.value, lookup);
      if found != Success(false) {
        return found, offsets;
      }
      if AsI32(|page.value|) < PAGE_SIZE {
        return Success(false), offsets;
      }
      if offset > MAX_OFFSET - PAGE_SIZE {
        return Success(false), offsets;
      }
      offset := offset + PAGE_SIZE;
    }
  }

  /** The page of a request that succeeded, and the search in it that ended without an answer. */
  ghost predicate GoesOn(pages: Pages, lookup: Lookup, j: nat)
    requires 200 * j <= 2147483647
  {
    && pages((200 * j) as i32).Success? && AsI32(|pages((200 * j) as i32).value|) >= 200
    && Search(pages((200 * j) as i32).value, lookup) == Success(false)
  }

  /** The first page that does not go on decides, with its failure or its finding; the last possible one does. */
  lemma {:induction false} FirstPageDecides(pages: Pages, lookup: Lookup, n: nat)
    requires n <= 10737418 && forall j :: 0 <= j < n ==> GoesOn(pages, lookup, j)
    requires n == 10737418 || !GoesOn(pages, lookup, n)
    ensures Scan(pages, lookup, 0) ==
            match pages((200 * n) as i32)
            case Failure(e) => Failure(e)
            case Success(jobs) => Search(jobs, lookup)
  {
    ScanSkips(pages, lookup, n, 0);
  }

  lemma {:induction false} ScanSkips(pages: Pages, lookup: Lookup, n: nat, i: nat)
    requires i <= n <= 10737418 && forall j :: 0 <= j < n ==> GoesOn(pages, lookup, j)
    ensures Scan(pages, lookup, (200 * i) as i32) == Scan(pages, lookup, (200 * n) as i32)
    decreases n - i
  {
    if i < n {
      assert GoesOn(pages, lookup, i);
      ScanSkips(pages, lookup, n, i + 1);
    }
  }

  // ----- a fixed job list -----------------------------------------------------------------------

  function Min(a: nat, b: nat): nat { if a <= b then a else b }

  /** Pages of a list that does not change, each as full as the list allows. */
  function PagesOf(jobs: seq<Job>): Pages {
    (offset: i32) =>
      if offset < 0 then Success([])
      else Success(jobs[Min(offset as int, |jobs|)..Min(offset as int + 200, |jobs|)])
  }

  lemma PageThenRest(jobs: seq<Job>, start: nat, end: nat, limit: nat, lookup: Lookup)
    requires start <= end <= limit <= |jobs|
    ensures var found := Search(jobs[start..end], lookup);
            Search(jobs[start..limit], lookup) ==
            if found == Success(false) then Search(jobs[end..limit], lookup) else found
  {
    assert jobs[start..limit] == jobs[start..end] + jobs[end..limit];
    SearchAppend(jobs[start..end], jobs[end..limit], lookup);
  }

  lemma {:induction false} ScanFrom(jobs: seq<Job>, lookup: Lookup, offset: i32)
    requires 0 <= offset && offset as int % 200 == 0 && offset as int <= |jobs|
    ensures Scan(PagesOf(jobs), lookup, offset) == Search(jobs[offset as int..Min(REACH, |jobs|)], lookup)
    decreases MAX_OFFSET - offset
  {
    var start, end := offset as int, Min(offset as int + 200, |jobs|);
    var limit := Min(REACH, |jobs|);
    var page := jobs[start..end];
    assert PagesOf(jobs)(offset) == Success(page);
    PageThenRest(jobs, start, end, limit, lookup);
    if |page| < 200 || offset > MAX_OFFSET - PAGE_SIZE {
      assert jobs[end..limit] == [];
    } else {
      ScanFrom(jobs, lookup, offset + PAGE_SIZE);
    }
  }

  /** On a fixed list, paging is a flat search of the first 2147483800 jobs. */
  lemma PagingIsFlatSearch(jobs: seq<Job>, lookup: Lookup)
    ensures Scan(PagesOf(jobs), lookup, 0) == Search(jobs[..Min(REACH, |jobs|)], lookup)
  {
    ScanFrom(jobs, lookup, 0);
    assert jobs[0..Min(REACH, |jobs|)] == jobs[..Min(REACH, |jobs|)];
  }

  /** What the flat search finds, in terms of positions. */
  lemma {:induction false} SearchMeans(jobs: seq<Job>, lookup: Lookup)
    ensures Search(jobs, lookup) == Success(false) <==> forall i :: 0 <= i < |jobs| ==> Passed(jobs[i], lookup)
    ensures Search(jobs, lookup) != Success(false) ==>
              exists i :: 0 <= i < |jobs| && (forall j :: 0 <= j < i ==> Passed(jobs[j], lookup))
                          && !Passed(jobs[i], lookup)
                          && Search(jobs, lookup) == match lookup(jobs[i].session.value)
                                                     case Failure(e) => Failure(e)
                                                     case Success(_) => Success(true)
  {
    if jobs != [] {
      var rest := jobs[1..];
      SearchMeans(rest, lookup);
      if Passed(jobs[0], lookup) {
        assert Search(jobs, lookup) == Search(rest, lookup);
        if Search(rest, lookup) != Success(false) {
          var i :| 0 <= i < |rest| && (forall j :: 0 <= j < i ==> Passed(rest[j], lookup)) && !Passed(rest[i], lookup)
                   && Search(rest, lookup) == match lookup(rest[i].session.value)
                                              case Failure(e) => Failure(e)
                                              case Success(_) => Success(true);
          assert jobs[i + 1] == rest[i];
          forall j | 0 <= j < i + 1 ensures Passed(jobs[j], lookup) {
            if j > 0 { assert jobs[j] == rest[j - 1]; }
          }
        } else {
          forall i | 0 <= i < |jobs| ensures Passed(jobs[i], lookup) {
            if i > 0 { assert jobs[i] == rest[i - 1]; }
          }
        }
      }
    }
  }

  /** A job the search goes past: not running, without a session, or in another kind of session. */
  predicate Passed(job: Job, lookup: Lookup) {
    !job.running || job.session.None?
    || (lookup(job.session.value).Success?
        && !(lookup(job.session.value).value.active && lookup(job.session.value).value.dedicated))
  }
}

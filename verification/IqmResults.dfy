/** Measurement results of one circuit, as a list of bit strings. */
module IqmResults {
  import opened Wrappers

  /** One item of the result dictionary: the key, and one row per shot. */
  datatype Entry = Entry(creg: nat, cregLen: nat, clbit: nat, rows: seq<seq<int>>)

  /** What the measurement keys of one run have in common. */
  ghost predicate Consistent(entries: seq<Entry>, shots: nat) {
    && (forall i :: 0 <= i < |entries| ==> |entries[i].rows| == shots && entries[i].clbit < entries[i].cregLen)
    && (forall i, j :: 0 <= i < |entries| && 0 <= j < |entries| && entries[i].creg == entries[j].creg ==>
          entries[i].cregLen == entries[j].cregLen)
    && (forall i, j :: 0 <= i < j < |entries| ==>
          entries[i].creg != entries[j].creg || entries[i].clbit != entries[j].clbit)
  }

  /** A column of zeros and ones. */
  predicate Column(e: Entry) {
    forall s :: 0 <= s < |e.rows| ==> |e.rows[s]| == 1 && 0 <= e.rows[s][0] <= 1
  }

  predicate AllColumns(entries: seq<Entry>) {
    forall i :: 0 <= i < |entries| ==> Column(entries[i])
  }

  /** Columns that have a value for the shot. */
  predicate Covers(entries: seq<Entry>, shot: nat) {
    AllColumns(entries) && forall i :: 0 <= i < |entries| ==> shot < |entries[i].rows|
  }

  // ----- the meaning of the entries ---------------------------------------------------------------

  /** The measured value, and zero for a bit that was not measured. */
  function Bit(entries: seq<Entry>, creg: nat, clbit: nat, shot: nat): int
    requires Covers(entries, shot)
  {
    if entries == [] then 0
    else
      var e := entries[|entries| - 1];
      if e.creg == creg && e.clbit == clbit then e.rows[shot][0]
      else Bit(entries[..|entries| - 1], creg, clbit, shot)
  }

  lemma {:induction false} BitOfEntry(entries: seq<Entry>, i: nat, shot: nat, shots: nat)
    requires Consistent(entries, shots) && AllColumns(entries) && i < |entries| && shot < shots
    ensures Bit(entries, entries[i].creg, entries[i].clbit, shot) == entries[i].rows[shot][0]
  {
    if i < |entries| - 1 {
      BitOfEntry(entries[..|entries| - 1], i, shot, shots);
    }
  }

  lemma {:induction false} BitUnmeasured(entries: seq<Entry>, creg: nat, clbit: nat, shot: nat, shots: nat)
    requires Consistent(entries, shots) && AllColumns(entries) && shot < shots
    requires forall i :: 0 <= i < |entries| ==> entries[i].creg != creg || entries[i].clbit != clbit
    ensures Bit(entries, creg, clbit, shot) == 0
  {
    if entries != [] {
      BitUnmeasured(entries[..|entries| - 1], creg, clbit, shot, shots);
    }
  }

  lemma {:induction false} BitIsBinary(entries: seq<Entry>, creg: nat, clbit: nat, shot: nat)
    requires Covers(entries, shot)
    ensures Bit(entries, creg, clbit, shot) == 0 || Bit(entries, creg, clbit, shot) == 1
  {
    if entries != [] {
      BitIsBinary(entries[..|entries| - 1], creg, clbit, shot);
    }
  }

  function Registers(entries: seq<Entry>): set<nat> {
    set e | e in entries :: e.creg
  }

  function CregLen(entries: seq<Entry>, creg: nat): nat {
    if entries == [] then 0
    else if entries[|entries| - 1].creg == creg then entries[|entries| - 1].cregLen
    else CregLen(entries[..|entries| - 1], creg)
  }

  lemma {:induction false} CregLenOfEntry(entries: seq<Entry>, i: nat, shots: nat)
    requires Consistent(entries, shots) && i < |entries|
    ensures CregLen(entries, entries[i].creg) == entries[i].cregLen
  {
    if i < |entries| - 1 {
      CregLenOfEntry(entries[..|entries| - 1], i, shots);
    }
  }

  ghost predicate IsLeast(m: nat, s: set<nat>) {
    m in s && forall x :: x in s ==> m <= x
  }

  lemma LeastExists(s: set<nat>) returns (m: nat)
    requires s != {}
    ensures IsLeast(m, s)
  {
    var first :| first in s;
    var rest := s - {first};
    assert forall x :: x in s ==> x == first || x in rest;
    m := first;
    if rest != {} {
      var least := LeastExists(rest);
      m := if least < first then least else first;
    }
  }

  function Least(s: set<nat>): (m: nat)
    requires s != {}
    ensures m in s
  {
    assert exists m :: IsLeast(m, s) by {
      var m := LeastExists(s);
    }
    var m :| m in s && forall x :: x in s ==> m <= x;
    m
  }

  /** `sorted` of a set of register numbers. */
  function SortedRegisters(s: set<nat>): seq<nat> {
    if s == {} then [] else [Least(s)] + SortedRegisters(s - {Least(s)})
  }

  lemma LeastIs(s: set<nat>)
    requires s != {}
    ensures IsLeast(Least(s), s)
  {
    var m := LeastExists(s);
  }

  /** Every register once, in increasing order. */
  lemma {:induction false} SortedRegistersIs(s: set<nat>)
    ensures forall x :: x in SortedRegisters(s) <==> x in s
    ensures forall i, j :: 0 <= i < j < |SortedRegisters(s)| ==> SortedRegisters(s)[i] < SortedRegisters(s)[j]
  {
    if s != {} {
      LeastIs(s);
      var rest := SortedRegisters(s - {Least(s)});
      SortedRegistersIs(s - {Least(s)});
      forall i | 0 <= i < |rest| ensures Least(s) < rest[i] {
        assert rest[i] in rest;
      }
    }
  }

  function Digit(bit: int): char { if bit == 0 then '0' else '1' }

  /** The bits of one register. */
  function Row(entries: seq<Entry>, creg: nat, shot: nat): (r: string)
    requires Covers(entries, shot)
    ensures |r| == CregLen(entries, creg)
  {
    seq(CregLen(entries, creg), clbit requires 0 <= clbit => Digit(Bit(entries, creg, clbit, shot)))
  }

  function Rows(entries: seq<Entry>, regs: seq<nat>, shot: nat): (r: seq<string>)
    requires Covers(entries, shot)
    ensures |r| == |regs|
  {
    if regs == [] then [] else [Row(entries, regs[0], shot)] + Rows(entries, regs[1..], shot)
  }

  lemma {:induction false} RowsAt(entries: seq<Entry>, regs: seq<nat>, shot: nat, r: nat)
    requires Covers(entries, shot) && r < |regs|
    ensures Rows(entries, regs, shot)[r] == Row(entries, regs[r], shot)
  {
    if r > 0 {
      RowsAt(entries, regs[1..], shot, r - 1);
    }
  }

  /** `" ".join(rows)`. */
  function Join(rows: seq<string>): string {
    if rows == [] then ""
    else if |rows| == 1 then rows[0]
    else Join(rows[..|rows| - 1]) + " " + rows[|rows| - 1]
  }

  function Reverse(s: string): (r: string)
    ensures |r| == |s| && forall i :: 0 <= i < |s| ==> r[i] == s[|s| - 1 - i]
  {
    seq(|s|, i requires 0 <= i < |s| => s[|s| - 1 - i])
  }

  /** The text of a shot, with the registers in the given order. */
  function TextOf(entries: seq<Entry>, regs: seq<nat>, shot: nat): string
    requires Covers(entries, shot)
  {
    Reverse(Join(Rows(entries, regs, shot)))
  }

  function ShotText(entries: seq<Entry>, shot: nat): string
    requires Covers(entries, shot)
  {
    TextOf(entries, SortedRegisters(Registers(entries)), shot)
  }

  // ----- where the bits end up ---------------------------------------------------------------------

  /** The lengths and separators of the first `n` rows. */
  function Offset(rows: seq<string>, n: nat): nat
    requires n <= |rows|
  {
    if n == 0 then 0 else Offset(rows, n - 1) + |rows[n - 1]| + 1
  }

  lemma {:induction false} OffsetPrefix(rows: seq<string>, m: nat, n: nat)
    requires n <= m <= |rows|
    ensures Offset(rows[..m], n) == Offset(rows, n)
  {
    if n > 0 {
      OffsetPrefix(rows, m, n - 1);
    }
  }

  lemma {:induction false} JoinLength(rows: seq<string>)
    requires rows != []
    ensures |Join(rows)| + 1 == Offset(rows, |rows|)
  {
    if |rows| > 1 {
      JoinLength(rows[..|rows| - 1]);
      OffsetPrefix(rows, |rows| - 1, |rows| - 1);
    } else {
      assert Offset(rows, 0) == 0;
    }
  }

  lemma {:induction false} JoinAt(rows: seq<string>, r: nat, c: nat)
    requires r < |rows| && c < |rows[r]|
    ensures Offset(rows, r) + c < |Join(rows)| && Join(rows)[Offset(rows, r) + c] == rows[r][c]
  {
    if |rows| > 1 {
      var front := rows[..|rows| - 1];
      JoinLength(front);
      OffsetPrefix(rows, |rows| - 1, r);
      if r < |rows| - 1 {
        JoinAt(front, r, c);
      }
    }
  }

  lemma {:induction false} JoinSeparator(rows: seq<string>, r: nat)
    requires 1 <= r < |rows|
    ensures 1 <= Offset(rows, r) <= |Join(rows)| && Join(rows)[Offset(rows, r) - 1] == ' '
  {
    var front := rows[..|rows| - 1];
    JoinLength(front);
    OffsetPrefix(rows, |rows| - 1, r);
    if r < |rows| - 1 {
      JoinSeparator(front, r);
    }
  }

  /** In `text`, `c` stands `offset` before the end, behind a separator unless nothing comes after it. */
  predicate Placed(text: string, offset: nat, clbit: nat, c: char) {
    && offset + clbit < |text|
    && text[|text| - 1 - (offset + clbit)] == c
    && (offset > 0 ==> text[|text| - offset] == ' ')
  }

  lemma PlacedInReverse(s: string, offset: nat, clbit: nat, c: char)
    requires offset + clbit < |s| && s[offset + clbit] == c && (offset > 0 ==> s[offset - 1] == ' ')
    ensures Placed(Reverse(s), offset, clbit, c)
  {
    var text, n := Reverse(s), |s|;
    assert text[n - 1 - (offset + clbit)] == s[n - 1 - (n - 1 - (offset + clbit))];
    if offset > 0 {
      assert text[n - offset] == s[n - 1 - (n - offset)];
    }
  }

  /** A character of row `r`, counted from the end of the reversed text. */
  lemma FromTheEnd(rows: seq<string>, r: nat, c: nat)
    requires r < |rows| && c < |rows[r]|
    ensures Placed(Reverse(Join(rows)), Offset(rows, r), c, rows[r][c])
  {
    JoinAt(rows, r, c);
    if r > 0 {
      JoinSeparator(rows, r);
    }
    PlacedInReverse(Join(rows), Offset(rows, r), c, rows[r][c]);
  }

  /**
   * Counted from the end of a text, the bit measured under the register at position `r` stands
   * behind the lengths and separators of the registers before it; those are the lower ones in the
   * text of a shot, where the registers are sorted.
   */
  lemma BitPosition(entries: seq<Entry>, regs: seq<nat>, shot: nat, r: nat, clbit: nat)
    requires Covers(entries, shot)
    requires r < |regs| && clbit < CregLen(entries, regs[r])
    ensures Placed(TextOf(entries, regs, shot), SumLengths(entries, regs[..r]) + r, clbit,
                   if Bit(entries, regs[r], clbit, shot) == 1 then '1' else '0')
    ensures Bit(entries, regs[r], clbit, shot) == 0 || Bit(entries, regs[r], clbit, shot) == 1
  {
    BitIsBinary(entries, regs[r], clbit, shot);
    var rows := Rows(entries, regs, shot);
    RowBit(entries, regs, shot, r, clbit);
    OffsetOfRegisters(entries, shot, regs, rows, r);
    FromTheEnd(rows, r, clbit);
  }

  lemma RowBit(entries: seq<Entry>, regs: seq<nat>, shot: nat, r: nat, clbit: nat)
    requires Covers(entries, shot) && r < |regs| && clbit < CregLen(entries, regs[r])
    ensures |Rows(entries, regs, shot)[r]| == CregLen(entries, regs[r])
    ensures Rows(entries, regs, shot)[r][clbit] == Digit(Bit(entries, regs[r], clbit, shot))
  {
    RowsAt(entries, regs, shot, r);
  }

  /** The offset of a row adds up the lengths of the lower registers, and one separator each. */
  lemma {:induction false} OffsetOfRegisters(entries: seq<Entry>, shot: nat, regs: seq<nat>, rows: seq<string>, r: nat)
    requires Covers(entries, shot)
    requires rows == Rows(entries, regs, shot) && r <= |regs|
    ensures Offset(rows, r) == SumLengths(entries, regs[..r]) + r
  {
    if r > 0 {
      OffsetOfRegisters(entries, shot, regs, rows, r - 1);
      assert regs[..r][..r - 1] == regs[..r - 1];
      RowsAt(entries, regs, shot, r - 1);
    }
  }

  function SumLengths(entries: seq<Entry>, regs: seq<nat>): nat {
    if regs == [] then 0 else SumLengths(entries, regs[..|regs| - 1]) + CregLen(entries, regs[|regs| - 1])
  }

  /** All shots have the same length: that of the registers and the separators between them. */
  lemma TextLength(entries: seq<Entry>, shot: nat, regs: seq<nat>)
    requires Covers(entries, shot)
    requires regs == SortedRegisters(Registers(entries)) && entries != []
    ensures |ShotText(entries, shot)| == SumLengths(entries, regs) + |regs| - 1
  {
    var rows := Rows(entries, regs, shot);
    assert entries[0].creg in Registers(entries);
    SortedRegistersIs(Registers(entries));
    assert entries[0].creg in regs;
    JoinLength(rows);
    OffsetOfRegisters(entries, shot, regs, rows, |regs|);
    assert regs[..|regs|] == regs;
  }

  /** The order of the dictionary does not matter. */
  lemma OrderIrrelevant(a: seq<Entry>, b: seq<Entry>, shots: nat, shot: nat)
    requires Consistent(a, shots) && Consistent(b, shots) && AllColumns(a) && AllColumns(b) && shot < shots
    requires forall e :: e in a <==> e in b
    ensures ShotText(a, shot) == ShotText(b, shot)
  {
    assert Registers(a) == Registers(b);
    SortedRegistersIs(Registers(a));
    SameRows(a, b, shots, shot, SortedRegisters(Registers(a)));
  }

  lemma {:induction false} SameRows(a: seq<Entry>, b: seq<Entry>, shots: nat, shot: nat, regs: seq<nat>)
    requires Consistent(a, shots) && Consistent(b, shots) && AllColumns(a) && AllColumns(b) && shot < shots
    requires forall e :: e in a <==> e in b
    requires forall i :: 0 <= i < |regs| ==> regs[i] in Registers(a)
    ensures Rows(a, regs, shot) == Rows(b, regs, shot)
  {
    if regs != [] {
      SameRows(a, b, shots, shot, regs[1..]);
      SameRow(a, b, shots, shot, regs[0]);
    }
  }

  lemma SameRow(a: seq<Entry>, b: seq<Entry>, shots: nat, shot: nat, creg: nat)
    requires Consistent(a, shots) && Consistent(b, shots) && AllColumns(a) && AllColumns(b) && shot < shots
    requires (forall e :: e in a <==> e in b) && creg in Registers(a)
    ensures Row(a, creg, shot) == Row(b, creg, shot)
  {
    SameRegister(a, b, shots, creg);
    forall clbit | 0 <= clbit < CregLen(a, creg) ensures Row(a, creg, shot)[clbit] == Row(b, creg, shot)[clbit] {
      SameBit(a, b, shots, shot, creg, clbit);
    }
  }

  lemma SameRegister(a: seq<Entry>, b: seq<Entry>, shots: nat, creg: nat)
    requires Consistent(a, shots) && Consistent(b, shots) && creg in Registers(a)
    requires forall e :: e in a <==> e in b
    ensures CregLen(a, creg) == CregLen(b, creg)
  {
    var e :| e in a && e.creg == creg;
    var i :| 0 <= i < |a| && a[i] == e;
    assert e in b;
    var j :| 0 <= j < |b| && b[j] == e;
    CregLenOfEntry(a, i, shots);
    CregLenOfEntry(b, j, shots);
  }

  lemma SameBit(a: seq<Entry>, b: seq<Entry>, shots: nat, shot: nat, creg: nat, clbit: nat)
    requires Consistent(a, shots) && Consistent(b, shots) && AllColumns(a) && AllColumns(b) && shot < shots
    requires forall e :: e in a <==> e in b
    ensures Bit(a, creg, clbit, shot) == Bit(b, creg, clbit, shot)
  {
    if i :| 0 <= i < |a| && a[i].creg == creg && a[i].clbit == clbit {
      assert a[i] in b;
      var j :| 0 <= j < |b| && b[j] == a[i];
      BitOfEntry(a, i, shot, shots);
      BitOfEntry(b, j, shot, shots);
    } else {
      forall j | 0 <= j < |b| ensures b[j].creg != creg || b[j].clbit != clbit {
        assert b[j] in a;
      }
      BitUnmeasured(a, creg, clbit, shot, shots);
      BitUnmeasured(b, creg, clbit, shot, shots);
    }
  }

  // ----- the code -------------------------------------------------------------------------------------

  /** `creg[:, clbit] = res`. */
  method WriteColumn(a: array2<int>, clbit: nat, e: Entry)
    requires clbit < a.Length1 && a.Length0 == |e.rows| && Column(e)
    modifies a
    ensures forall s, c :: 0 <= s < a.Length0 && 0 <= c < a.Length1 ==>
              a[s, c] == if c == clbit then e.rows[s][0] else old(a[s, c])
  {
    for row := 0 to a.Length0
      invariant forall s, c :: 0 <= s < a.Length0 && 0 <= c < a.Length1 ==>
                  a[s, c] == if c == clbit && s < row then e.rows[s][0] else old(a[s, c])
    {
      a[row, clbit] := e.rows[row][0];
    }
  }

  type Matrices = map<nat, array2<int>>

  /** The matrices hold the bits of `entries`, each register in an array of its own. */
  ghost predicate Holds(formatted: Matrices, entries: seq<Entry>, shots: nat)
    reads set k | k in formatted :: formatted[k]
  {
    && AllColumns(entries) && (forall i :: 0 <= i < |entries| ==> |entries[i].rows| == shots)
    && formatted.Keys == Registers(entries)
    && (forall j, k :: j in formatted && k in formatted && j != k ==> formatted[j] != formatted[k])
    && forall k :: k in formatted ==> HoldsRegister(formatted[k], entries, k, shots)
  }

  ghost predicate HoldsRegister(a: array2<int>, entries: seq<Entry>, creg: nat, shots: nat)
    requires AllColumns(entries) && forall i :: 0 <= i < |entries| ==> |entries[i].rows| == shots
    reads a
  {
    && a.Length0 == shots && a.Length1 == CregLen(entries, creg)
    && forall s, c :: 0 <= s < shots && 0 <= c < a.Length1 ==> a[s, c] == Bit(entries, creg, c, s)
  }

  lemma Appended(done: seq<Entry>, e: Entry, creg: nat, clbit: nat, shot: nat)
    requires Covers(done, shot) && Column(e) && shot < |e.rows|
    ensures Covers(done + [e], shot)
    ensures Bit(done + [e], creg, clbit, shot) ==
              if e.creg == creg && e.clbit == clbit then e.rows[shot][0] else Bit(done, creg, clbit, shot)
  {
    assert (done + [e])[..|done|] == done;
  }

  lemma AppendedLength(done: seq<Entry>, e: Entry, creg: nat)
    ensures CregLen(done + [e], creg) == if e.creg == creg then e.cregLen else CregLen(done, creg)
  {
    assert (done + [e])[..|done|] == done;
  }

  lemma SameLength(done: seq<Entry>, e: Entry, shots: nat)
    requires Consistent(done + [e], shots) && e.creg in Registers(done)
    ensures CregLen(done, e.creg) == e.cregLen
  {
    var all := done + [e];
    var i :| 0 <= i < |done| && done[i].creg == e.creg;
    assert Consistent(done, shots) by {
      assert forall j :: 0 <= j < |done| ==> all[j] == done[j];
    }
    CregLenOfEntry(done, i, shots);
    assert all[i] == done[i] && all[|done|] == e;
  }

  /** The register array of `e`, zeroed if it is new; `setdefault` of the dictionary. */
  method SetDefault(formatted: Matrices, ghost done: seq<Entry>, e: Entry, ghost shots: nat) returns (after: Matrices)
    requires Holds(formatted, done, shots) && Consistent(done + [e], shots) && |e.rows| == shots
    ensures after.Keys == formatted.Keys + {e.creg}
    ensures forall k :: k in formatted ==> after[k] == formatted[k]
    ensures e.creg !in formatted ==> fresh(after[e.creg])
    ensures after[e.creg].Length0 == shots && after[e.creg].Length1 == e.cregLen
    ensures forall s, c :: 0 <= s < shots && 0 <= c < e.cregLen ==> after[e.creg][s, c] == Bit(done, e.creg, c, s)
  {
    after := formatted;
    if e.creg !in formatted {
      var zeros := new int[|e.rows|, e.cregLen]((s, c) => 0);
      after := formatted[e.creg := zeros];
      forall s, c | 0 <= s < shots && 0 <= c < e.cregLen ensures zeros[s, c] == Bit(done, e.creg, c, s) {
        assert Consistent(done, shots) by {
          assert forall j :: 0 <= j < |done| ==> (done + [e])[j] == done[j];
        }
        BitUnmeasured(done, e.creg, c, s, shots);
      }
    } else {
      SameLength(done, e, shots);
      assert HoldsRegister(formatted[e.creg], done, e.creg, shots);
    }
  }

  /** One round of the loop over the dictionary, after the shape check. */
  method AddEntry(formatted: Matrices, ghost done: seq<Entry>, e: Entry, ghost shots: nat) returns (after: Matrices)
    requires Holds(formatted, done, shots) && Consistent(done + [e], shots) && Column(e)
    modifies set k | k in formatted :: formatted[k]
    ensures Holds(after, done + [e], shots)
    ensures forall k :: k in after ==> fresh(after[k]) || (k in formatted && after[k] == formatted[k])
  {
    assert (done + [e])[|done|] == e;
    after := SetDefault(formatted, done, e, shots);
    WriteColumn(after[e.creg], e.clbit, e);
    AllAppended(done, e, shots);
    forall k | k in after && k != e.creg ensures HoldsRegister(after[k], done, k, shots) {
      assert HoldsRegister(formatted[k], done, k, shots);
    }
    EntryAdded(after, done, e, shots);
  }

  lemma EntryAdded(after: Matrices, done: seq<Entry>, e: Entry, shots: nat)
    requires AllColumns(done) && Column(e) && |e.rows| == shots
    requires forall i :: 0 <= i < |done| ==> |done[i].rows| == shots
    requires after.Keys == Registers(done) + {e.creg}
    requires forall j, k :: j in after && k in after && j != k ==> after[j] != after[k]
    requires forall k :: k in after && k != e.creg ==> HoldsRegister(after[k], done, k, shots)
    requires after[e.creg].Length0 == shots && after[e.creg].Length1 == e.cregLen
    requires forall s, c :: 0 <= s < shots && 0 <= c < e.cregLen ==>
               after[e.creg][s, c] == if c == e.clbit then e.rows[s][0] else Bit(done, e.creg, c, s)
    ensures Holds(after, done + [e], shots)
  {
    AllAppended(done, e, shots);
    WrittenRegister(after[e.creg], done, e, shots);
    forall k | k in after ensures HoldsRegister(after[k], done + [e], k, shots) {
      if k != e.creg {
        OtherRegister(after[k], done, e, shots, k);
      }
    }
  }

  lemma WrittenRegister(a: array2<int>, done: seq<Entry>, e: Entry, shots: nat)
    requires AllColumns(done) && Column(e) && |e.rows| == shots && a.Length0 == shots && a.Length1 == e.cregLen
    requires forall i :: 0 <= i < |done| ==> |done[i].rows| == shots
    requires AllColumns(done + [e]) && forall i :: 0 <= i < |done + [e]| ==> |(done + [e])[i].rows| == shots
    requires forall s, c :: 0 <= s < shots && 0 <= c < e.cregLen ==>
               a[s, c] == if c == e.clbit then e.rows[s][0] else Bit(done, e.creg, c, s)
    ensures HoldsRegister(a, done + [e], e.creg, shots)
  {
    AppendedBits(done, e, shots, e.creg);
  }

  lemma OtherRegister(a: array2<int>, done: seq<Entry>, e: Entry, shots: nat, k: nat)
    requires AllColumns(done) && Column(e) && |e.rows| == shots
    requires forall i :: 0 <= i < |done| ==> |done[i].rows| == shots
    requires AllColumns(done + [e]) && forall i :: 0 <= i < |done + [e]| ==> |(done + [e])[i].rows| == shots
    requires k != e.creg && HoldsRegister(a, done, k, shots)
    ensures HoldsRegister(a, done + [e], k, shots)
  {
    AppendedBits(done, e, shots, k);
  }

  lemma AllAppended(done: seq<Entry>, e: Entry, shots: nat)
    requires AllColumns(done) && Column(e) && |e.rows| == shots
    requires forall i :: 0 <= i < |done| ==> |done[i].rows| == shots
    ensures AllColumns(done + [e]) && forall i :: 0 <= i < |done + [e]| ==> |(done + [e])[i].rows| == shots
    ensures Registers(done + [e]) == Registers(done) + {e.creg}
  {
    var all := done + [e];
    assert forall x :: x in all <==> x in done || x == e;
    assert e in all;
    forall c | c in Registers(done) ensures c in Registers(all) {
      var x :| x in done && x.creg == c;
      assert x in all;
    }
  }

  /** What one more entry does to the bits of register `k`. */
  lemma AppendedBits(done: seq<Entry>, e: Entry, shots: nat, k: nat)
    requires AllColumns(done) && Column(e) && |e.rows| == shots
    requires forall i :: 0 <= i < |done| ==> |done[i].rows| == shots
    requires AllColumns(done + [e]) && forall i :: 0 <= i < |done + [e]| ==> |(done + [e])[i].rows| == shots
    ensures CregLen(done + [e], k) == if e.creg == k then e.cregLen else CregLen(done, k)
    ensures forall s, c | 0 <= s < shots && 0 <= c ::
              Bit(done + [e], k, c, s) == if e.creg == k && e.clbit == c then e.rows[s][0] else Bit(done, k, c, s)
  {
    AppendedLength(done, e, k);
    forall s, c | 0 <= s < shots && 0 <= c
      ensures Bit(done + [e], k, c, s) == if e.creg == k && e.clbit == c then e.rows[s][0] else Bit(done, k, c, s)
    {
      Appended(done, e, k, c, s);
    }
  }

  /** The measured columns have the same number of rows, and all rows of one the same width. */
  ghost predicate Rectangular(entries: seq<Entry>) {
    forall i :: 0 <= i < |entries| ==>
      && entries[i].rows != []
      && (forall s :: 0 <= s < |entries[i].rows| ==> |entries[i].rows[s]| == |entries[i].rows[0]|)
      && (Narrow(entries[i]) ==> Column(entries[i]))
  }

  /** The shape check: one value per shot. */
  predicate Narrow(e: Entry) {
    e.rows != [] && |e.rows[0]| == 1
  }

  /** The characters of one row of a register's array. */
  method RowText(a: array2<int>, shot: nat) returns (text: string)
    requires shot < a.Length0
    ensures |text| == a.Length1 && forall c :: 0 <= c < |text| ==> text[c] == Digit(a[shot, c])
  {
    text := "";
    for c := 0 to a.Length1
      invariant |text| == c && forall d :: 0 <= d < c ==> text[d] == Digit(a[shot, d])
    {
      text := text + [Digit(a[shot, c])];
    }
  }

  lemma RowIs(entries: seq<Entry>, creg: nat, shot: nat, row: string)
    requires Covers(entries, shot) && |row| == CregLen(entries, creg)
    requires forall c :: 0 <= c < |row| ==> row[c] == Digit(Bit(entries, creg, c, shot))
    ensures row == Row(entries, creg, shot)
  {
  }

  lemma {:induction false} RowsAre(entries: seq<Entry>, regs: seq<nat>, shot: nat, rows: seq<string>)
    requires Covers(entries, shot) && |rows| == |regs|
    requires forall i :: 0 <= i < |regs| ==> rows[i] == Row(entries, regs[i], shot)
    ensures rows == Rows(entries, regs, shot)
  {
    if regs != [] {
      RowsAre(entries, regs[1..], shot, rows[1..]);
    }
  }

  method Text(formatted: Matrices, ghost entries: seq<Entry>, ghost shots: nat, shot: nat) returns (text: string)
    requires Holds(formatted, entries, shots) && shot < shots
    ensures text == ShotText(entries, shot)
  {
    var regs := SortedRegisters(formatted.Keys);
    SortedRegistersIs(formatted.Keys);
    var rows: seq<string> := [];
    for i := 0 to |regs|
      invariant |rows| == i && forall j :: 0 <= j < i ==> rows[j] == Row(entries, regs[j], shot)
    {
      assert regs[i] in formatted && HoldsRegister(formatted[regs[i]], entries, regs[i], shots);
      var row := RowText(formatted[regs[i]], shot);
      RowIs(entries, regs[i], shot, row);
      rows := rows + [row];
    }
    RowsAre(entries, regs, shot, rows);
    text := Reverse(Join(rows));
  }

  /** The loop over the dictionary, with the shape check. */
  method Fill(entries: seq<Entry>, ghost shots: nat) returns (r: Option<Matrices>)
    requires Consistent(entries, shots) && Rectangular(entries)
    ensures r.None? <==> exists i :: 0 <= i < |entries| && !Narrow(entries[i])
    ensures r.Some? ==> Holds(r.value, entries, shots)
  {
    var formatted: Matrices := map[];
    ghost var done: seq<Entry> := [];
    for i := 0 to |entries|
      invariant forall j :: 0 <= j < i ==> Narrow(entries[j])
      invariant done == entries[..i] && Holds(formatted, done, shots)
      invariant forall k :: k in formatted ==> fresh(formatted[k])
    {
      var e := entries[i];
      if !Narrow(e) {
        return None;
      }
      NextPrefix(entries, i, shots);
      formatted := AddEntry(formatted, done, e, shots);
      done := done + [e];
    }
    assert done == entries;
    return Some(formatted);
  }

  lemma NextPrefix(entries: seq<Entry>, i: nat, shots: nat)
    requires Consistent(entries, shots) && Rectangular(entries) && i < |entries| && Narrow(entries[i])
    ensures entries[..i + 1] == entries[..i] + [entries[i]]
    ensures Consistent(entries[..i] + [entries[i]], shots) && Column(entries[i])
  {
    assert entries[..i + 1] == entries[..i] + [entries[i]];
  }

  /** Fails on a measurement that is not one value per shot; otherwise gives the text of every requested shot. */
  method FormatSingleCircuitResults(entries: seq<Entry>, ghost shots: nat, requestedShots: nat)
    returns (r: Option<seq<string>>)
    requires Consistent(entries, shots) && Rectangular(entries) && requestedShots <= shots
    ensures r.None? <==> exists i :: 0 <= i < |entries| && !Narrow(entries[i])
    ensures r.Some? ==> AllColumns(entries) && |r.value| == requestedShots
    ensures r.Some? ==> forall s :: 0 <= s < requestedShots ==> r.value[s] == ShotText(entries, s)
  {
    var formatted := Fill(entries, shots);
    if formatted.None? {
      return None;
    }
    var texts: seq<string> := [];
    for s := 0 to requestedShots
      invariant Holds(formatted.value, entries, shots)
      invariant |texts| == s && forall t :: 0 <= t < s ==> texts[t] == ShotText(entries, t)
    {
      var text := Text(formatted.value, entries, shots, s);
      texts := texts + [text];
    }
    return Some(texts);
  }
}

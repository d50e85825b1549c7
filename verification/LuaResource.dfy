/** The Lua resource handle: who releases an acquired token, and when. */
module LuaResource {
  import opened Wrappers

  /** A call of the C interface, or the hand-over of a token to the caller. */
  datatype Event =
    | Acquired(token: string)
    | Released(token: string, ok: bool, automatic: bool)
    | Detached(token: string)
    | Freed
    | Called

  // ----- traces -------------------------------------------------------------------------------------

  /** The token the handle is responsible for after a trace. */
  function Held(trace: seq<Event>): Option<string> {
    if trace == [] then None
    else
      var before := trace[..|trace| - 1];
      match trace[|trace| - 1]
      case Acquired(t) => Some(t)
      case Detached(_) => None
      case Released(_, ok, automatic) => if ok || automatic then None else Held(before)
      case _ => Held(before)
  }

  /** The same, one event later. */
  function Next(held: Option<string>, e: Event): Option<string> {
    match e
    case Acquired(t) => Some(t)
    case Detached(_) => None
    case Released(_, ok, automatic) => if ok || automatic then None else held
    case _ => held
  }

  /** What may come after `before`. */
  predicate Allowed(before: seq<Event>, e: Event) {
    && Freed !in before
    && match e
       case Acquired(_) => Held(before).None?
       case Released(t, _, automatic) => automatic ==> Held(before) == Some(t)
       case Detached(t) => Held(before) == Some(t)
       case Freed => Held(before).None?
       case Called => true
  }

  /** Every event is allowed by the ones before it. */
  predicate Valid(trace: seq<Event>) {
    trace != [] ==>
      var before := trace[..|trace| - 1];
      Valid(before) && Allowed(before, trace[|trace| - 1])
  }

  lemma {:induction false} AllowedAt(trace: seq<Event>, i: nat)
    requires Valid(trace) && i < |trace|
    ensures Allowed(trace[..i], trace[i]) && Valid(trace[..i])
  {
    var before := trace[..|trace| - 1];
    if i < |before| {
      AllowedAt(before, i);
      assert before[..i] == trace[..i];
    }
  }

  lemma ValidExtend(trace: seq<Event>, e: Event)
    requires Valid(trace) && Allowed(trace, e)
    ensures Valid(trace + [e])
    ensures Held(trace + [e]) == Next(Held(trace), e)
  {
    var all := trace + [e];
    assert all[..|trace|] == trace;
  }

  /** Nothing follows the release of the handle. */
  lemma FreedIsLast(trace: seq<Event>, i: nat, j: nat)
    requires Valid(trace) && i < j < |trace|
    ensures !trace[i].Freed?
  {
    AllowedAt(trace, j);
    assert trace[..j][i] == trace[i];
  }

  /** A freed handle holds no token. */
  lemma FreedHoldsNothing(trace: seq<Event>, i: nat)
    requires Valid(trace) && i < |trace| && trace[i].Freed?
    ensures Held(trace).None?
  {
    AllowedAt(trace, i);
    var next: nat := i + 1;
    if next < |trace| {
      FreedIsLast(trace, i, next);
    }
  }

  /** A token held after a trace was acquired in it, and not given up since. */
  lemma {:induction false} HeldWasAcquired(trace: seq<Event>, t: string) returns (m: nat)
    requires Held(trace) == Some(t)
    ensures m < |trace| && trace[m] == Acquired(t)
    ensures forall j :: m < j < |trace| ==> !trace[j].Detached? && !trace[j].Acquired?
  {
    var last := |trace| - 1;
    if trace[last].Acquired? {
      m := last;
    } else {
      m := HeldWasAcquired(trace[..last], t);
    }
  }

  /** A detached token is never released automatically, unless it is acquired again. */
  lemma DetachedStaysOut(trace: seq<Event>, i: nat, j: nat, t: string)
    requires Valid(trace) && i < j < |trace| && trace[i] == Detached(t)
    requires trace[j].Released? && trace[j].automatic && trace[j].token == t
    ensures exists m :: i < m < j && trace[m] == Acquired(t)
  {
    AllowedAt(trace, j);
    var m := HeldWasAcquired(trace[..j], t);
    assert trace[..j][i] == trace[i];
  }

  /** Whether an event hands the token to a release, or back to the caller. */
  predicate Accounts(e: Event, t: string) {
    (e.Released? && e.token == t) || e == Detached(t)
  }

  /** A successful release of another token makes the handle forget its own. */
  ghost predicate Forgets(trace: seq<Event>, i: nat)
    requires i < |trace|
  {
    trace[i].Released? && trace[i].ok && Held(trace[..i]).Some? && Held(trace[..i]) != Some(trace[i].token)
  }

  /** The handle stops being responsible for a token by an event about another one. */
  ghost predicate Leaks(trace: seq<Event>, i: nat)
    requires i < |trace|
  {
    Held(trace[..i]).Some? && Held(trace[..i + 1]) != Held(trace[..i]) && !Accounts(trace[i], Held(trace[..i]).value)
  }

  /** That happens exactly when an explicit release of another token succeeds. */
  lemma LeaksExactly(trace: seq<Event>, i: nat)
    requires Valid(trace) && i < |trace|
    ensures Leaks(trace, i) <==> Forgets(trace, i)
  {
    AllowedAt(trace, i);
    assert trace[..i + 1][..i] == trace[..i];
  }

  /** What an explicit release on a handle with this past adds, if it succeeds or not. */
  function ReleaseEvents(before: seq<Event>, given: Option<string>, ok: bool): seq<Event> {
    var token := if given.Some? then given else Held(before);
    if token.None? then [] else [Released(token.value, ok, false)]
  }

  ghost predicate LosesNothing(before: seq<Event>, given: Option<string>, ok: bool) {
    var after := before + ReleaseEvents(before, given, ok);
    forall i :: |before| <= i < |after| ==> !Leaks(after, i)
  }

  /**
   * Before the call: an explicit release loses no token, however it ends, exactly if it names none,
   * or none is held, or it names the held one.
   */
  lemma ReleaseSafeExactly(before: seq<Event>, given: Option<string>)
    requires Valid(before) && Freed !in before
    ensures (forall ok :: LosesNothing(before, given, ok)) <==>
            given.None? || Held(before).None? || given == Held(before)
  {
    var token := if given.Some? then given else Held(before);
    if token.Some? {
      var won := before + [Released(token.value, true, false)];
      ValidExtend(before, Released(token.value, true, false));
      ValidExtend(before, Released(token.value, false, false));
      assert won[..|before|] == before && won[..|won|] == won;
      LeaksExactly(won, |before|);
      var lost := before + [Released(token.value, false, false)];
      assert lost[..|before|] == before && lost[..|lost|] == lost;
      LeaksExactly(lost, |before|);
      assert LosesNothing(before, given, false);
      assert LosesNothing(before, given, true) <==> !Leaks(won, |before|);
    } else {
      assert LosesNothing(before, given, true) && LosesNothing(before, given, false);
    }
  }

  /** Without such releases, every acquired token is accounted for, or still held. */
  lemma {:induction false} AcquiredIsAccounted(trace: seq<Event>, i: nat, t: string)
    requires Valid(trace) && i < |trace| && trace[i] == Acquired(t)
    requires forall j :: 0 <= j < |trace| ==> !Forgets(trace, j)
    ensures Held(trace) == Some(t) || exists j :: i < j < |trace| && Accounts(trace[j], t)
  {
    var last := |trace| - 1;
    if i < last {
      var front := trace[..last];
      forall j | 0 <= j < |front| ensures !Forgets(front, j) {
        assert front[..j] == trace[..j] && !Forgets(trace, j);
      }
      AcquiredIsAccounted(front, i, t);
      if Held(front) == Some(t) {
        assert trace[..last + 1] == trace;
        assert !Forgets(trace, last) && Allowed(trace[..last], trace[last]);
      } else {
        var j :| i < j < |front| && Accounts(front[j], t);
        assert trace[j] == front[j];
      }
    }
  }

  /** So by the time the handle is freed, every acquired token was passed to release or detached. */
  lemma NothingHeldWhenFreed(trace: seq<Event>, i: nat, t: string)
    requires Valid(trace) && i < |trace| && trace[i] == Acquired(t) && Freed in trace
    requires forall j :: 0 <= j < |trace| ==> !Forgets(trace, j)
    ensures exists j :: i < j < |trace| && Accounts(trace[j], t)
  {
    var f :| 0 <= f < |trace| && trace[f].Freed?;
    FreedHoldsNothing(trace, f);
    AcquiredIsAccounted(trace, i, t);
  }

  /** Releasing another token explicitly: the own one is dropped, and freed without a release. */
  lemma OwnTokenCanBeForgotten(own: string, other: string) returns (trace: seq<Event>)
    requires own != other
    ensures Valid(trace) && trace == [Acquired(own), Released(other, true, false), Freed]
    ensures forall j :: 0 <= j < |trace| ==> !Accounts(trace[j], own)
  {
    assert Held([]).None?;
    ValidExtend([], Acquired(own));
    ValidExtend([Acquired(own)], Released(other, true, false));
    ValidExtend([Acquired(own), Released(other, true, false)], Freed);
    trace := [Acquired(own), Released(other, true, false), Freed];
    assert [] + [Acquired(own)] == [Acquired(own)];
    assert [Acquired(own)] + [Released(other, true, false)] == [Acquired(own), Released(other, true, false)];
    assert trace == [Acquired(own), Released(other, true, false)] + [Freed];
  }

  // ----- what each call adds --------------------------------------------------------------------------

  /** `Free` is `free` and the finalizer, `Call` any method that only needs the handle. */
  datatype Operation = Acquire | Release(given: Option<string>) | Detach | Free | Call

  /** The events of one call on a handle that holds this token, or is freed. */
  predicate Appends(held: Option<string>, freed: bool, op: Operation, part: seq<Event>) {
    if freed then part == []
    else
      match op
      case Acquire =>
        // a held token is released first, and a failure of that is the end of it
        if held.None? then part == [] || (|part| == 1 && part[0].Acquired?)
        else
          && part != [] && GivesUp(part[0], held.value, true)
          && (|part| == 1 || (|part| == 2 && part[0].ok && part[1].Acquired?))
      case Release(given) =>
        var token := if given.Some? then given else held;
        if token.None? then part == [] else |part| == 1 && GivesUp(part[0], token.value, false)
      case Detach => part == if held.None? then [] else [Detached(held.value)]
      case Free =>
        if held.None? then part == [Freed]
        else |part| == 2 && GivesUp(part[0], held.value, true) && part[1] == Freed
      case Call => part == [Called]
  }

  predicate GivesUp(e: Event, token: string, automatic: bool) {
    e.Released? && e.token == token && e.automatic == automatic
  }

  /** The same on a handle with this past. */
  predicate AppendsTo(before: seq<Event>, op: Operation, part: seq<Event>) {
    Appends(Held(before), Freed in before, op, part)
  }

  function Concat(parts: seq<seq<Event>>): seq<Event> {
    if parts == [] then [] else Concat(parts[..|parts| - 1]) + parts[|parts| - 1]
  }

  type Rule = (seq<Event>, Operation, seq<Event>) -> bool

  /** The events of a sequence of calls, call by call, each by the rule for what comes after its past. */
  predicate Follows(rule: Rule, before: seq<Event>, script: seq<Operation>, parts: seq<seq<Event>>)
    decreases |script|
  {
    if script == [] then parts == []
    else
      var n := |script| - 1;
      && |parts| == n + 1 && Follows(rule, before, script[..n], parts[..n])
      && rule(before + Concat(parts[..n]), script[n], parts[n])
  }

  lemma FollowsMore(rule: Rule, before: seq<Event>, script: seq<Operation>, parts: seq<seq<Event>>, op: Operation,
                    part: seq<Event>)
    requires Follows(rule, before, script, parts) && rule(before + Concat(parts), op, part)
    ensures Follows(rule, before, script + [op], parts + [part])
    ensures before + Concat(parts + [part]) == before + Concat(parts) + part
  {
    assert (script + [op])[..|script|] == script && (parts + [part])[..|parts|] == parts;
  }

  // ----- the userdata and its methods ------------------------------------------------------------------

  lemma Reassociate(a: seq<Event>, b: seq<Event>, c: seq<Event>)
    ensures (a + b) + c == a + (b + c)
  {
  }

  /** What a Lua call gives: a value, `nil` with a message, or a raised error. */
  datatype Answer = Value(text: string) | Nil | Raised

  class Resource {
    var handle: bool               // not yet freed
    var acquisitionToken: Option<string>
    var trace: seq<Event>

    ghost predicate Ok()
      reads this
    {
      && Valid(trace) && acquisitionToken == Held(trace)
      && (handle <==> Freed !in trace)
      && (!handle ==> acquisitionToken.None?)
    }

    constructor ()
      ensures Ok() && handle && trace == []
    {
      handle, acquisitionToken, trace := true, None, [];
    }

    /** Appends an event; the caller keeps the cached token in step. */
    method Note(e: Event)
      requires Valid(trace) && Allowed(trace, e)
      modifies this`trace
      ensures trace == old(trace) + [e] && Valid(trace)
      ensures Held(trace) == Next(old(Held(trace)), e)
      ensures Freed in trace <==> e == Freed
    {
      ValidExtend(trace, e);
      trace := trace + [e];
    }

    /** Gives up the cached token unasked; it is forgotten whether or not the release succeeds. */
    method GiveUp() returns (ok: bool)
      requires Ok() && acquisitionToken.Some?
      modifies this
      ensures Ok() && handle == old(handle) && acquisitionToken.None?
      ensures trace == old(trace) + [Released(old(acquisitionToken).value, ok, true)]
    {
      ok := *;
      Note(Released(acquisitionToken.value, ok, true));
      acquisitionToken := None;
    }

    /** Asks for a token, when none is held. */
    method Obtain() returns (r: Answer, ghost part: seq<Event>)
      requires Ok() && handle && acquisitionToken.None?
      modifies this
      ensures Ok() && trace == old(trace) + part && !r.Raised?
      ensures if r.Value? then part == [Acquired(r.text)] && acquisitionToken == Some(r.text)
              else part == [] && acquisitionToken.None?
    {
      part := [];
      var ok: bool := *;
      if !ok {
        return Nil, part;
      }
      var token: string := *;
      part := [Acquired(token)];
      Note(Acquired(token));
      acquisitionToken := Some(token);
      return Value(token), part;
    }

    /** Releases a token it still holds first, and forgets it even if that fails. */
    method Acquire() returns (r: Answer, ghost part: seq<Event>)
      requires Ok()
      modifies this
      ensures Ok() && trace == old(trace) + part
      ensures Appends(old(acquisitionToken), !old(handle), Operation.Acquire, part)
      ensures r.Raised? <==> !old(handle)
      ensures r.Value? <==> part != [] && part[|part| - 1].Acquired?
      ensures r.Value? ==> acquisitionToken == Some(r.text)
    {
      part := [];
      if !handle {
        return Raised, part;
      }
      if acquisitionToken.Some? {
        ghost var token := acquisitionToken.value;
        var ok := GiveUp();
        part := [Released(token, ok, true)];
        if !ok {
          return Nil, part;
        }
      }
      ghost var rest;
      r, rest := Obtain();
      Reassociate(old(trace), part, rest);
      part := part + rest;
    }

    /** The given token, or the cached one; success forgets the cached one, whichever was released. */
    method Release(given: Option<string>) returns (r: Answer, ghost part: seq<Event>)
      requires Ok()
      modifies this
      ensures Ok() && trace == old(trace) + part
      ensures Appends(old(acquisitionToken), !old(handle), Operation.Release(given), part)
      ensures r.Raised? <==> !old(handle)
      ensures r.Value? <==> part != [] && part[0].Released? && part[0].ok
      ensures acquisitionToken == if r.Value? then None else old(acquisitionToken)
    {
      part := [];
      if !handle {
        return Raised, part;
      }
      var token := if given.Some? then given else acquisitionToken;
      if token.None? {
        return Nil, part;
      }
      var ok: bool := *;
      part := [Released(token.value, ok, false)];
      Note(Released(token.value, ok, false));
      if !ok {
        return Nil, part;
      }
      acquisitionToken := None;
      return Value("true"), part;
    }

    method Detach() returns (r: Answer, ghost part: seq<Event>)
      requires Ok()
      modifies this
      ensures Ok() && trace == old(trace) + part
      ensures Appends(old(acquisitionToken), !old(handle), Operation.Detach, part)
      ensures acquisitionToken.None?
      ensures r == if !old(handle) then Raised
                   else if old(acquisitionToken).None? then Nil else Value(old(acquisitionToken).value)
    {
      part := [];
      if !handle {
        return Raised, part;
      }
      if acquisitionToken.None? {
        return Nil, part;
      }
      r, part := Value(acquisitionToken.value), [Detached(acquisitionToken.value)];
      Note(Detached(acquisitionToken.value));
      acquisitionToken := None;
    }

    /** Any other method: it needs the handle and leaves the token alone. */
    method Other() returns (r: Answer, ghost part: seq<Event>)
      requires Ok()
      modifies this`trace
      ensures Ok() && trace == old(trace) + part
      ensures Appends(old(acquisitionToken), !old(handle), Call, part)
      ensures !handle ==> r == Raised
    {
      if !handle {
        return Raised, [];
      }
      Note(Called);
      part := [Called];
      r := *;
    }

    method FreeHandle()
      requires Ok() && handle && acquisitionToken.None?
      modifies this
      ensures Ok() && !handle && acquisitionToken.None? && trace == old(trace) + [Freed]
    {
      Note(Freed);
      handle := false;
    }

    /** `free` and the finalizer alike: what is cached is released, then the handle is freed, once. */
    method ReleaseResource() returns (ghost part: seq<Event>)
      requires Ok()
      modifies this
      ensures Ok() && !handle && trace == old(trace) + part
      ensures Appends(old(acquisitionToken), !old(handle), Free, part)
      ensures !old(handle) ==> unchanged(this)
    {
      part := [];
      if !handle {
        return;
      }
      if acquisitionToken.Some? {
        ghost var token := acquisitionToken.value;
        var ok := GiveUp();
        part := [Released(token, ok, true)];
      }
      Reassociate(old(trace), part, [Freed]);
      FreeHandle();
      part := part + [Freed];
    }

    method Perform(op: Operation) returns (ghost part: seq<Event>)
      requires Ok()
      modifies this
      ensures Ok() && trace == old(trace) + part && AppendsTo(old(trace), op, part)
      ensures op.Free? ==> !handle
    {
      match op
      case Acquire => var _, p := Acquire(); part := p;
      case Release(given) => var _, p := Release(given); part := p;
      case Detach => var _, p := Detach(); part := p;
      case Free => part := ReleaseResource();
      case Call => var _, p := Other(); part := p;
    }
  }

  /** Any sequence of calls on a handle, ended by the finalizer: the trace grows by the events of those calls. */
  method AnyRun(r: Resource, script: seq<Operation>) returns (ghost parts: seq<seq<Event>>)
    requires r.Ok()
    modifies r
    ensures r.Ok() && !r.handle
    ensures r.trace == old(r.trace) + Concat(parts)
    ensures Follows(AppendsTo, old(r.trace), script + [Free], parts)
  {
    parts := [];
    ghost var rule: Rule := AppendsTo;
    var all := script + [Free];
    for i := 0 to |all|
      invariant r.Ok() && r.trace == old(r.trace) + Concat(parts)
      invariant i == |all| ==> !r.handle
      invariant Follows(rule, old(r.trace), all[..i], parts)
    {
      ghost var before := r.trace;
      ghost var part := r.Perform(all[i]);
      assert rule(before, all[i], part);
      FollowsMore(rule, old(r.trace), all[..i], parts, all[i], part);
      assert all[..i + 1] == all[..i] + [all[i]];
      parts := parts + [part];
    }
    assert all[..|all|] == all;
  }
}

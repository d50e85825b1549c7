/** Session reuse of the IBM Quantum Compute Service client. */
module IbmSession {
  import opened Wrappers
  import opened JobPaging
  import Text

  /** The 32-bit division of the client's language, which truncates toward zero. */
  function TruncDiv(a: int, b: int): int
    requires b > 0
  {
    if a >= 0 then a / b else -((-a) / b)
  }

  /** The test that decides whether a session is still good for use. */
  predicate WorthReusing(maxTtl: i32, activeTtl: i32) {
    TruncDiv(maxTtl as int, 100) < activeTtl as int
  }

  /** For times that are not negative: more than a hundredth of the lifetime is left. */
  lemma ReuseRule(maxTtl: i32, activeTtl: i32)
    requires maxTtl >= 0
    ensures WorthReusing(maxTtl, activeTtl) <==> 100 * (activeTtl as int) > maxTtl as int
  {
  }

  /** For all 32-bit values, the rule fails in one case: truncation rounds a negative lifetime up to the active time. */
  lemma ReuseRuleExactly(maxTtl: i32, activeTtl: i32)
    ensures (WorthReusing(maxTtl, activeTtl) <==> 100 * (activeTtl as int) > maxTtl as int) <==>
            !(maxTtl < 0 && maxTtl as int % 100 != 0 && activeTtl as int == TruncDiv(maxTtl as int, 100))
  {
    var m, a := maxTtl as int, activeTtl as int;
    if m < 0 {
      var q := (-m) / 100;
      assert -m == 100 * q + (-m) % 100;
      assert m % 100 == 0 <==> (-m) % 100 == 0;
    }
  }

  /** The case exists: -150 truncates to -1, so a session with active time -1 is given up. */
  lemma ReuseRuleFails()
    ensures !WorthReusing(-150, -1) && 100 * (-1) > -150
  {
  }

  /** The active and maximum time to live of a session; both may be missing. */
  datatype Times = Times(activeTtl: Option<i32>, maxTtl: Option<i32>)

  predicate StillGood(t: Times) {
    WorthReusing(if t.maxTtl.Some? then t.maxTtl.value else 1, if t.activeTtl.Some? then t.activeTtl.value else 1)
  }

  /** A request with its answer. */
  datatype ApiCall =
    | GetSession(id: string, times: Result<Times, ErrorKind>)
    | ListPending(id: string, pending: Result<Option<nat>, ErrorKind>)
    | CancelSession(id: string, ok: bool)
    | CloseSession(id: string, ok: bool)
    | CreateSession(ok: bool)

  /** Missing times count as one; for lifetimes that are not negative this is the whole rule. */
  lemma StillGoodExactly(active: Option<i32>, max: Option<i32>)
    requires max.Some? ==> max.value >= 0
    ensures StillGood(Times(active, max)) <==>
            match (active, max)
            case (Some(a), Some(m)) => 100 * (a as int) > m as int
            case (None, Some(m)) => m < 100
            case (Some(a), None) => a > 0
            case (None, None) => true
  {
  }

  // ----- the remote sessions ---------------------------------------------------------------------

  datatype Sessions = Sessions(
    open: set<string>,
    mine: set<string>,  // created by this client
    lost: set<string>,  // of those, the ones whose id never arrived
    used: set<string>)  // ids are not given out twice
  {
    predicate Valid() {
      lost <= mine <= used && open <= used
    }

    /** Others open sessions of their own, and any session may end. */
    function Drifted(d: Drift): (s: Sessions)
      ensures Valid() ==> s.Valid() && s.open * mine <= open
    {
      this.(open := (open - d.ended) + (d.others - used), used := used + d.others)
    }

    function Close(id: string): Sessions {
      this.(open := open - {id})
    }

    /** A new session of this client; its id may get lost on the way. */
    function Create(id: string, arrives: bool): Sessions {
      this.(open := open + {id}, mine := mine + {id}, used := used + {id},
            lost := if arrives then lost else lost + {id})
    }
  }

  datatype Drift = Drift(ended: set<string>, others: set<string>)

  /** Of the sessions this client created and knows of, at most the retained one is open. */
  ghost predicate OneOpen(s: Sessions, retained: Option<string>) {
    forall id :: id in s.mine && id in s.open && id !in s.lost ==> retained == Some(id)
  }

  // ----- a release, for every behaviour of the server ------------------------------------------------

  /** What the server does during a release. An error answer leaves open whether the request took effect. */
  datatype Behaviour = Behaviour(first: Drift, pending: Result<Option<nat>, ErrorKind>, second: Drift,
                                 ended: Result<(), ErrorKind>, effective: bool)

  /** The remote sessions and the retained one after a release. */
  function Released(s: Sessions, retained: Option<string>, token: string, b: Behaviour): (Sessions, Option<string>) {
    var asked := s.Drifted(b.first);
    if b.pending.Failure? then (asked, retained)
    else
      var drifted := asked.Drifted(b.second);
      var closed := if b.ended.Success? || b.effective then drifted.Close(token) else drifted;
      (closed, if b.ended.Success? then None else retained)
  }

  ghost predicate Keeps(s: Sessions, retained: Option<string>, token: string, b: Behaviour) {
    OneOpen(Released(s, retained, token, b).0, Released(s, retained, token, b).1)
  }

  /** The token is that of the retained session, or there is none that could be left behind. */
  predicate NothingToLose(s: Sessions, retained: Option<string>, token: string) {
    retained.None? || retained == Some(token) || retained.value !in s.mine * s.open - s.lost
  }

  /** A release is safe for every behaviour of the server exactly under that condition on the state before it. */
  lemma ReleaseSafeExactly(s: Sessions, retained: Option<string>, token: string)
    requires s.Valid() && OneOpen(s, retained)
    ensures (forall b :: Keeps(s, retained, token, b)) <==> NothingToLose(s, retained, token)
  {
    if NothingToLose(s, retained, token) {
      forall b ensures Keeps(s, retained, token, b) {
        ReleaseKeeps(s, retained, token, b);
      }
    } else {
      var none := Drift({}, {});
      var b := Behaviour(none, Success(None), none, Success(()), true);
      var after := Released(s, retained, token, b);
      assert after.1.None? && retained.value in after.0.mine * after.0.open - after.0.lost;
      assert !Keeps(s, retained, token, b);
    }
  }

  lemma ReleaseKeeps(s: Sessions, retained: Option<string>, token: string, b: Behaviour)
    requires s.Valid() && OneOpen(s, retained)
    requires NothingToLose(s, retained, token) || Released(s, retained, token, b).1 == retained
    ensures Keeps(s, retained, token, b)
  {
    var after := Released(s, retained, token, b);
    forall id | id in after.0.mine && id in after.0.open && id !in after.0.lost ensures after.1 == Some(id) {
      assert id in s.open && id in s.mine && id !in s.lost;
    }
  }

  /** A run that leaks: another client's session is open, this one acquires its own and releases the other. */
  lemma ReleaseCanLeak(own: string, other: string) returns (s: Sessions, b: Behaviour)
    requires own != other
    ensures s == Sessions({other}, {}, {}, {other}).Create(own, true)
    ensures s.Valid() && OneOpen(s, Some(own))
    ensures
      var after := Released(s, Some(own), other, b);
      after.1.None? && own in after.0.open && !OneOpen(after.0, after.1)
  {
    s := Sessions({other}, {}, {}, {other}).Create(own, true);
    b := Behaviour(Drift({}, {}), Success(None), Drift({}, {}), Success(()), true);
    var after := Released(s, Some(own), other, b);
    assert own in after.0.mine && own in after.0.open && own !in after.0.lost;
  }

  /** The remote sessions, one request at a time. */
  class SessionApi {
    var sessions: Sessions
    var calls: seq<ApiCall>

    predicate Valid()
      reads this
    {
      sessions.Valid()
    }

    method Interfere() returns (d: Drift)
      requires Valid()
      modifies this`sessions
      ensures Valid() && sessions == old(sessions).Drifted(d)
    {
      d := *;
      sessions := sessions.Drifted(d);
    }

    method Get(id: string) returns (r: Result<Times, ErrorKind>)
      requires Valid()
      modifies this
      ensures Valid() && exists d :: sessions == old(sessions).Drifted(d)
      ensures calls == old(calls) + [GetSession(id, r)]
    {
      var d := Interfere();
      r := *;
      calls := calls + [GetSession(id, r)];
    }

    method Pending(id: string) returns (r: Result<Option<nat>, ErrorKind>, d: Drift)
      requires Valid()
      modifies this
      ensures Valid() && sessions == old(sessions).Drifted(d)
      ensures calls == old(calls) + [ListPending(id, r)]
    {
      d := Interfere();
      r := *;
      calls := calls + [ListPending(id, r)];
    }

    method End(id: string, cancel: bool) returns (r: Result<(), ErrorKind>, d: Drift, effective: bool)
      requires Valid()
      modifies this
      ensures Valid()
      ensures var drifted := old(sessions).Drifted(d);
              sessions == if r.Success? || effective then drifted.Close(id) else drifted
      ensures calls ==
              old(calls) + [if cancel then CancelSession(id, r.Success?) else CloseSession(id, r.Success?)]
    {
      d := Interfere();
      r := *;
      effective := *;
      if r.Success? || effective {
        sessions := sessions.Close(id);
      }
      calls := calls + [if cancel then CancelSession(id, r.Success?) else CloseSession(id, r.Success?)];
    }

    /** `id` is that of the created session, if there is one; it may get lost. */
    method Create() returns (r: Result<string, ErrorKind>, d: Drift, id: Option<string>)
      requires Valid()
      modifies this
      ensures Valid()
      ensures calls == old(calls) + [CreateSession(r.Success?)]
      ensures sessions == match id
                          case None => old(sessions).Drifted(d)
                          case Some(created) => old(sessions).Drifted(d).Create(created, r.Success?)
      ensures id.Some? ==> id.value !in old(sessions).used
      ensures r.Success? ==> id == Some(r.value)
    {
      d := Interfere();
      r, id := *, *;
      if id.Some? && id.value !in sessions.used {
        sessions := sessions.Create(id.value, r.Success?);
        if r.Success? { r := Success(id.value); }
      } else {
        id := None;
        if r.Success? { r := Failure(Other); }
      }
      calls := calls + [CreateSession(r.Success?)];
    }
  }

  /** The requests of a release: pending jobs decide between cancelling and closing. */
  predicate ReleaseCalls(token: string, tail: seq<ApiCall>, ok: bool) {
    && |tail| >= 1 && tail[0].ListPending? && tail[0].id == token
    && match tail[0].pending
       case Failure(_) => |tail| == 1 && !ok
       case Success(jobs) =>
         && |tail| == 2
         && tail[1] == if jobs.Some? && jobs.value > 0 then CancelSession(token, ok) else CloseSession(token, ok)
  }

  /** The requests, answer and new session of an acquisition. */
  predicate AcquireCalls(before: Option<string>, modeOk: bool, tail: seq<ApiCall>, r: Result<string, ErrorKind>,
                         after: Option<string>)
  {
    match before
    case None => CreateCalls(modeOk, tail, r, after)
    case Some(id) =>
      && |tail| >= 1 && tail[0].GetSession? && tail[0].id == id
      && match tail[0].times
         case Failure(e) => |tail| == 1 && r == Failure(e) && after == before
         case Success(times) =>
           if StillGood(times) then |tail| == 1 && r == Success(id) && after == before
           else
             // closed before another one is created
             || (ReleaseCalls(id, tail[1..], false) && r.Failure? && after == before)
             || (|tail| >= 3 && ReleaseCalls(id, tail[1..3], true) && CreateCalls(modeOk, tail[3..], r, after))
  }

  predicate CreateCalls(modeOk: bool, tail: seq<ApiCall>, r: Result<string, ErrorKind>, after: Option<string>) {
    if !modeOk then tail == [] && r == Failure(InvalidInput) && after.None?
    else tail == [CreateSession(r.Success?)] && after == if r.Success? then Some(r.value) else None
  }

  lemma CallsAfterRelease(id: string, modeOk: bool, times: Result<Times, ErrorKind>, released: seq<ApiCall>,
                          created: seq<ApiCall>, r: Result<string, ErrorKind>, after: Option<string>)
    requires times.Success? && !StillGood(times.value)
    requires ReleaseCalls(id, released, true) && CreateCalls(modeOk, created, r, after)
    ensures AcquireCalls(Some(id), modeOk, [GetSession(id, times)] + released + created, r, after)
  {
    var tail := [GetSession(id, times)] + released + created;
    assert tail[1..3] == released && tail[3..] == created;
  }

  class Service {
    const api: SessionApi
    const mode: string
    var sessionId: Option<string>

    ghost predicate AtMostOneOpen()
      reads this, api
    {
      OneOpen(api.sessions, sessionId)
    }

    constructor (api: SessionApi, mode: string, session: Option<string>)
      requires api.Valid() && api.sessions.mine == {}
      ensures this.api == api && this.mode == mode && sessionId == session && AtMostOneOpen()
    {
      this.api, this.mode, this.sessionId := api, mode, session;
    }

    predicate ModeOk() {
      Text.EqIgnoreAsciiCase(mode, "batch") || Text.EqIgnoreAsciiCase(mode, "dedicated")
    }

    /** Which modes are known, in any case. */
    lemma ModesKnown()
      ensures ModeOk() <==> Text.Lower(mode) in {"batch", "dedicated"}
    {
      Text.EqIgnoreIsLower(mode, "batch");
      Text.EqIgnoreIsLower(mode, "dedicated");
      assert Text.Lower("batch") == "batch" && Text.Lower("dedicated") == "dedicated";
    }

    method Acquire() returns (r: Result<string, ErrorKind>)
      requires api.Valid()
      modifies this`sessionId, api
      ensures api.Valid() && (old(AtMostOneOpen()) ==> AtMostOneOpen())
      ensures old(api.calls) <= api.calls
      ensures AcquireCalls(old(sessionId), ModeOk(), api.calls[|old(api.calls)|..], r, sessionId)
    {
      ghost var before := api.calls;
      if sessionId.None? {
        r := Create();
        return;
      }
      var existing := sessionId.value;
      var times := api.Get(existing);
      ghost var asked := api.calls;
      assert api.calls[|before|..] == [GetSession(existing, times)];
      if times.Failure? {
        return Failure(times.error);
      }
      if StillGood(times.value) {
        return Success(existing);
      }
      var ended, _ := Release(existing);
      ghost var released := api.calls;
      assert released[|before|..] == [GetSession(existing, times)] + released[|asked|..];
      if ended.Failure? {
        assert released[|before|..][1..] == released[|asked|..];
        return Failure(ended.error);
      }
      r := Create();
      CallsAfterRelease(existing, ModeOk(), times, released[|asked|..], api.calls[|released|..], r, sessionId);
      assert api.calls[|before|..] == [GetSession(existing, times)] + released[|asked|..] + api.calls[|released|..];
    }

    /** The rest of an acquisition, once no session is retained. */
    method Create() returns (r: Result<string, ErrorKind>)
      requires api.Valid() && sessionId.None?
      modifies this`sessionId, api
      ensures api.Valid() && (old(AtMostOneOpen()) ==> AtMostOneOpen())
      ensures old(api.calls) <= api.calls
      ensures CreateCalls(ModeOk(), api.calls[|old(api.calls)|..], r, sessionId)
    {
      if !ModeOk() {
        return Failure(InvalidInput);
      }
      var id, _, _ := api.Create();
      if id.Failure? {
        return Failure(id.error);
      }
      sessionId := Some(id.value);
      return Success(id.value);
    }

    /** Ends the session the token names; on success the retained session is forgotten, whichever it is. */
    method Release(token: string) returns (r: Result<(), ErrorKind>, b: Behaviour)
      requires api.Valid()
      modifies this`sessionId, api
      ensures api.Valid() && (api.sessions, sessionId) == Released(old(api.sessions), old(sessionId), token, b)
      ensures r.Success? <==> b.pending.Success? && b.ended.Success?
      ensures sessionId == if r.Success? then None else old(sessionId)
      ensures old(api.calls) <= api.calls && ReleaseCalls(token, api.calls[|old(api.calls)|..], r.Success?)
      // a failed release keeps the books in order, and a safe one does
      ensures old(AtMostOneOpen()) && (r.Failure? || NothingToLose(old(api.sessions), old(sessionId), token)) ==>
                AtMostOneOpen()
    {
      var jobs, first := api.Pending(token);
      b := Behaviour(first, jobs, first, Failure(Other), false);
      if jobs.Failure? {
        r := Failure(jobs.error);
      } else {
        var doCancel := jobs.value.Some? && jobs.value.value > 0;
        var ended, second, effective := api.End(token, doCancel);
        b := Behaviour(first, jobs, second, ended, effective);
        if ended.Failure? {
          r := Failure(ended.error);
        } else {
          sessionId := None;
          r := Success(());
        }
      }
      if old(AtMostOneOpen()) && (r.Failure? || NothingToLose(old(api.sessions), old(sessionId), token)) {
        ReleaseKeeps(old(api.sessions), old(sessionId), token, b);
      }
    }
  }

  // ----- whole runs ----------------------------------------------------------------------------------

  datatype Operation = AcquireOne | ReleaseOf(token: string)

  datatype Answer = AcquireIs(r: Result<string, ErrorKind>) | ReleaseIs(ok: bool)

  /** One operation: the retained session before it, its requests, its answer, and the retained session after it. */
  datatype Step = Step(before: Option<string>, op: Operation, part: seq<ApiCall>, answer: Answer, after: Option<string>)

  predicate StepOk(modeOk: bool, st: Step) {
    match st.op
    case AcquireOne => st.answer.AcquireIs? && AcquireCalls(st.before, modeOk, st.part, st.answer.r, st.after)
    case ReleaseOf(token) =>
      && st.answer.ReleaseIs? && ReleaseCalls(token, st.part, st.answer.ok)
      && st.after == if st.answer.ok then None else st.before
  }

  /** A release passes the token in hand. */
  predicate OwnToken(st: Step) {
    st.op.ReleaseOf? ==> st.before.None? || st.before == Some(st.op.token)
  }

  function Requests(steps: seq<Step>): seq<ApiCall> {
    if steps == [] then [] else Requests(steps[..|steps| - 1]) + steps[|steps| - 1].part
  }

  /** Steps that perform a script, one after the other, between two retained sessions. */
  predicate Chain(from: Option<string>, script: seq<Operation>, steps: seq<Step>, to: Option<string>)
    decreases |script|
  {
    if script == [] then steps == [] && from == to
    else
      var n := |script| - 1;
      && |steps| == n + 1 && steps[n].op == script[n] && steps[n].after == to
      && Chain(from, script[..n], steps[..n], steps[n].before)
  }

  lemma ChainMore(from: Option<string>, script: seq<Operation>, i: nat, steps: seq<Step>, st: Step)
    requires i < |script| && st.op == script[i] && Chain(from, script[..i], steps, st.before)
    ensures Chain(from, script[..i + 1], steps + [st], st.after)
    ensures Requests(steps + [st]) == Requests(steps) + st.part
  {
    assert script[..i + 1][..i] == script[..i] && (steps + [st])[..|steps|] == steps;
  }

  /** One operation of a run. */
  method Perform(service: Service, op: Operation) returns (ghost st: Step)
    requires service.api.Valid()
    modifies service, service.api
    ensures service.api.Valid() && StepOk(service.ModeOk(), st) && st.op == op
    ensures st.before == old(service.sessionId) && st.after == service.sessionId
    ensures service.api.calls == old(service.api.calls) + st.part
    ensures old(service.AtMostOneOpen()) && OwnToken(st) ==> service.AtMostOneOpen()
  {
    ghost var n := |service.api.calls|;
    match op
    case AcquireOne =>
      var r := service.Acquire();
      st := Step(old(service.sessionId), op, service.api.calls[n..], AcquireIs(r), service.sessionId);
    case ReleaseOf(token) =>
      var r, _ := service.Release(token);
      st := Step(old(service.sessionId), op, service.api.calls[n..], ReleaseIs(r.Success?), service.sessionId);
  }

  /**
   * Any script of operations: the requests are those of its steps, each as its operation demands;
   * and if every release passes the token in hand, then of the sessions this client created and
   * knows of, at most the retained one is open.
   */
  method AnyRun(service: Service, script: seq<Operation>) returns (ghost steps: seq<Step>)
    requires service.api.Valid()
    modifies service, service.api
    ensures service.api.Valid()
    ensures service.api.calls == old(service.api.calls) + Requests(steps)
    ensures Chain(old(service.sessionId), script, steps, service.sessionId)
    ensures forall i :: 0 <= i < |steps| ==> StepOk(service.ModeOk(), steps[i])
    ensures old(service.AtMostOneOpen()) && (forall i :: 0 <= i < |steps| ==> OwnToken(steps[i])) ==>
              service.AtMostOneOpen()
  {
    steps := [];
    for i := 0 to |script|
      invariant service.api.Valid()
      invariant service.api.calls == old(service.api.calls) + Requests(steps)
      invariant Chain(old(service.sessionId), script[..i], steps, service.sessionId)
      invariant forall j :: 0 <= j < |steps| ==> StepOk(service.ModeOk(), steps[j])
      invariant old(service.AtMostOneOpen()) && (forall j :: 0 <= j < |steps| ==> OwnToken(steps[j])) ==>
                  service.AtMostOneOpen()
    {
      ghost var st := Perform(service, script[i]);
      ChainMore(old(service.sessionId), script, i, steps, st);
      assert (steps + [st])[|steps|] == st;
      steps := steps + [st];
    }
    assert script[..|script|] == script;
  }
}

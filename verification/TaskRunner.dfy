/** The task runner: submit, poll, fetch, and always clean up. */
module TaskRunner {
  import opened Wrappers
  import opened MaestroWorld
  import MaestroServer
  import MaestroLocal
  import Text

  // ----- what a run looks like ------------------------------------------------------------------

  datatype Op = Start | Status | Result | Logs | Stop

  datatype Answer = Done | Reported(status: TaskStatus) | Erred

  /** One call on the resource, with the number of exchanges it made, and of CANCELs among them. */
  datatype Call = Call(op: Op, answer: Answer, sent: nat, cancels: nat) {
    predicate Ends() { answer.Reported? && answer.status.Terminal() }
  }

  datatype Outcome = Succeeded | StartFailed | TaskEnded(status: TaskStatus) | ResultError | WriteError | Interrupted

  /** A run by phases; `wroteId` and `wroteResult` say whether the output could be written. */
  datatype Trace = Trace(start: Call, wroteId: bool, polls: seq<Call>, fetched: seq<Call>, wroteResult: bool,
                         logged: seq<Call>, stopped: seq<Call>)
  {
    function Calls(): seq<Call> { [start] + polls + fetched + logged + stopped }

    /** The calls after the start. */
    function Rest(): seq<Call> { polls + fetched + (logged + stopped) }

    /** The poll that ended the loop, if a terminal status did. */
    predicate SawTerminal() { polls != [] && polls[|polls| - 1].Ends() }

    predicate SawCompleted() { polls != [] && polls[|polls| - 1].answer == Reported(Completed) }

    /**
     * The flags of the trace and the output: what was written is there, and a failure to write the
     * announcement, or the result if there was one, is the only failure.
     */
    predicate Wrote(failuresBefore: nat, announced: Option<string>, result: Option<string>, failures: nat, id: string,
                    value: string)
    {
      && (wroteId ==> announced == Some(id))
      && (wroteResult ==> fetched != [] && fetched[0].answer.Done? && result == Some(value))
      && failures == failuresBefore + if start.answer.Erred? then 0
                                      else if !wroteId then 1
                                      else if fetched != [] && fetched[0].answer.Done? && !wroteResult then 1 else 0
    }

    /** The outcome, from everything up to the result; logs and clean-up have no say. */
    function Decide(): Outcome {
      if start.answer.Erred? then StartFailed
      else if !wroteId then WriteError
      else if SawCompleted() then
        if fetched == [] || fetched[0].answer.Erred? then ResultError else if wroteResult then Succeeded else WriteError
      else if SawTerminal() then TaskEnded(polls[|polls| - 1].answer.status)
      else Interrupted
    }

    ghost predicate Valid() {
      && start.op.Start? && !start.answer.Reported?
      && (forall i :: 0 <= i < |polls| ==> polls[i].op.Status? && (i < |polls| - 1 ==> !polls[i].Ends()))
      && |fetched| == (if SawCompleted() then 1 else 0)
      && (forall i :: 0 <= i < |fetched| ==> fetched[i].op.Result? && !fetched[i].answer.Reported?)
      && |logged| == (if start.answer.Erred? || Decide().Succeeded? then 0 else 1)
      && (forall i :: 0 <= i < |logged| ==> logged[i].op.Logs?)
      && |stopped| == (if start.answer.Erred? then 0 else 1)
      && (forall i :: 0 <= i < |stopped| ==> stopped[i].op.Stop?)
      && (start.answer.Erred? || !wroteId ==> polls == [])
    }

    /** What is special about a run on a Maestro client. */
    ghost predicate Maestro() {
      && start.cancels <= 1 && (start.answer.Done? ==> start.cancels == 0)
      && (forall i :: 0 <= i < |polls| ==> polls[i].cancels == 0)
      && (forall i :: 0 <= i < |fetched| ==> fetched[i].cancels == 0)
      && (forall i :: 0 <= i < |logged| ==> logged[i].cancels == 0)
      && (forall i :: 0 <= i < |stopped| ==> stopped[i].cancels <= 1)
      && (SawTerminal() && stopped != [] ==> stopped[0] == Call(Stop, Done, 0, 0))
    }
  }

  // ----- what the outcome means -----------------------------------------------------------------

  /** The last status read. */
  function LastAnswer(t: Trace): Option<Answer> {
    if t.polls == [] then None else Some(t.polls[|t.polls| - 1].answer)
  }

  /** When a run ends how. */
  ghost predicate Explained(t: Trace, outcome: Outcome) {
    && (outcome == StartFailed <==> t.start.answer.Erred?)
    && (outcome == Succeeded <==>
          && t.start.answer.Done? && t.wroteId && LastAnswer(t) == Some(Reported(Completed))
          && t.fetched != [] && t.fetched[0].answer.Done? && t.wroteResult)
    && (outcome == ResultError <==>
          && t.start.answer.Done? && t.wroteId && LastAnswer(t) == Some(Reported(Completed))
          && t.fetched != [] && t.fetched[0].answer.Erred?)
    && (outcome == WriteError <==>
          && t.start.answer.Done?
          && (!t.wroteId
              || (LastAnswer(t) == Some(Reported(Completed)) && t.fetched != [] && t.fetched[0].answer.Done?
                  && !t.wroteResult)))
    && (outcome == TaskEnded(Failed) <==>
          t.start.answer.Done? && t.wroteId && LastAnswer(t) == Some(Reported(Failed)))
    && (outcome == TaskEnded(Cancelled) <==>
          t.start.answer.Done? && t.wroteId && LastAnswer(t) == Some(Reported(Cancelled)))
    && (outcome == Interrupted <==>
          && t.start.answer.Done? && t.wroteId
          && LastAnswer(t) !in {Some(Reported(Completed)), Some(Reported(Failed)), Some(Reported(Cancelled))})
  }

  lemma OutcomeExactly(t: Trace)
    requires t.Valid()
    ensures Explained(t, t.Decide())
  {
  }

  // ----- the call order, as an automaton --------------------------------------------------------

  datatype State = Idle | Polling | AfterCompleted | AfterResult | AfterTerminal | AfterLogs | End | Refused | Wrong

  /** start status* result? logs? stop, with each call allowed only where its reason has been seen. */
  function Next(s: State, c: Call): State {
    match (s, c.op)
    case (Idle, Start) => if c.answer.Erred? then Refused else Polling
    case (Polling, Status) =>
      if c.answer == Reported(Completed) then AfterCompleted else if c.Ends() then AfterTerminal else Polling
    case (AfterCompleted, Result) => AfterResult
    case (Polling, Logs) => AfterLogs
    case (AfterTerminal, Logs) => AfterLogs
    case (AfterResult, Logs) => AfterLogs
    case (AfterLogs, Stop) => End
    case (AfterResult, Stop) => End
    case _ => Wrong
  }

  function Walk(s: State, calls: seq<Call>): State
    decreases calls
  {
    if calls == [] then s else Walk(Next(s, calls[0]), calls[1..])
  }

  lemma {:induction false} WalkAppend(s: State, a: seq<Call>, b: seq<Call>)
    ensures Walk(s, a + b) == Walk(Walk(s, a), b)
    decreases a
  {
    if a == [] {
      assert a + b == b;
    } else {
      assert (a + b)[1..] == a[1..] + b;
      WalkAppend(Next(s, a[0]), a[1..], b);
    }
  }

  lemma {:induction false} WalkPolls(polls: seq<Call>)
    requires forall i :: 0 <= i < |polls| ==> polls[i].op.Status? && (i < |polls| - 1 ==> !polls[i].Ends())
    ensures Walk(Polling, polls) ==
              if polls == [] then Polling else Next(Polling, polls[|polls| - 1])
    decreases polls
  {
    if |polls| > 1 {
      WalkPolls(polls[1..]);
    }
  }

  /** A run follows the call order: after a start, stop comes exactly once and last. */
  lemma CallOrder(t: Trace)
    requires t.Valid()
    ensures Walk(Idle, t.Calls()) == if t.start.answer.Erred? then Refused else End
  {
    WalkPolls(t.polls);
    WalkAppend(Idle, [t.start] + t.polls + t.fetched + t.logged, t.stopped);
    WalkAppend(Idle, [t.start] + t.polls + t.fetched, t.logged);
    WalkAppend(Idle, [t.start] + t.polls, t.fetched);
    WalkAppend(Idle, [t.start], t.polls);
    assert Walk(Idle, [t.start]) == Next(Idle, t.start);
    WalkShort(Walk(Idle, [t.start] + t.polls), t.fetched);
    WalkShort(Walk(Idle, [t.start] + t.polls + t.fetched), t.logged);
    WalkShort(Walk(Idle, [t.start] + t.polls + t.fetched + t.logged), t.stopped);
  }

  lemma WalkShort(s: State, calls: seq<Call>)
    requires |calls| <= 1
    ensures Walk(s, calls) == if calls == [] then s else Next(s, calls[0])
  {
  }

  /** Which call may begin, or follow another one. */
  predicate First(s: State, c: Call) {
    match s
    case Idle => c.op.Start? && !c.answer.Erred?
    case Polling => c.op.Status? || c.op.Logs?
    case AfterCompleted => c.op.Result?
    case AfterResult => c.op.Logs? || c.op.Stop?
    case AfterTerminal => c.op.Logs?
    case AfterLogs => c.op.Stop?
    case _ => false
  }

  predicate Follows(c: Call, d: Call) {
    match c.op
    case Start => d.op.Status? || d.op.Logs?
    case Status =>
      if c.answer == Reported(Completed) then d.op.Result?
      else if c.Ends() then d.op.Logs? else d.op.Status? || d.op.Logs?
    case Result => d.op.Logs? || d.op.Stop?
    case Logs => d.op.Stop?
    case Stop => false
  }

  ghost predicate Ordered(s: State, calls: seq<Call>) {
    && calls != [] && First(s, calls[0]) && calls[|calls| - 1].op.Stop?
    && forall i :: 0 <= i < |calls| - 1 ==> Follows(calls[i], calls[i + 1])
  }

  /** The automaton accepts exactly the sequences in that order. */
  lemma {:induction false} AcceptedExactly(s: State, calls: seq<Call>)
    requires s != End
    ensures Walk(s, calls) == End <==> Ordered(s, calls)
    decreases calls
  {
    if calls != [] {
      var s', rest := Next(s, calls[0]), calls[1..];
      assert forall i :: 0 <= i < |rest| ==> rest[i] == calls[i + 1];
      if s' == End {
        AfterEnd(rest);
      } else {
        AcceptedExactly(s', rest);
        if rest != [] {
          assert First(s, calls[0]) ==> (First(s', rest[0]) <==> Follows(calls[0], calls[1]));
        }
      }
    }
  }

  lemma {:induction false} AfterEnd(calls: seq<Call>)
    ensures Walk(Wrong, calls) == Wrong
    ensures Walk(End, calls) == End <==> calls == []
    decreases calls
  {
    if calls != [] {
      AfterEnd(calls[1..]);
    }
  }

  /** A run whose start succeeded: start first, stop last, and each only there; what comes before result and logs. */
  lemma RunInOrder(t: Trace, i: nat)
    requires t.Valid() && t.start.answer.Done? && i < |t.Calls()|
    ensures var calls := t.Calls();
            && (calls[i].op.Start? <==> i == 0)
            && (calls[i].op.Stop? <==> i == |calls| - 1)
            && (calls[i].op.Logs? ==> i == |calls| - 2)
            && (calls[i].op.Result? ==> calls[i - 1].op.Status? && calls[i - 1].answer == Reported(Completed))
            && (calls[i].op.Status? && calls[i].Ends() ==> !calls[i + 1].op.Status?)
  {
    var calls := t.Calls();
    CallOrder(t);
    AcceptedExactly(Idle, calls);
    if i > 0 { assert Follows(calls[i - 1], calls[i]); }
    if i + 1 < |calls| { assert Follows(calls[i], calls[i + 1]); }
    if i + 2 < |calls| { assert Follows(calls[i + 1], calls[i + 2]); }
  }

  // ----- exchanges ------------------------------------------------------------------------------

  function Total(calls: seq<Call>, of: Call -> nat): nat {
    if calls == [] then 0 else of(calls[0]) + Total(calls[1..], of)
  }

  function SentCount(): Call -> nat { (c: Call) => c.sent }

  function CancelCount(): Call -> nat { (c: Call) => c.cancels }

  lemma {:induction false} TotalAppend(a: seq<Call>, b: seq<Call>, of: Call -> nat)
    ensures Total(a + b, of) == Total(a, of) + Total(b, of)
  {
    if a == [] {
      assert a + b == b;
    } else {
      assert (a + b)[1..] == a[1..] + b;
      TotalAppend(a[1..], b, of);
    }
  }

  lemma TotalShort(calls: seq<Call>, of: Call -> nat)
    requires |calls| <= 1
    ensures Total(calls, of) == if calls == [] then 0 else of(calls[0])
  {
  }

  lemma {:induction false} NoCancels(calls: seq<Call>)
    requires forall i :: 0 <= i < |calls| ==> calls[i].cancels == 0
    ensures Total(calls, CancelCount()) == 0
  {
    if calls != [] {
      NoCancels(calls[1..]);
    }
  }

  /** On Maestro a run sends at most one CANCEL, and none once a terminal status was seen. */
  lemma AtMostOneCancel(t: Trace)
    requires t.Valid() && t.Maestro()
    ensures Total(t.Calls(), CancelCount()) <= 1
    ensures t.SawTerminal() ==> Total(t.Calls(), CancelCount()) == 0
  {
    var of := CancelCount();
    NoCancels(t.polls);
    NoCancels(t.fetched);
    NoCancels(t.logged);
    TotalAppend([t.start] + t.polls + t.fetched + t.logged, t.stopped, of);
    TotalAppend([t.start] + t.polls + t.fetched, t.logged, of);
    TotalAppend([t.start] + t.polls, t.fetched, of);
    TotalAppend([t.start], t.polls, of);
    TotalShort([t.start], of);
    TotalShort(t.stopped, of);
  }

  /** Between two states of the wire, the call made exactly the exchanges it counts. */
  predicate Made(before: seq<MaestroServer.Exchange>, c: Call, after: seq<MaestroServer.Exchange>) {
    && before <= after && |after| == |before| + c.sent
    && MaestroServer.Cancels(after) == MaestroServer.Cancels(before) + c.cancels
  }

  /** The same for a number of calls. */
  predicate Accounted(before: seq<MaestroServer.Exchange>, calls: seq<Call>, after: seq<MaestroServer.Exchange>) {
    && |after| == |before| + Total(calls, SentCount())
    && MaestroServer.Cancels(after) == MaestroServer.Cancels(before) + Total(calls, CancelCount())
  }

  lemma AccountedMore(before: seq<MaestroServer.Exchange>, calls: seq<Call>, middle: seq<MaestroServer.Exchange>,
                      c: Call, after: seq<MaestroServer.Exchange>)
    requires Accounted(before, calls, middle) && Made(middle, c, after)
    ensures Accounted(before, calls + [c], after)
  {
    TotalAppend(calls, [c], SentCount());
    TotalAppend(calls, [c], CancelCount());
    TotalShort([c], SentCount());
    TotalShort([c], CancelCount());
  }

  lemma AccountedLater(before: seq<MaestroServer.Exchange>, a: seq<Call>, middle: seq<MaestroServer.Exchange>,
                       b: seq<Call>, after: seq<MaestroServer.Exchange>)
    requires Accounted(before, a, middle) && Accounted(before, a + b, after)
    ensures Accounted(middle, b, after)
  {
    TotalAppend(a, b, SentCount());
    TotalAppend(a, b, CancelCount());
  }

  // ----- the resource ---------------------------------------------------------------------------

  /** Either any implementation of the resource interface at all, or a Maestro client. */
  datatype Backend = Any | Maestro(client: MaestroLocal.Client)

  class Resource {
    const backend: Backend
    ghost const base: seq<MaestroServer.Exchange>
    var calls: seq<Call>
    ghost var made: nat  // the serial of the task that the last start created

    ghost function Footprint(): set<object> {
      {this} + match backend case Any => {} case Maestro(c) => {c, c.server}
    }

    /** On Maestro, the calls since `base` have made exactly the exchanges they count. */
    ghost predicate Valid()
      reads this, Footprint()
    {
      backend.Maestro? ==> backend.client.Valid() && Accounted(base, calls, backend.client.server.wire)
    }

    /** The id names the task that the last start created, which is still the newest one of that id. */
    ghost predicate Tracked(id: string)
      reads this, Footprint()
    {
      backend.Maestro? ==>
        var world, key := backend.client.server.world, backend.client.TaskKey(id);
        && key.Success? && MaestroLocal.Current(world, key.value, made)
        && made in world.owner && world.owner[made] == key.value
        && (key.value in backend.client.origin ==> backend.client.origin[key.value] == made)
    }

    /** A Maestro client remembers a terminal state for the id. */
    ghost predicate Known(id: string)
      reads this, Footprint()
    {
      backend.Maestro? ==>
        Tracked(id) && backend.client.TaskKey(id).value in backend.client.terminalTasks
    }

    /** The exchanges of a Maestro client. */
    ghost function Wire(): seq<MaestroServer.Exchange>
      reads this, Footprint()
    {
      match backend
      case Any => []
      case Maestro(client) => client.server.wire
    }

    /** The exchanges that a Maestro client got no proper answer to. */
    ghost function Troubles(): nat
      reads this, Footprint()
    {
      match backend
      case Any => 0
      case Maestro(client) => client.server.troubles
    }

    /** How the server settled the task that the last start created. */
    ghost function Recorded(): Option<MaestroWorld.Outcome>
      reads this, Footprint()
    {
      match backend
      case Any => None
      case Maestro(client) =>
        if made in client.server.world.ledger then Some(client.server.world.ledger[made]) else None
    }

    constructor (backend: Backend)
      requires backend.Maestro? ==> backend.client.Valid()
      ensures Valid() && this.backend == backend && calls == []
    {
      this.backend := backend;
      base := match backend case Any => [] case Maestro(client) => client.server.wire;
      calls := [];
    }

    /** The task that the last start created has settled with this status. */
    ghost predicate EndedAs(s: TaskStatus)
      reads this, Footprint()
    {
      backend.Maestro? ==> Recorded().Some? && Recorded().value.status == s
    }

    /** An exchange or more have passed; the task is still tracked and its outcome still recorded. */
    twostate lemma StillTracked(id: string)
      requires backend.Maestro? && old(backend.client.Valid()) && backend.client.Valid()
      requires old(Tracked(id)) && made == old(made)
      requires backend.client.sessionId == old(backend.client.sessionId)
      requires Rely(old(backend.client.server.world), backend.client.server.world, backend.client.sessionId)
      requires var key := backend.client.TaskKey(id);
               key.Success? && key.value in backend.client.origin ==>
                 || (key.value in old(backend.client.origin)
                     && backend.client.origin[key.value] == old(backend.client.origin)[key.value])
                 || MaestroLocal.NewestBefore(old(backend.client.server.world), key.value,
                                              backend.client.origin[key.value])
      ensures Tracked(id)
      ensures old(Recorded()).Some? ==> Recorded() == old(Recorded())
      ensures Known(id) ==>
                && Recorded().Some?
                && Recorded().value.status == backend.client.terminalTasks[backend.client.TaskKey(id).value]
    {
      var client := backend.client;
      var k := client.TaskKey(id).value;
      MaestroLocal.StillCurrent(old(client.server.world), client.server.world, k, made);
      assert SerialKept(old(client.server.world), client.server.world, made);
      if k in client.terminalTasks {
        assert MaestroLocal.EntryOk(client.server.world, client.sessionId, k, client.terminalTasks[k],
                                    client.origin[k]);
      }
    }

    /** Records a call, with the exchanges it made. */
    method Book(c: Call, before: seq<MaestroServer.Exchange>)
      requires backend.Maestro? ==> Accounted(base, calls, before) && Made(before, c, backend.client.server.wire)
      modifies this`calls
      ensures calls == old(calls) + [c]
      ensures backend.Maestro? ==> Accounted(base, calls, backend.client.server.wire)
    {
      if backend.Maestro? { AccountedMore(base, calls, before, c, backend.client.server.wire); }
      calls := calls + [c];
    }

    method TaskStart(payload: MaestroLocal.Payload) returns (id: string, c: Call)
      requires Valid()
      modifies Footprint()
      ensures Valid() && calls == old(calls) + [c]
      ensures Made(old(Wire()), c, Wire())
      ensures c.op.Start? && !c.answer.Reported?
      ensures c.answer.Done? ==> Tracked(id)
      ensures backend.Maestro? && c.answer.Done? ==> made !in old(backend.client.server.world.owner)
      ensures backend.Maestro? ==> c.cancels <= 1 && (c.answer.Done? ==> c.cancels == 0)
      // an error was reported by the client, before sending anything or after trouble
      ensures backend.Maestro? && c.answer.Erred? ==>
                old(backend.client.LocalRefusal(payload)).Some? || Troubles() > old(Troubles())
    {
      id := *;
      var before := match backend case Any => [] case Maestro(m) => m.server.wire;
      match backend {
        case Any =>
          var ok: bool := *;
          c := Call(Start, if ok then Done else Erred, 0, 0);
        case Maestro(client) =>
          var r, created := client.TaskStart(payload);
          if r.Success? {
            Text.DecimalRoundTrip(client.server.world.owner[created.value].task, Text.U32_MAX);
            id := r.value;
            made := created.value;
          }
          c := Call(Start, if r.Success? then Done else Erred, |client.server.wire| - |before|,
                    MaestroServer.Cancels(client.server.wire) - MaestroServer.Cancels(before));
      }
      Book(c, before);
    }

    method TaskStatus(id: string) returns (c: Call)
      requires Valid() && Tracked(id)
      modifies Footprint()
      ensures Valid() && Tracked(id) && calls == old(calls) + [c]
      ensures Made(old(Wire()), c, Wire())
      ensures c.op.Status? && !c.answer.Done?
      ensures old(Known(id)) || c.Ends() ==> Known(id)
      ensures backend.Maestro? && c.answer.Erred? ==>
                || Troubles() > old(Troubles())
                || backend.client.LastExchange() == Some(MaestroServer.Exchange(MaestroServer.LOGS, false))
      ensures backend.Maestro? && Known(id) ==>
                Recorded().Some? && c.answer == Reported(Recorded().value.status)
      ensures made == old(made) && (old(Recorded()).Some? ==> Recorded() == old(Recorded()))
      ensures backend.Maestro? ==> c.cancels == 0
    {
      var before := match backend case Any => [] case Maestro(m) => m.server.wire;
      match backend {
        case Any =>
          var answer: Answer := *;
          c := Call(Status, if answer.Done? then Erred else answer, 0, 0);
        case Maestro(client) =>
          var r := client.TaskStatus(id);
          StillTracked(id);
          c := Call(Status, if r.Success? then Reported(r.value) else Erred, |client.server.wire| - |before|,
                    MaestroServer.Cancels(client.server.wire) - MaestroServer.Cancels(before));
      }
      Book(c, before);
    }

    method TaskResult(id: string) returns (value: string, c: Call)
      requires Valid() && Tracked(id)
      modifies Footprint()
      ensures backend.Maestro? && c.answer.Done? ==> Recorded().Some? && value == Recorded().value.result
      // a result that the server handed over is the answer
      ensures MaestroServer.Handed(Wire()) == MaestroServer.Handed(old(Wire())) +
                                              if backend.Maestro? && c.answer.Done? then 1 else 0
      ensures Valid() && Tracked(id) && calls == old(calls) + [c]
      ensures Made(old(Wire()), c, Wire())
      ensures c.op.Result? && !c.answer.Reported?
      ensures old(Known(id)) ==> Known(id)
      ensures made == old(made) && (old(Recorded()).Some? ==> Recorded() == old(Recorded()))
      ensures backend.Maestro? ==> c.cancels == 0
    {
      value := *;
      var before := match backend case Any => [] case Maestro(m) => m.server.wire;
      match backend {
        case Any =>
          var ok: bool := *;
          c := Call(Result, if ok then Done else Erred, 0, 0);
        case Maestro(client) =>
          var r := client.TaskResult(id);
          StillTracked(id);
          if r.Success? { value := r.value; }
          c := Call(Result, if r.Success? then Done else Erred, |client.server.wire| - |before|,
                    MaestroServer.Cancels(client.server.wire) - MaestroServer.Cancels(before));
      }
      Book(c, before);
    }

    method TaskLogs(id: string) returns (c: Call)
      requires Valid() && Tracked(id)
      modifies Footprint()
      ensures Valid() && Tracked(id) && calls == old(calls) + [c]
      ensures Made(old(Wire()), c, Wire())
      ensures c.op.Logs? && !c.answer.Reported?
      ensures old(Known(id)) ==> Known(id)
      ensures made == old(made) && (old(Recorded()).Some? ==> Recorded() == old(Recorded()))
      ensures backend.Maestro? ==> c.cancels == 0
      ensures backend.Maestro? && c.answer.Erred? ==> Troubles() > old(Troubles())
    {
      var before := match backend case Any => [] case Maestro(m) => m.server.wire;
      match backend {
        case Any =>
          var ok: bool := *;
          c := Call(Logs, if ok then Done else Erred, 0, 0);
        case Maestro(client) =>
          var r := client.TaskLogs(id);
          StillTracked(id);
          c := Call(Logs, if r.Success? then Done else Erred, |client.server.wire| - |before|,
                    MaestroServer.Cancels(client.server.wire) - MaestroServer.Cancels(before));
      }
      Book(c, before);
    }

    /** The stop of a Maestro client, before it is booked. */
    method StopClient(client: MaestroLocal.Client, id: string) returns (c: Call)
      requires backend == Maestro(client) && client.Valid() && Tracked(id)
      modifies client, client.server
      ensures client.Valid() && Tracked(id) && Made(old(Wire()), c, Wire())
      ensures c.op.Stop? && (c.answer.Done? || c.answer.Erred?) && c.cancels <= 1
      ensures c.answer.Done? <==> Known(id)
      ensures old(Known(id)) ==> c == Call(Stop, Done, 0, 0)
      ensures old(Recorded()).Some? ==> Recorded() == old(Recorded())
    {
      var before := client.server.wire;
      var r := client.TaskStop(id);
      StillTracked(id);
      c := Call(Stop, if r.Success? then Done else Erred, |client.server.wire| - |before|,
                MaestroServer.Cancels(client.server.wire) - MaestroServer.Cancels(before));
    }

    method TaskStop(id: string) returns (c: Call)
      requires Valid() && Tracked(id)
      modifies Footprint()
      ensures Valid() && calls == old(calls) + [c]
      ensures Made(old(Wire()), c, Wire())
      ensures c.op.Stop? && !c.answer.Reported?
      ensures backend.Maestro? ==> c.cancels <= 1
      ensures backend.Maestro? && old(Known(id)) ==> c == Call(Stop, Done, 0, 0)
      ensures made == old(made) && (old(Recorded()).Some? ==> Recorded() == old(Recorded()))
      ensures backend.Maestro? ==> (c.answer.Done? <==> Known(id))
    {
      var before := match backend case Any => [] case Maestro(m) => m.server.wire;
      match backend {
        case Any =>
          var ok: bool := *;
          c := Call(Stop, if ok then Done else Erred, 0, 0);
        case Maestro(client) =>
          c := StopClient(client, id);
      }
      Book(c, before);
    }
  }

  /**
   * The shared flag. A signal clears it for good, at any time but no later than after `patience`
   * loads; `cleared` says that a load has seen that.
   */
  class Flag {
    const patience: nat
    var loads: nat
    var cleared: bool

    constructor (patience: nat)
      ensures this.patience == patience && loads == 0 && !cleared
    {
      this.patience, loads, cleared := patience, 0, false;
    }

    method Load() returns (running: bool)
      modifies this
      ensures loads == old(loads) + 1 && (running ==> loads <= patience)
      ensures cleared == !running && (old(cleared) ==> cleared)
    {
      loads := loads + 1;
      running := *;
      running := running && loads <= patience;
      if cleared { running := false; }
      cleared := !running;
    }
  }

  /** Where the runner announces the task and writes its result: a file or standard output. */
  class Output {
    var announced: Option<string>
    var result: Option<string>
    var failures: nat

    constructor ()
      ensures announced == None && result == None && failures == 0
    {
      announced, result, failures := None, None, 0;
    }

    method Announce(id: string) returns (ok: bool)
      modifies this
      ensures result == old(result) && (ok ==> announced == Some(id))
      ensures failures == old(failures) + if ok then 0 else 1
    {
      ok := *;
      if ok { announced := Some(id); } else { failures := failures + 1; }
    }

    method Deliver(value: string) returns (ok: bool)
      modifies this
      ensures announced == old(announced) && (ok ==> result == Some(value))
      ensures failures == old(failures) + if ok then 0 else 1
    {
      ok := *;
      if ok { result := Some(value); } else { failures := failures + 1; }
    }
  }

  // ----- the runner -----------------------------------------------------------------------------

  /** Polls until a terminal status or the flag clears; a failed status read is retried. */
  method Poll(qrmi: Resource, id: string, running: Flag) returns (polls: seq<Call>)
    requires qrmi.Valid() && qrmi.Tracked(id) && running !in qrmi.Footprint()
    modifies qrmi.Footprint(), running
    ensures qrmi.Valid() && qrmi.Tracked(id)
    ensures qrmi.calls == old(qrmi.calls) + polls
    ensures forall i :: 0 <= i < |polls| ==> polls[i].op.Status? && (i < |polls| - 1 ==> !polls[i].Ends())
    ensures qrmi.made == old(qrmi.made)
    // a terminal status is the outcome the server has recorded for the task
    ensures polls != [] && polls[|polls| - 1].Ends() ==>
              qrmi.Known(id) && qrmi.EndedAs(polls[|polls| - 1].answer.status)
    ensures qrmi.backend.Maestro? ==> forall i :: 0 <= i < |polls| ==> polls[i].cancels == 0
    // a loop that no terminal status ended has seen the flag cleared, within its bound
    ensures polls == [] || |polls| + old(running.loads) <= running.patience
    ensures polls == [] || !polls[|polls| - 1].Ends() ==>
              running.cleared && running.loads == old(running.loads) + |polls| + 1
  {
    polls := [];
    var on := running.Load();
    while on
      invariant qrmi.Valid() && qrmi.Tracked(id) && qrmi.made == old(qrmi.made)
      invariant qrmi.calls == old(qrmi.calls) + polls
      invariant forall i :: 0 <= i < |polls| ==> polls[i].op.Status? && !polls[i].Ends()
      invariant qrmi.backend.Maestro? ==> forall i :: 0 <= i < |polls| ==> polls[i].cancels == 0
      invariant running.loads == old(running.loads) + |polls| + 1
      invariant !on ==> running.cleared
      invariant on ==> running.loads <= running.patience
      invariant polls == [] || |polls| + old(running.loads) <= running.patience
      decreases running.patience - running.loads, on
    {
      var c := qrmi.TaskStatus(id);
      polls := polls + [c];
      if c.Ends() {
        return;
      }
      on := running.Load();
    }
  }

  /** What follows a Completed status: fetch the result and write it. */
  method Fetch(qrmi: Resource, id: string, output: Output)
    returns (fetched: seq<Call>, value: string, wroteResult: bool)
    requires qrmi.Valid() && qrmi.Tracked(id) && qrmi.Known(id) && output !in qrmi.Footprint()
    modifies qrmi.Footprint(), output
    // the result is written if there is one, and only then
    ensures fetched != [] && output.announced == old(output.announced)
    ensures wroteResult ==> fetched[0].answer.Done? && output.result == Some(value)
    ensures output.failures == old(output.failures) + if fetched[0].answer.Done? && !wroteResult then 1 else 0
    ensures qrmi.Valid() && qrmi.Tracked(id) && qrmi.Known(id) && qrmi.made == old(qrmi.made)
    ensures old(qrmi.Recorded()).Some? ==> qrmi.Recorded() == old(qrmi.Recorded())
    ensures qrmi.calls == old(qrmi.calls) + fetched
    ensures |fetched| == 1 && fetched[0].op.Result? && !fetched[0].answer.Reported?
    ensures qrmi.backend.Maestro? ==> fetched[0].cancels == 0
    // the text to write is the result the server has recorded for the task
    ensures qrmi.backend.Maestro? && fetched[0].answer.Done? ==>
              qrmi.Recorded().Some? && value == qrmi.Recorded().value.result
  {
    var c;
    value, c := qrmi.TaskResult(id);
    fetched, wroteResult := [c], false;
    if c.answer.Done? {
      wroteResult := output.Deliver(value);
    }
  }

  /** On an error, asks for the logs; always stops the task. Neither affects the outcome. */
  method CleanUp(qrmi: Resource, id: string, failed: bool) returns (logged: seq<Call>, stopped: Call)
    requires qrmi.Valid() && qrmi.Tracked(id)
    modifies qrmi.Footprint()
    ensures qrmi.Valid()
    ensures qrmi.calls == old(qrmi.calls) + logged + [stopped]
    ensures |logged| == if failed then 1 else 0
    ensures forall i :: 0 <= i < |logged| ==> logged[i].op.Logs?
    ensures stopped.op.Stop?
    ensures qrmi.backend.Maestro? ==> stopped.cancels <= 1 && forall i :: 0 <= i < |logged| ==> logged[i].cancels == 0
    ensures qrmi.backend.Maestro? && old(qrmi.Known(id)) ==> stopped == Call(Stop, Done, 0, 0)
    ensures qrmi.made == old(qrmi.made) && (old(qrmi.Recorded()).Some? ==> qrmi.Recorded() == old(qrmi.Recorded()))
  {
    logged := [];
    if failed {
      var c := qrmi.TaskLogs(id);
      logged := [c];
    }
    stopped := qrmi.TaskStop(id);
  }

  method RunTask(qrmi: Resource, payload: MaestroLocal.Payload, running: Flag, output: Output)
    returns (outcome: Outcome, t: Trace, id: string, value: string)
    requires qrmi.Valid() && running !in qrmi.Footprint() && output !in qrmi.Footprint()
    modifies qrmi.Footprint(), running, output
    // the announcement and the result are on the output exactly as far as writing succeeded
    ensures t.Wrote(old(output.failures), output.announced, output.result, output.failures, id, value)
    ensures qrmi.Valid() && qrmi.calls == old(qrmi.calls) + t.Calls()
    ensures t.Valid() && Explained(t, outcome)
    ensures qrmi.backend.Maestro? ==> t.Maestro()
    ensures t.polls == [] || |t.polls| + old(running.loads) <= running.patience
    // the calls made these exchanges and no others, so CANCEL was sent at most once, and only if
    // no terminal status was seen
    ensures qrmi.backend.Maestro? ==> Accounted(old(qrmi.Wire()), t.Calls(), qrmi.Wire())
    ensures qrmi.backend.Maestro? ==>
              MaestroServer.Cancels(qrmi.Wire()) <=
              MaestroServer.Cancels(old(qrmi.Wire())) + if t.SawTerminal() then 0 else 1
    // a run that announced its task and saw no terminal status was interrupted
    ensures t.wroteId && !t.SawTerminal() ==> running.cleared
    // on Maestro, a terminal outcome is the one the server settled for the task this run created,
    // and a run that succeeds has written the result of that task
    ensures qrmi.backend.Maestro? && t.start.answer.Done? ==>
              qrmi.made !in old(qrmi.backend.client.server.world.owner)
    ensures t.SawTerminal() ==> qrmi.EndedAs(t.polls[|t.polls| - 1].answer.status)
    ensures qrmi.backend.Maestro? && outcome.Succeeded? ==>
              qrmi.Recorded() == Some(MaestroWorld.Outcome(Completed, value))
  {
    outcome, t, id, value := StartAndSupervise(qrmi, payload, running, output);
    OutcomeExactly(t);
    if qrmi.backend.Maestro? {
      AccountedLater(qrmi.base, old(qrmi.calls), old(qrmi.Wire()), t.Calls(), qrmi.Wire());
      AtMostOneCancel(t);
    }
  }

  lemma NothingStarted(t: Trace)
    requires t == Trace(t.start, false, [], [], false, [], []) && t.start.op.Start? && t.start.answer.Erred?
    ensures t.Valid() && t.Decide() == StartFailed && t.Calls() == [t.start] && !t.SawTerminal()
    ensures t.start.cancels <= 1 ==> t.Maestro()
  {
  }

  lemma RestOfCalls(t: Trace, before: seq<Call>)
    ensures before + [t.start] + t.Rest() == before + t.Calls()
  {
    assert t.Calls() == [t.start] + t.Rest();
  }

  /** The run itself; `RunTask` adds up its exchanges. */
  method StartAndSupervise(qrmi: Resource, payload: MaestroLocal.Payload, running: Flag, output: Output)
    returns (outcome: Outcome, t: Trace, id: string, value: string)
    requires qrmi.Valid() && running !in qrmi.Footprint() && output !in qrmi.Footprint()
    modifies qrmi.Footprint(), running, output
    // the announcement and the result are on the output exactly as far as writing succeeded
    ensures t.Wrote(old(output.failures), output.announced, output.result, output.failures, id, value)
    ensures qrmi.Valid() && qrmi.calls == old(qrmi.calls) + t.Calls()
    ensures t.Valid() && outcome == t.Decide()
    ensures qrmi.backend.Maestro? ==> t.Maestro()
    ensures t.polls == [] || |t.polls| + old(running.loads) <= running.patience
    ensures t.wroteId && !t.SawTerminal() ==> running.cleared
    ensures qrmi.backend.Maestro? && t.start.answer.Done? ==>
              qrmi.made !in old(qrmi.backend.client.server.world.owner)
    ensures t.SawTerminal() ==> qrmi.EndedAs(t.polls[|t.polls| - 1].answer.status)
    ensures qrmi.backend.Maestro? && outcome.Succeeded? ==>
              qrmi.Recorded() == Some(MaestroWorld.Outcome(Completed, value))
  {
    var start;
    id, start := qrmi.TaskStart(payload);
    if start.answer.Erred? {
      t := Trace(start, false, [], [], false, [], []);
      NothingStarted(t);
      return StartFailed, t, id, "";
    }
    outcome, t, value := Supervise(qrmi, id, start, running, output);
    RestOfCalls(t, old(qrmi.calls));
  }

  /** Everything after a successful submission, clean-up included. */
  method Supervise(qrmi: Resource, id: string, start: Call, running: Flag, output: Output)
    returns (outcome: Outcome, t: Trace, value: string)
    requires qrmi.Valid() && qrmi.Tracked(id) && running !in qrmi.Footprint() && output !in qrmi.Footprint()
    requires start.op.Start? && start.answer.Done?
    modifies qrmi.Footprint(), running, output
    // the announcement and the result are on the output exactly as far as writing succeeded
    ensures t.Wrote(old(output.failures), output.announced, output.result, output.failures, id, value)
    ensures qrmi.Valid() && qrmi.calls == old(qrmi.calls) + t.Rest()
    ensures t.wroteId && !t.SawTerminal() ==> running.cleared
    ensures t.start == start && t.Valid() && outcome == t.Decide()
    ensures qrmi.backend.Maestro? && start.cancels == 0 ==> t.Maestro()
    ensures t.polls == [] || |t.polls| + old(running.loads) <= running.patience
    ensures qrmi.made == old(qrmi.made)
    ensures t.SawTerminal() ==> qrmi.EndedAs(t.polls[|t.polls| - 1].answer.status)
    ensures qrmi.backend.Maestro? && outcome.Succeeded? ==>
              qrmi.Recorded() == Some(MaestroWorld.Outcome(Completed, value))
  {
    var decided;
    decided, value := Watch(qrmi, id, start, running, output);
    outcome := decided.Decide();
    var logged, stopped := CleanUp(qrmi, id, !outcome.Succeeded?);
    t := decided.(logged := logged, stopped := [stopped]);
    WithCleanUp(decided, logged, stopped);
  }

  /** A trace up to the result becomes valid with the clean-up, which changes neither outcome nor flags. */
  lemma WithCleanUp(d: Trace, logged: seq<Call>, stopped: Call)
    requires d.start.op.Start? && d.start.answer.Done? && (!d.wroteId ==> d.polls == [])
    requires forall i :: 0 <= i < |d.polls| ==> d.polls[i].op.Status? && (i < |d.polls| - 1 ==> !d.polls[i].Ends())
    requires |d.fetched| == if d.SawCompleted() then 1 else 0
    requires forall i :: 0 <= i < |d.fetched| ==> d.fetched[i].op.Result? && !d.fetched[i].answer.Reported?
    requires |logged| == if d.Decide().Succeeded? then 0 else 1
    requires (forall i :: 0 <= i < |logged| ==> logged[i].op.Logs?) && stopped.op.Stop?
    ensures
      var t := d.(logged := logged, stopped := [stopped]);
      && t.Valid() && t.Decide() == d.Decide() && t.SawTerminal() == d.SawTerminal()
      && t.Rest() == d.polls + d.fetched + logged + [stopped]
  {
    assert d.polls + d.fetched + (logged + [stopped]) == d.polls + d.fetched + logged + [stopped];
  }

  /** The block whose exits all lead to the clean-up. */
  method Watch(qrmi: Resource, id: string, start: Call, running: Flag, output: Output) returns (t: Trace, value: string)
    requires qrmi.Valid() && qrmi.Tracked(id) && running !in qrmi.Footprint() && output !in qrmi.Footprint()
    requires start.op.Start? && start.answer.Done?
    modifies qrmi.Footprint(), running, output
    // the announcement and the result are on the output exactly as far as writing succeeded
    ensures t.Wrote(old(output.failures), output.announced, output.result, output.failures, id, value)
    ensures qrmi.Valid() && qrmi.Tracked(id) && qrmi.calls == old(qrmi.calls) + t.polls + t.fetched
    ensures t.start == start && t.logged == [] && t.stopped == []
    ensures t.wroteId && !t.SawTerminal() ==> running.cleared
    ensures t.polls == [] || (t.wroteId && |t.polls| + old(running.loads) <= running.patience)
    ensures forall i :: 0 <= i < |t.polls| ==> t.polls[i].op.Status? && (i < |t.polls| - 1 ==> !t.polls[i].Ends())
    ensures |t.fetched| == (if t.SawCompleted() then 1 else 0)
    ensures forall i :: 0 <= i < |t.fetched| ==> t.fetched[i].op.Result? && !t.fetched[i].answer.Reported?
    ensures qrmi.backend.Maestro? ==> forall i :: 0 <= i < |t.polls| ==> t.polls[i].cancels == 0
    ensures qrmi.backend.Maestro? ==> forall i :: 0 <= i < |t.fetched| ==> t.fetched[i].cancels == 0
    ensures qrmi.made == old(qrmi.made)
    ensures t.SawTerminal() ==> qrmi.Known(id) && qrmi.EndedAs(t.polls[|t.polls| - 1].answer.status)
    ensures qrmi.backend.Maestro? && t.fetched != [] && t.fetched[0].answer.Done? ==>
              qrmi.Recorded().Some? && value == qrmi.Recorded().value.result
  {
    var wroteId := output.Announce(id);
    var polls, fetched, wroteResult := [], [], false;
    value := "";
    if wroteId {
      polls := Poll(qrmi, id, running);
    }
    if polls != [] && polls[|polls| - 1].answer == Reported(Completed) {
      fetched, value, wroteResult := Fetch(qrmi, id, output);
    }
    t := Trace(start, wroteId, polls, fetched, wroteResult, [], []);
  }
}

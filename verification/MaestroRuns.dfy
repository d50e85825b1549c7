/** Whole runs of a Maestro client: any operations, in any order, with others stepping in between. */
module MaestroRuns {
  import opened Wrappers
  import opened MaestroWorld
  import opened MaestroServer
  import opened MaestroLocal
  import Text

  datatype Operation =
    | StatusOf(taskId: string)
    | StopOf(taskId: string)
    | ResultOf(taskId: string)
    | LogsOf(taskId: string)
    | StartOf(payload: Payload)
    | AcquireOne
    | ReleaseOf(token: string)

  /** What an operation returned. */
  datatype Answer =
    | StatusIs(status: Result<TaskStatus, ErrorKind>)
    | StopIs(stopped: Result<(), ErrorKind>)
    | ResultIs(result: Result<string, ErrorKind>)
    | LogsAre(logs: Result<Option<seq<string>>, ErrorKind>)
    | StartIs(started: Result<string, ErrorKind>)
    | AcquireIs(acquired: Result<string, ErrorKind>)
    | ReleaseIs(released: Result<(), ErrorKind>)

  /**
   * What a caller learned from one operation: a terminal status, a result, an id handed out for a
   * new task, or the end of a session. `n` is the serial of the task that the answer is about.
   */
  datatype Event =
    | Answered(k: Key, s: TaskStatus, n: nat)
    | Delivered(k: Key, value: string, n: nat)
    | Restarted(k: Key, n: nat)
    | SessionOver(session: u32)
    | Nothing

  /** What the client and its wire were around an operation. */
  datatype Snapshot = Snapshot(session: Option<u32>, cache: Cache, wire: seq<Exchange>)

  datatype Step = Step(before: Snapshot, op: Operation, answer: Answer, seen: Event, after: Snapshot)

  /** The answer to an operation that needs no exchange. */
  function LocalAnswer(client: Client, b: Snapshot, op: Operation): Option<Answer> {
    match op
    case StatusOf(id) =>
      (match KeyOf(b.session, id)
       case Failure(e) => Some(StatusIs(Failure(e)))
       case Success(k) => if k in b.cache then Some(StatusIs(Success(b.cache[k]))) else None)
    case StopOf(id) =>
      (match KeyOf(b.session, id)
       case Failure(e) => Some(StopIs(Failure(e)))
       case Success(k) => if k in b.cache then Some(StopIs(Success(()))) else None)
    case ResultOf(id) =>
      (match KeyOf(b.session, id)
       case Failure(e) => Some(ResultIs(Failure(e)))
       case Success(k) =>
         if k in b.cache && !b.cache[k].Completed? then Some(ResultIs(Failure(TaskNotReady))) else None)
    case LogsOf(id) =>
      (match KeyOf(b.session, id) case Failure(e) => Some(LogsAre(Failure(e))) case Success(_) => None)
    case StartOf(payload) =>
      (match client.Refuses(b.session, payload) case Some(e) => Some(StartIs(Failure(e))) case None => None)
    case AcquireOne => None
    case ReleaseOf(token) => if Text.ParseU32(token).None? then Some(ReleaseIs(Failure(InvalidInput))) else None
  }

  /** The event is the one the answer gives, and `Nothing` if it gives none. */
  predicate Fits(b: Snapshot, op: Operation, answer: Answer, e: Event, a: Snapshot) {
    match op
    case StatusOf(id) =>
      && answer.StatusIs?
      && if answer.status.Success? && answer.status.value.Terminal()
         then e.Answered? && KeyOf(b.session, id) == Success(e.k) && e.s == answer.status.value
         else e == Nothing
    case StopOf(id) =>
      && answer.StopIs? && e == Nothing
      && (answer.stopped.Success? ==> KeyOf(b.session, id).Success? && KeyOf(b.session, id).value in a.cache)
    case ResultOf(id) =>
      && answer.ResultIs?
      && if answer.result.Success?
         then e.Delivered? && KeyOf(b.session, id) == Success(e.k) && e.value == answer.result.value
         else e == Nothing
    case LogsOf(_) => answer.LogsAre? && e == Nothing
    case StartOf(_) =>
      && answer.StartIs?
      && if answer.started.Success?
         then e.Restarted? && b.session == Some(e.k.session) && answer.started.value == Text.Decimal(e.k.task)
         else e == Nothing
    case AcquireOne =>
      && answer.AcquireIs?
      && if b.session.Some? && |a.wire| == |b.wire| + 2 then e == SessionOver(b.session.value) else e == Nothing
    case ReleaseOf(token) =>
      && answer.ReleaseIs?
      && if answer.released.Success? then e.SessionOver? && Text.ParseU32(token) == Some(e.session) else e == Nothing
  }

  /**
   * The operation was answered without an exchange exactly if that is possible, and otherwise by
   * exchanges; and it delivered a result exactly if the server handed one over.
   */
  predicate StepOk(client: Client, st: Step) {
    && Fits(st.before, st.op, st.answer, st.seen, st.after)
    && Handed(st.after.wire) == Handed(st.before.wire) + (if st.seen.Delivered? then 1 else 0)
    && match LocalAnswer(client, st.before, st.op)
       case Some(answer) => st.answer == answer && st.after == st.before
       case None => st.before.wire <= st.after.wire && |st.before.wire| < |st.after.wire|
  }

  lemma StopOk(client: Client, b: Snapshot, id: string, r: Result<(), ErrorKind>, a: Snapshot)
    requires var key := KeyOf(b.session, id);
             if key.Failure? then r == Failure(key.error) && a == b
             else if key.value in b.cache then r == Success(()) && a == b
             else
               && b.wire <= a.wire && |b.wire| < |a.wire| && Handed(a.wire) == Handed(b.wire)
               && (r.Success? ==> key.value in a.cache)
    ensures StepOk(client, Step(b, StopOf(id), StopIs(r), Nothing, a))
  {
  }

  lemma StatusOk(client: Client, b: Snapshot, id: string, r: Result<TaskStatus, ErrorKind>, e: Event, a: Snapshot)
    requires var key := KeyOf(b.session, id);
             && (if key.Failure? then r == Failure(key.error) && a == b
                 else if key.value in b.cache then r == Success(b.cache[key.value]) && a == b
                 else b.wire <= a.wire && |b.wire| < |a.wire| && Handed(a.wire) == Handed(b.wire))
             && if r.Success? && r.value.Terminal() then e.Answered? && key == Success(e.k) && e.s == r.value
                else e == Nothing
    ensures StepOk(client, Step(b, StatusOf(id), StatusIs(r), e, a))
  {
  }

  lemma ResultOk(client: Client, b: Snapshot, id: string, r: Result<string, ErrorKind>, e: Event, a: Snapshot)
    requires var key := KeyOf(b.session, id);
             && (if key.Failure? then r == Failure(key.error) && a == b
                 else if key.value in b.cache && !b.cache[key.value].Completed?
                 then r == Failure(TaskNotReady) && a == b
                 else b.wire <= a.wire && |b.wire| < |a.wire|)
             && Handed(a.wire) == Handed(b.wire) + (if r.Success? then 1 else 0)
             && if r.Success? then e.Delivered? && key == Success(e.k) && e.value == r.value else e == Nothing
    ensures StepOk(client, Step(b, ResultOf(id), ResultIs(r), e, a))
  {
  }

  // ----- what a log promises ----------------------------------------------------------------------

  /** The event after which an earlier answer about `k` says nothing any more. */
  predicate Ends(e: Event, k: Key) {
    (e.Restarted? && e.k == k) || (e.SessionOver? && e.session == k.session)
  }

  /** The terminal answer about `k` that is still in force. */
  function InForce(log: seq<Event>, k: Key): Option<Event> {
    if log == [] then None
    else
      var last := log[|log| - 1];
      if last.Answered? && last.k == k then Some(last)
      else if Ends(last, k) then None
      else InForce(log[..|log| - 1], k)
  }

  /** A terminal answer repeats the one in force: the same status, of the same task. */
  predicate Stable(log: seq<Event>) {
    log != [] ==>
      var before, e := log[..|log| - 1], log[|log| - 1];
      Stable(before) && (e.Answered? ==> InForce(before, e.k).None? || InForce(before, e.k) == Some(e))
  }

  lemma {:induction false} StableAt(log: seq<Event>, i: nat)
    requires Stable(log) && i < |log| && log[i].Answered?
    ensures InForce(log[..i], log[i].k).None? || InForce(log[..i], log[i].k) == Some(log[i])
  {
    var before := log[..|log| - 1];
    if i < |before| {
      StableAt(before, i);
      assert before[..i] == log[..i];
    }
  }

  /** The server agrees with what was answered. */
  ghost predicate True(w: World, e: Event) {
    match e
    case Answered(k, s, n) => n in w.owner && w.owner[n] == k && w.Settled(n, s)
    case Delivered(_, value, n) => n in w.delivered && n in w.ledger && w.ledger[n].result == value
    case Restarted(k, n) => n in w.owner && w.owner[n] == k
    case _ => true
  }

  ghost predicate Truthful(w: World, log: seq<Event>) {
    forall i :: 0 <= i < |log| ==> True(w, log[i])
  }

  /** No result is handed out twice. */
  ghost predicate DeliveredOnce(log: seq<Event>) {
    forall i, j :: 0 <= i < j < |log| && log[i].Delivered? && log[j].Delivered? ==> log[i].n != log[j].n
  }

  /** Two terminal answers about an id are equal, unless a restart of it or the end of its session lies between. */
  lemma {:induction false} StableMeansUnchanged(log: seq<Event>, i: nat, j: nat)
    requires Stable(log) && i < j < |log|
    requires log[i].Answered? && log[j].Answered? && log[i].k == log[j].k
    requires forall m :: i < m < j ==> !Ends(log[m], log[i].k)
    ensures log[i] == log[j]
  {
    StillInForce(log, i, j);
    StableAt(log, j);
  }

  lemma {:induction false} StillInForce(log: seq<Event>, i: nat, j: nat)
    requires Stable(log) && i < j <= |log| && log[i].Answered?
    requires forall m :: i < m < j ==> !Ends(log[m], log[i].k)
    ensures InForce(log[..j], log[i].k) == Some(log[i])
  {
    assert log[..j][..j - 1] == log[..j - 1];
    if i + 1 < j {
      StillInForce(log, i, j - 1);
      if log[j - 1].Answered? { StableAt(log, j - 1); }
    }
  }

  lemma TruthKept(w: World, w': World, log: seq<Event>)
    requires History(w, w') && Truthful(w, log)
    ensures Truthful(w', log)
  {
    forall i | 0 <= i < |log| ensures True(w', log[i]) {
      assert True(w, log[i]);
      if log[i].Answered? || log[i].Delivered? || log[i].Restarted? {
        assert SerialKept(w, w', log[i].n);
      }
    }
  }

  /** The answers in force are those in the client's cache. */
  ghost predicate Remembered(log: seq<Event>, cache: Cache, origin: Origin)
    requires cache.Keys == origin.Keys
  {
    forall k :: InForce(log, k).Some? ==>
      k in cache && InForce(log, k) == Some(Answered(k, cache[k], origin[k]))
  }

  /** One more event, of an operation that drops no entry but those the event ends. */
  lemma Extend(log: seq<Event>, e: Event, cache: Cache, origin: Origin, cache': Cache, origin': Origin)
    requires cache.Keys == origin.Keys && cache'.Keys == origin'.Keys
    requires Stable(log) && Remembered(log, cache, origin)
    requires forall k :: k in cache && !Ends(e, k) ==> k in cache' && cache'[k] == cache[k] && origin'[k] == origin[k]
    requires e.Answered? ==> e.k in cache' && cache'[e.k] == e.s && origin'[e.k] == e.n
    ensures Stable(log + [e]) && Remembered(log + [e], cache', origin')
  {
    var log' := log + [e];
    assert log'[..|log|] == log;
  }

  // ----- the caller -------------------------------------------------------------------------------

  /** A caller that keeps every operation with its answer, and a log of what they told it. */
  class Observer {
    const client: Client
    ghost var steps: seq<Step>
    ghost var log: seq<Event>

    ghost predicate Valid()
      reads this, client, client.server
    {
      && client.Valid()
      && |steps| == |log| && (forall i :: 0 <= i < |log| ==> steps[i].seen == log[i])
      && (forall i :: 0 <= i < |steps| ==> StepOk(client, steps[i]))
      && Stable(log) && DeliveredOnce(log) && Truthful(client.server.world, log)
      && Remembered(log, client.terminalTasks, client.origin)
    }

    ghost function Now(): Snapshot
      reads this, client, client.server
    {
      Snapshot(client.sessionId, client.terminalTasks, client.server.wire)
    }

    constructor (client: Client)
      requires client.Valid()
      ensures Valid() && this.client == client && steps == [] && log == []
    {
      this.client := client;
      steps, log := [], [];
    }

    /** What an operation adds. */
    twostate predicate Notes(op: Operation, new answer: Answer, new e: Event)
      reads this, client, client.server
    {
      && log == old(log) + [e]
      && steps == old(steps) + [Step(old(Now()), op, answer, e, Now())]
    }

    /** The log grew by one event that is true and fits, and the cache still covers what is in force. */
    twostate lemma Noted(new op: Operation, new answer: Answer, new e: Event)
      requires old(Valid()) && client.Valid() && History(old(client.server.world), client.server.world)
      requires Notes(op, answer, e) && StepOk(client, Step(old(Now()), op, answer, e, Now()))
      requires True(client.server.world, e)
      requires e.Delivered? ==> e.n !in old(client.server.world.delivered)
      requires forall k :: k in old(client.terminalTasks) && !Ends(e, k) ==>
                 && k in client.terminalTasks && client.terminalTasks[k] == old(client.terminalTasks)[k]
                 && client.origin[k] == old(client.origin)[k]
      requires e.Answered? ==>
                 e.k in client.terminalTasks && client.terminalTasks[e.k] == e.s && client.origin[e.k] == e.n
      ensures Valid()
    {
      TruthKept(old(client.server.world), client.server.world, old(log));
      Extend(old(log), e, old(client.terminalTasks), old(client.origin), client.terminalTasks, client.origin);
      forall i | 0 <= i < |old(log)| && log[i].Delivered? && e.Delivered? ensures log[i].n != e.n {
        assert True(old(client.server.world), old(log)[i]);
      }
    }

    /** Logged exactly if the answer is terminal, as an answer about the task it was observed on. */
    method Status(taskId: string) returns (r: Result<TaskStatus, ErrorKind>, ghost e: Event)
      requires Valid()
      modifies this, client, client.server
      ensures Valid() && Notes(StatusOf(taskId), StatusIs(r), e)
      ensures if r.Success? && r.value.Terminal()
              then var key := client.TaskKey(taskId);
                   && key.Success? && key.value in client.origin
                   && e == Answered(key.value, r.value, client.origin[key.value])
              else e == Nothing
    {
      ghost var before := Now();
      r := client.TaskStatus(taskId);
      e := Nothing;
      if r.Success? && r.value.Terminal() {
        ghost var k := client.TaskKey(taskId).value;
        e := Answered(k, r.value, client.origin[k]);
        assert EntryOk(client.server.world, client.sessionId, k, client.terminalTasks[k], client.origin[k]);
      }
      StatusOk(client, before, taskId, r, e, Now());
      log, steps := log + [e], steps + [Step(before, StatusOf(taskId), StatusIs(r), e, Now())];
      Noted(StatusOf(taskId), StatusIs(r), e);
    }

    /** The call behind `Stop`: no entry is lost. */
    method CallStop(taskId: string) returns (r: Wrappers.Result<(), ErrorKind>)
      requires client.Valid()
      modifies client, client.server
      ensures client.Valid() && History(old(client.server.world), client.server.world)
      ensures StepOk(client, Step(old(Now()), StopOf(taskId), StopIs(r), Nothing, Now()))
      ensures KeepsEntries()
    {
      ghost var before := Now();
      r := client.TaskStop(taskId);
      StopOk(client, before, taskId, r, Now());
    }

    twostate predicate KeepsEntries()
      reads this, client, client.server
    {
      && client.Valid() && old(client.Valid())
      && forall k :: k in old(client.terminalTasks) ==>
           && k in client.terminalTasks && client.terminalTasks[k] == old(client.terminalTasks)[k]
           && client.origin[k] == old(client.origin)[k]
    }

    method Stop(taskId: string) returns (r: Wrappers.Result<(), ErrorKind>)
      requires Valid()
      modifies this, client, client.server
      ensures Valid() && Notes(StopOf(taskId), StopIs(r), Nothing)
    {
      ghost var before := Now();
      r := CallStop(taskId);
      log, steps := log + [Nothing], steps + [Step(before, StopOf(taskId), StopIs(r), Nothing, Now())];
      Noted(StopOf(taskId), StopIs(r), Nothing);
    }

    /** The call behind `Result`, with the event it gives. */
    method CallResult(taskId: string) returns (r: Wrappers.Result<string, ErrorKind>, ghost e: Event)
      requires client.Valid()
      modifies client, client.server
      ensures client.Valid() && History(old(client.server.world), client.server.world)
      ensures StepOk(client, Step(old(Now()), ResultOf(taskId), ResultIs(r), e, Now()))
      ensures if r.Success?
              then var key := client.TaskKey(taskId);
                   && key.Success? && key.value in client.server.world.latest
                   && e == Delivered(key.value, r.value, client.server.world.latest[key.value])
                   && True(client.server.world, e) && e.n !in old(client.server.world.delivered)
              else e == Nothing
      ensures KeepsEntries()
    {
      ghost var before := Now();
      r := client.TaskResult(taskId);
      e := Nothing;
      if r.Success? {
        ghost var k := client.TaskKey(taskId).value;
        e := Delivered(k, r.value, client.server.world.latest[k]);
      }
      ResultOk(client, before, taskId, r, e, Now());
    }

    /** Logged exactly if a result was handed out, with the task that the server gave it for. */
    method Result(taskId: string) returns (r: Wrappers.Result<string, ErrorKind>, ghost e: Event)
      requires Valid()
      modifies this, client, client.server
      ensures Valid() && Notes(ResultOf(taskId), ResultIs(r), e)
      ensures if r.Success?
              then var key := client.TaskKey(taskId);
                   && key.Success? && key.value in client.server.world.latest
                   && e == Delivered(key.value, r.value, client.server.world.latest[key.value])
              else e == Nothing
    {
      ghost var before := Now();
      r, e := CallResult(taskId);
      log, steps := log + [e], steps + [Step(before, ResultOf(taskId), ResultIs(r), e, Now())];
      Noted(ResultOf(taskId), ResultIs(r), e);
    }

    method Logs(taskId: string) returns (r: Wrappers.Result<Option<seq<string>>, ErrorKind>)
      requires Valid()
      modifies this, client, client.server
      ensures Valid() && Notes(LogsOf(taskId), LogsAre(r), Nothing)
    {
      ghost var before := Now();
      r := client.TaskLogs(taskId);
      log, steps := log + [Nothing], steps + [Step(before, LogsOf(taskId), LogsAre(r), Nothing, Now())];
      Noted(LogsOf(taskId), LogsAre(r), Nothing);
    }

    /** Logged exactly if an id was returned, which then names the task this call created. */
    method Start(payload: Payload) returns (r: Wrappers.Result<string, ErrorKind>, ghost e: Event)
      requires Valid()
      modifies this, client, client.server
      ensures Valid() && Notes(StartOf(payload), StartIs(r), e)
      ensures if r.Success?
              then && e.Restarted? && e.n in client.server.world.owner && client.server.world.owner[e.n] == e.k
                   && e.n !in old(client.server.world.owner)
                   && client.sessionId == Some(e.k.session) && r.value == Text.Decimal(e.k.task)
              else e == Nothing
    {
      ghost var before := Now();
      ghost var made;
      r, made := client.TaskStart(payload);
      e := if r.Success? then Restarted(client.server.world.owner[made.value], made.value) else Nothing;
      log, steps := log + [e], steps + [Step(before, StartOf(payload), StartIs(r), e, Now())];
      Noted(StartOf(payload), StartIs(r), e);
    }

    /** Logged exactly if the retained session was found missing, by an answered SESSION_EXISTS. */
    method Acquire() returns (r: Wrappers.Result<string, ErrorKind>, ghost e: Event)
      requires Valid()
      modifies this, client, client.server
      ensures Valid() && Notes(AcquireOne, AcquireIs(r), e)
      ensures old(client.server.wire) <= client.server.wire
      ensures var tail := client.server.wire[|old(client.server.wire)|..];
              if |tail| == 2
              then && old(client.sessionId).Some? && e == SessionOver(old(client.sessionId).value)
                   && tail == [Exchange(SESSION_EXISTS, false), Exchange(SESSION_NEW, r.Success?)]
                   && client.server.troubles == old(client.server.troubles) + (if r.Success? then 0 else 1)
              else e == Nothing
    {
      ghost var before := Now();
      r := client.Acquire();
      e := Nothing;
      if before.session.Some? && |client.server.wire| == |before.wire| + 2 {
        e := SessionOver(before.session.value);
      }
      log, steps := log + [e], steps + [Step(before, AcquireOne, AcquireIs(r), e, Now())];
      forall k | k in old(client.terminalTasks) ensures old(client.sessionId) == Some(k.session) {
        assert EntryOk(old(client.server.world), old(client.sessionId), k, old(client.terminalTasks)[k],
                       old(client.origin)[k]);
      }
      Noted(AcquireOne, AcquireIs(r), e);
    }

    /** Logged exactly if the session that the token names was deleted. */
    method Release(token: string) returns (r: Wrappers.Result<(), ErrorKind>, ghost e: Event)
      requires Valid()
      modifies this, client, client.server
      ensures Valid() && Notes(ReleaseOf(token), ReleaseIs(r), e)
      ensures if r.Success?
              then Text.ParseU32(token).Some? && e == SessionOver(Text.ParseU32(token).value)
              else e == Nothing
    {
      ghost var before := Now();
      r := client.Release(token);
      e := if r.Success? then SessionOver(Text.ParseU32(token).value) else Nothing;
      log, steps := log + [e], steps + [Step(before, ReleaseOf(token), ReleaseIs(r), e, Now())];
      Noted(ReleaseOf(token), ReleaseIs(r), e);
    }

    method Perform(op: Operation) returns (ghost st: Step)
      requires Valid()
      modifies this, client, client.server
      ensures Valid() && steps == old(steps) + [st]
      ensures st.before == old(Now()) && st.op == op && st.after == Now()
    {
      match op {
        case StatusOf(taskId) => var _, _ := Status(taskId);
        case StopOf(taskId) => var _ := Stop(taskId);
        case ResultOf(taskId) => var _, _ := Result(taskId);
        case LogsOf(taskId) => var _ := Logs(taskId);
        case StartOf(payload) => var _, _ := Start(payload);
        case AcquireOne => var _, _ := Acquire();
        case ReleaseOf(token) => var _, _ := Release(token);
      }
      st := steps[|old(steps)|];
    }
  }

  /** Steps that perform a script, one after the other, from one snapshot to another. */
  predicate Chain(from: Snapshot, script: seq<Operation>, steps: seq<Step>, to: Snapshot)
    decreases |script|
  {
    if script == [] then steps == [] && from == to
    else
      var n := |script| - 1;
      && |steps| == n + 1 && steps[n].op == script[n] && steps[n].after == to
      && Chain(from, script[..n], steps[..n], steps[n].before)
  }

  lemma ChainMore(from: Snapshot, script: seq<Operation>, i: nat, steps: seq<Step>, st: Step)
    requires i < |script| && st.op == script[i] && Chain(from, script[..i], steps, st.before)
    ensures Chain(from, script[..i + 1], steps + [st], st.after)
  {
    assert script[..i + 1][..i] == script[..i] && (steps + [st])[..|steps|] == steps;
  }

  /**
   * Any script of operations. The recorded steps lead from the client's state before the run to
   * its state after it; as `Valid` says, each was answered without an exchange exactly if its answer
   * was known to the client, and logged as its answer says. Terminal answers about an id do not change until
   * the id is handed out again or its session ends, they are what the server settled, and no
   * result is handed out twice.
   */
  method AnyRun(o: Observer, script: seq<Operation>) returns (ghost steps: seq<Step>)
    requires o.Valid()
    modifies o, o.client, o.client.server
    ensures o.Valid() && o.steps == old(o.steps) + steps
    ensures Chain(old(o.Now()), script, steps, o.Now())
    ensures Stable(o.log) && DeliveredOnce(o.log) && Truthful(o.client.server.world, o.log)
  {
    steps := [];
    for i := 0 to |script|
      invariant o.Valid() && o.steps == old(o.steps) + steps
      invariant Chain(old(o.Now()), script[..i], steps, o.Now())
    {
      ghost var st := o.Perform(script[i]);
      ChainMore(old(o.Now()), script, i, steps, st);
      steps := steps + [st];
    }
    assert script[..|script|] == script;
  }
}

/** The Maestro client: a retained session and a cache of the terminal states it has observed. */
module MaestroLocal {
  import opened Wrappers
  import opened MaestroWorld
  import opened MaestroServer
  import Text

  // ----- the cache, as a relation to the server's history ---------------------------------------

  type Cache = map<Key, TaskStatus>
  type Origin = map<Key, nat>

  /** An entry is terminal, of the current session, and the settled outcome of the task it was observed on. */
  ghost predicate EntryOk(w: World, session: Option<u32>, k: Key, s: TaskStatus, n: nat) {
    && session == Some(k.session)
    && s.Terminal() && w.Settled(n, s)
    && n in w.owner && w.owner[n] == k
  }

  ghost predicate CacheOk(w: World, session: Option<u32>, cache: Cache, origin: Origin) {
    && cache.Keys == origin.Keys
    && forall k :: k in cache ==> EntryOk(w, session, k, cache[k], origin[k])
  }

  /** The task `n` is still the newest one with key `k`, or the session of `k` is over. */
  ghost predicate Current(w: World, k: Key, n: nat) {
    if k in w.latest then w.latest[k] == n else k.session !in w.sessions
  }

  ghost predicate AllCurrent(w: World, origin: Origin) {
    forall k :: k in origin ==> Current(w, k, origin[k])
  }

  lemma CacheKept(w: World, w': World, session: Option<u32>, cache: Cache, origin: Origin)
    requires History(w, w') && CacheOk(w, session, cache, origin)
    ensures CacheOk(w', session, cache, origin)
  {
    forall k | k in cache ensures EntryOk(w', session, k, cache[k], origin[k]) {
      assert EntryOk(w, session, k, cache[k], origin[k]) && SerialKept(w, w', origin[k]);
    }
  }

  lemma CurrentKept(w: World, w': World, session: Option<u32>, cache: Cache, origin: Origin)
    requires w'.Valid() && Rely(w, w', session) && CacheOk(w, session, cache, origin) && AllCurrent(w, origin)
    ensures AllCurrent(w', origin)
  {
    forall k | k in origin ensures Current(w', k, origin[k]) {
      assert EntryOk(w, session, k, cache[k], origin[k]);
      assert Current(w, k, origin[k]) && KeyKept(w, w', k) && w'.KeyOk(k);
    }
  }

  /** Without the entries of one session, what is left is about the retained one, if there still is one. */
  lemma ForgetSession(w: World, held: Option<u32>, cache: Cache, origin: Origin, id: u32)
    requires CacheOk(w, held, cache, origin)
    ensures
      var cache' := map k | k in cache && k.session != id :: cache[k];
      var origin' := map k | k in origin && k.session != id :: origin[k];
      && CacheOk(w, if held == Some(id) then None else held, cache', origin')
      && (AllCurrent(w, origin) ==> AllCurrent(w, origin'))
  {
    var cache' := map k | k in cache && k.session != id :: cache[k];
    var origin' := map k | k in origin && k.session != id :: origin[k];
    forall k | k in cache' ensures EntryOk(w, if held == Some(id) then None else held, k, cache'[k], origin'[k]) {
      assert EntryOk(w, held, k, cache[k], origin[k]);
    }
    if AllCurrent(w, origin) {
      forall k | k in origin' ensures Current(w, k, origin'[k]) {
        assert Current(w, k, origin[k]);
      }
    }
  }

  /** Creating a task makes an entry stale exactly when the entry has the new task's key. */
  lemma CreateMakesStale(w: World, session: Option<u32>, cache: Cache, origin: Origin, k: Key)
    requires w.Valid() && CanCreate(w, k.session, k)
    requires CacheOk(w, session, cache, origin) && AllCurrent(w, origin)
    ensures AllCurrent(w.Create(k), origin) <==> k !in cache
    ensures forall j :: j in origin && j != k ==> Current(w.Create(k), j, origin[j])
  {
    var w' := w.Create(k);
    forall j | j in origin && j != k ensures Current(w', j, origin[j]) {
      assert Current(w, j, origin[j]);
    }
    if k in cache {
      assert EntryOk(w, session, k, cache[k], origin[k]) && w.SerialOk(origin[k]);
      assert !Current(w', k, origin[k]);
    }
  }

  // ----- task ids -------------------------------------------------------------------------------

  function SessionOf(session: Option<u32>): Result<u32, ErrorKind> {
    match session
    case Some(s) => Success(s)
    case None => Failure(InvalidConfig)
  }

  /** The task id is parsed before the session is looked at. */
  function KeyOf(session: Option<u32>, taskId: string): Result<Key, ErrorKind> {
    match Text.ParseU32(taskId)
    case None => Failure(InvalidInput)
    case Some(t) =>
      match SessionOf(session)
      case Failure(e) => Failure(e)
      case Success(s) => Success(Key(s, t))
  }

  /** A decimal id in a retained session names that task; without a session, only the text is judged. */
  lemma KeyOfDecimal(session: Option<u32>, task: u32)
    ensures KeyOf(session, Text.Decimal(task)) ==
            if session.Some? then Success(Key(session.value, task)) else Failure(InvalidConfig)
    ensures KeyOf(session, "") == Failure(InvalidInput)
    ensures KeyOf(session, Text.Decimal(0x1_0000_0000)) == Failure(InvalidInput)
  {
    Text.DecimalRoundTrip(task, Text.U32_MAX);
    Text.DecimalRoundTrip(0x1_0000_0000, Text.U32_MAX);
  }

  // ----- payloads -------------------------------------------------------------------------------

  /** What `serde_json` makes of a text, as far as the client looks at it. */
  datatype JsonKind = Malformed | NotObject | Object(schemaVersion: Option<nat>)

  datatype Payload =
    | Maestro(input: string, jobType: string, qubits: u32, observables: string, config: string)
    | Foreign

  datatype Legacy = Legacy(session: u32, estimate: bool)

  // ----- the exchanges of a legacy submission ----------------------------------------------------

  /** Observables are sent for an estimate only. */
  function Commands(estimate: bool): seq<Command> {
    [TYPE] + (if estimate then [OBSERVABLES] else [])
    + [QUBITS, SIMULATOR_TYPE, METHOD, QASM, OPTIONS, EXECUTE]
  }

  /** The commands of `plan` in order: all of them accepted, or the last one sent refused. */
  ghost predicate Sent(tail: seq<Exchange>, plan: seq<Command>, ok: bool) {
    && (if ok then |tail| == |plan| else 0 < |tail| <= |plan|)
    && forall i :: 0 <= i < |tail| ==> tail[i] == Exchange(CONFIGURE(plan[i]), ok || i < |tail| - 1)
  }

  lemma SentMore(tail: seq<Exchange>, plan: seq<Command>, next: Command, ok: bool, yes: bool)
    requires Sent(tail, plan, ok)
    ensures ok ==> Sent(tail + [Exchange(CONFIGURE(next), yes)], plan + [next], yes)
    ensures !ok ==> Sent(tail, plan + [next], false)
  {
  }

  /** The commands, and a CANCEL exactly if one of them failed. */
  ghost predicate AfterCreate(tail: seq<Exchange>, estimate: bool, ok: bool) {
    if ok then Sent(tail, Commands(estimate), true)
    else |tail| > 1 && Sent(tail[..|tail| - 1], Commands(estimate), false) && tail[|tail| - 1].verb.CANCEL?
  }

  /** CREATE, and if it succeeds, what follows it. */
  ghost predicate LegacyExchanges(tail: seq<Exchange>, estimate: bool, ok: bool) {
    && tail != [] && tail[0].verb.CREATE?
    && if tail[0].yes then AfterCreate(tail[1..], estimate, ok) else |tail| == 1 && !ok
  }

  // ----- the exchanges of a fetch -------------------------------------------------------------------

  /**
   * GET_RESULTS: a result that is handed over is the answer; no reply at all is Other; and after a
   * refusal EXISTS is asked, and the task reported missing only if the answer is no.
   */
  predicate Fetched(tail: seq<Exchange>, r: Result<string, ErrorKind>, broken: bool) {
    && tail != [] && tail[0].verb.GET_RESULTS?
    && if tail[0].yes then |tail| == 1 && r.Success?
       else if |tail| == 1 then r == Failure(Other) && broken
       else
         && |tail| == 2 && r.Failure? && tail[1].verb.EXISTS?
         && (r.error == ErrorKind.TaskNotFound ==> !tail[1].yes)
  }

  /** EXISTS, and if the task is there, the fetch. */
  predicate FetchExchanges(tail: seq<Exchange>, r: Result<string, ErrorKind>, broken: bool) {
    && tail != [] && tail[0].verb.EXISTS?
    && if tail[0].yes then Fetched(tail[1..], r, broken) else |tail| == 1 && r.Failure?
  }

  /** What the server was when a sequence of exchanges began. */
  datatype Start = Start(world: World, wire: seq<Exchange>, mine: set<nat>, troubles: nat)

  class Client {
    const server: Server
    const json: string -> JsonKind
    var sessionId: Option<u32>
    var terminalTasks: Cache
    ghost var origin: Origin  // the task each entry was observed on

    ghost predicate Valid()
      reads this, server
    {
      server.Valid() && CacheOk(server.world, sessionId, terminalTasks, origin)
    }

    /** The exchange made last. */
    ghost function LastExchange(): Option<Exchange>
      reads this, server
    {
      if server.wire == [] then None else Some(server.wire[|server.wire| - 1])
    }

    /** Every entry is about the newest task with its key. */
    ghost predicate Fresh()
      reads this, server
    {
      AllCurrent(server.world, origin)
    }

    constructor (server: Server, json: string -> JsonKind, session: Option<u32>)
      requires server.Valid()
      ensures Valid() && Fresh() && this.server == server && sessionId == session && terminalTasks == map[]
    {
      this.server, this.json := server, json;
      sessionId, terminalTasks, origin := session, map[], map[];
    }

    function TaskKey(taskId: string): Result<Key, ErrorKind>
      reads this
    {
      KeyOf(sessionId, taskId)
    }

    // ----- exchanges about one task -------------------------------------------------------------

    /** The two ways a read about a task fails: an exchange went wrong, or the task is not there. */
    ghost predicate Excused(before: nat, k: Key, e: ErrorKind)
      reads server
    {
      || (e == Other && server.troubles > before)
      || (e == ErrorKind.TaskNotFound && k !in server.world.tasks)
    }

    /** EXISTS as a check: a missing task is TaskNotFound, no answer is Other. */
    method EnsureTaskExists(k: Key) returns (r: Result<(), ErrorKind>)
      requires server.Valid()
      modifies server
      ensures server.Reading(sessionId)
      ensures server.wire == old(server.wire) + [Exchange(EXISTS, r.Success?)]
      ensures server.troubles == old(server.troubles) + if r == Failure(Other) then 1 else 0
      ensures r.Success? ==> k in server.world.tasks
      ensures r.Failure? ==> Excused(old(server.troubles), k, r.error)
    {
      var exists_ := server.Ask(EXISTS, k, sessionId);
      r := match exists_
        case Value(true) => Success(())
        case Value(false) => Failure(ErrorKind.TaskNotFound)
        case _ => Failure(Other);
    }

    /** Keeps the failure of an exchange unless the server confirms that the task has gone. */
    method TaskResponse<T>(k: Key, response: Reply<T>) returns (r: Result<T, ErrorKind>)
      requires server.Valid() && !response.Broken?
      modifies server
      ensures server.Reading(sessionId)
      ensures response.Value? ==> r == Success(response.value) && unchanged(server)
      // a refusal is explained by one more exchange: gone exactly if the server says so
      ensures response.Refused? ==>
                && (r == Failure(Other) || (r == Failure(ErrorKind.TaskNotFound) && k !in server.world.tasks))
                && old(server.wire) <= server.wire && |server.wire| == |old(server.wire)| + 1
                && LastExchange().value.verb.EXISTS?
                && (r == Failure(ErrorKind.TaskNotFound) <==>
                      LastExchange() == Some(Exchange(EXISTS, false)) && server.troubles == old(server.troubles))
    {
      if response.Value? {
        RelyReflexive(server.world, sessionId);
        return Success(response.value);
      }
      var exists_ := server.Ask(EXISTS, k, sessionId);
      r := Failure(if exists_ == Value(false) then ErrorKind.TaskNotFound else Other);
    }

    /** A status read followed by `TaskResponse`. */
    method Read(verb: Verb, k: Key) returns (r: Result<bool, ErrorKind>)
      requires server.Valid() && (verb.FAILED? || verb.FINISHED? || verb.RUNNING?)
      modifies server
      ensures server.Reading(sessionId)
      ensures r.Success? ==> Truth(server.world, verb, k) == Some(r.value)
      ensures r.Failure? ==> Excused(old(server.troubles), k, r.error)
    {
      var reply := server.Ask(verb, k, sessionId);
      if reply.Broken? {
        return Failure(Other);
      }
      ghost var w := server.world;
      r := TaskResponse(k, reply);
      RelyTransitive(old(server.world), w, server.world, sessionId);
    }

    /** The server's view of a task that this instance has not seen finish. */
    method ServerTaskStatus(k: Key) returns (r: Result<TaskStatus, ErrorKind>)
      requires server.Valid() && sessionId == Some(k.session)
      modifies server
      ensures server.Reading(sessionId) && |server.wire| > |old(server.wire)|
      ensures r.Success? ==> !r.value.Cancelled?
      ensures r.Success? && r.value.Terminal() ==>
                k in server.world.latest && server.world.Settled(server.world.latest[k], r.value)
      ensures r.Success? && !r.value.Terminal() ==>
                && k in server.world.tasks && (r.value.Running? <==> server.world.tasks[k].running)
                && NotEnded(old(server.world), k)
      ensures r.Failure? ==> Excused(old(server.troubles), k, r.error)
    {
      var present := EnsureTaskExists(k);
      ghost var w0 := server.world;
      if present.Failure? {
        return Failure(present.error);
      }
      var failed := Read(FAILED, k);
      ghost var w1 := server.world;
      RelyTransitive(old(server.world), w0, w1, sessionId);
      if failed.Failure? {
        return Failure(failed.error);
      }
      assert w1.KeyOk(k);
      if failed.value {
        return Success(Failed);
      }
      r := UnfailedStatus(k);
      RelyTransitive(old(server.world), w1, server.world, sessionId);
      if r.Success? && !r.value.Terminal() {
        UnendedBefore(old(server.world), w1, k);
      }
    }

    /** The rest, for a task that had not failed. */
    method UnfailedStatus(k: Key) returns (r: Result<TaskStatus, ErrorKind>)
      requires server.Valid() && sessionId == Some(k.session)
      requires k in server.world.tasks && !server.world.tasks[k].failed
      modifies server
      ensures server.Reading(sessionId)
      ensures r.Success? ==> !r.value.Cancelled?
      ensures r.Success? && r.value.Terminal() ==>
                k in server.world.latest && server.world.Settled(server.world.latest[k], r.value)
      ensures r.Success? && !r.value.Terminal() ==>
                && k in server.world.tasks && (r.value.Running? <==> server.world.tasks[k].running)
                && !old(server.world.tasks)[k].finished
      ensures r.Failure? ==> Excused(old(server.troubles), k, r.error)
    {
      assert server.world.KeyOk(k);
      var finished := Read(FINISHED, k);
      ghost var w := server.world;
      if finished.Failure? {
        return Failure(finished.error);
      }
      assert KeyKept(old(server.world), w, k);
      if finished.value {
        r := FinishedStatus(k);
        RelyTransitive(old(server.world), w, server.world, sessionId);
        return;
      }
      var running := Read(RUNNING, k);
      RelyTransitive(old(server.world), w, server.world, sessionId);
      if running.Failure? {
        return Failure(running.error);
      }
      return Success(if running.value then Running else Queued);
    }

    /** Failure may have become visible before the task finished; once it has, that is settled. */
    method FinishedStatus(k: Key) returns (r: Result<TaskStatus, ErrorKind>)
      requires server.Valid() && sessionId == Some(k.session)
      requires k in server.world.tasks && server.world.tasks[k].finished
      modifies server
      ensures server.Reading(sessionId)
      ensures r.Success? ==> r.value.Completed? || r.value.Failed?
      ensures r.Success? ==>
                k in server.world.latest && server.world.Settled(server.world.latest[k], r.value)
      ensures r.Failure? ==> Excused(old(server.troubles), k, r.error)
    {
      assert server.world.KeyOk(k);
      var failed := Read(FAILED, k);
      if failed.Failure? {
        return Failure(failed.error);
      }
      assert server.world.KeyOk(k) && KeyKept(old(server.world), server.world, k);
      return Success(if failed.value then Failed else Completed);
    }

    /** Whether the retained diagnostics end with a cancellation; no answer counts as no. */
    method CancellationRecorded(k: Key) returns (recorded: bool)
      requires server.Valid()
      modifies server
      ensures server.Reading(sessionId)
      ensures server.wire == old(server.wire) + [Exchange(LOGS, recorded)]
      ensures recorded <==>
                && server.diagnostics.Accepted? && server.diagnostics.value.Some?
                && var events := server.diagnostics.value.value;
                events != [] && events[|events| - 1] == CANCELLED
      ensures recorded ==>
                k in server.world.latest && server.world.Settled(server.world.latest[k], Cancelled)
    {
      var logs := server.Logs(k, sessionId);
      assert server.world.KeyOk(k);
      recorded := match logs
        case Accepted(Some(events)) => events != [] && events[|events| - 1] == CANCELLED
        case _ => false;
    }

    // ----- task operations ----------------------------------------------------------------------

    /** A terminal state is remembered, for the task the id names now. */
    method Remember(k: Key, s: TaskStatus)
      requires Valid() && sessionId == Some(k.session) && s.Terminal()
      requires k in server.world.latest && server.world.Settled(server.world.latest[k], s)
      modifies this`terminalTasks, this`origin
      ensures Valid() && (old(Fresh()) ==> Fresh())
      ensures terminalTasks == old(terminalTasks)[k := s]
      ensures origin == old(origin)[k := server.world.latest[k]]
    {
      ghost var w := server.world;
      assert w.KeyOk(k);
      terminalTasks := terminalTasks[k := s];
      origin := origin[k := w.latest[k]];
      forall j | j in origin ensures EntryOk(w, sessionId, j, terminalTasks[j], origin[j]) {
        if j != k { assert EntryOk(w, sessionId, j, old(terminalTasks)[j], old(origin)[j]); }
      }
      if AllCurrent(w, old(origin)) {
        forall j | j in origin ensures Current(w, j, origin[j]) {
          if j != k { assert Current(w, j, old(origin)[j]); }
        }
      }
    }

    /** The server moved on its own; what the cache says stays true. */
    twostate lemma Advance()
      requires old(Valid()) && server.Valid() && Rely(old(server.world), server.world, sessionId)
      requires unchanged(this)
      ensures Valid() && (old(Fresh()) ==> Fresh())
    {
      CacheKept(old(server.world), server.world, sessionId, terminalTasks, origin);
      if old(Fresh()) {
        CurrentKept(old(server.world), server.world, sessionId, terminalTasks, origin);
      }
    }

    method TaskStatus(taskId: string) returns (r: Result<MaestroWorld.TaskStatus, ErrorKind>)
      requires Valid()
      modifies this`terminalTasks, this`origin, server
      ensures Valid() && server.Reading(sessionId) && (old(Fresh()) ==> Fresh())
      ensures TaskKey(taskId).Failure? ==>
                r == Failure(TaskKey(taskId).error) && unchanged(this) && unchanged(server)
      ensures TaskKey(taskId).Success? ==> StatusGiven(TaskKey(taskId).value, r)
    {
      var key := TaskKey(taskId);
      RelyReflexive(server.world, sessionId);
      if key.Failure? {
        return Failure(key.error);
      }
      r := StatusOf(key.value);
    }

    /** What a status call promises about the task that its id names. */
    twostate predicate StatusGiven(k: Key, new r: Result<MaestroWorld.TaskStatus, ErrorKind>)
      reads this, server
    {
      // a remembered state is the answer, without an exchange
      && (if k in old(terminalTasks) then r == Success(old(terminalTasks)[k]) && unchanged(this) && unchanged(server)
          else |server.wire| > |old(server.wire)|)
      // otherwise this entry is added, exactly when the answer is terminal
      && sessionId == old(sessionId)
      && terminalTasks == (if r.Success? && r.value.Terminal() then old(terminalTasks)[k := r.value]
                           else old(terminalTasks))
      && origin == (if k in origin then old(origin)[k := origin[k]] else old(origin))
      && (k in origin <==> k in terminalTasks)
      && (k in origin && k !in old(origin) ==>
            && NewestBefore(old(server.world), k, origin[k])
            && k in server.world.latest && origin[k] == server.world.latest[k])
      && (k in old(origin) ==> origin == old(origin))
      // an active task had not ended before the call
      && (r.Success? && !r.value.Terminal() ==>
            && k in server.world.tasks && (r.value.Running? <==> server.world.tasks[k].running)
            && NotEnded(old(server.world), k))
      // a cancellation is believed only from the server's final record
      && (r == Success(Cancelled) && k !in old(terminalTasks) ==> LastExchange() == Some(Exchange(LOGS, true)))
      // a task is reported missing only after its record was asked for a cancellation
      && (r.Failure? ==>
            || (r.error == Other && server.troubles > old(server.troubles))
            || (r.error == ErrorKind.TaskNotFound && LastExchange() == Some(Exchange(LOGS, false))
                && Missing(old(server.world), k, server.world)))
    }

    method StatusOf(k: Key) returns (r: Result<MaestroWorld.TaskStatus, ErrorKind>)
      requires Valid() && sessionId == Some(k.session)
      modifies this`terminalTasks, this`origin, server
      ensures Valid() && server.Reading(sessionId) && (old(Fresh()) ==> Fresh())
      ensures StatusGiven(k, r)
    {
      RelyReflexive(server.world, sessionId);
      if k in terminalTasks {
        return Success(terminalTasks[k]);
      }
      r := ObservedStatus(k);
      Advance();
      if r.Success? && r.value.Terminal() {
        Remember(k, r.value);
        NewestEarlier(old(server.world), server.world, k, origin[k]);
      }
    }

    /** The server's view, and for a missing task the record it has left. */
    method ObservedStatus(k: Key) returns (r: Result<MaestroWorld.TaskStatus, ErrorKind>)
      requires server.Valid() && sessionId == Some(k.session)
      modifies server
      ensures server.Reading(sessionId) && |server.wire| > |old(server.wire)|
      ensures r.Success? && r.value.Terminal() ==>
                k in server.world.latest && server.world.Settled(server.world.latest[k], r.value)
      ensures r.Success? && !r.value.Terminal() ==>
                && k in server.world.tasks && (r.value.Running? <==> server.world.tasks[k].running)
                && NotEnded(old(server.world), k)
      ensures r == Success(Cancelled) ==> LastExchange() == Some(Exchange(LOGS, true))
      ensures r.Failure? ==>
                || (r.error == Other && server.troubles > old(server.troubles))
                || (r.error == ErrorKind.TaskNotFound && LastExchange() == Some(Exchange(LOGS, false))
                    && Missing(old(server.world), k, server.world))
    {
      r := ServerTaskStatus(k);
      if r == Failure(ErrorKind.TaskNotFound) {
        ghost var w := server.world;
        var recorded := CancellationRecorded(k);
        RelyTransitive(old(server.world), w, server.world, sessionId);
        MissingKept(old(server.world), w, server.world, k);
        if recorded {
          r := Success(Cancelled);
        }
      }
    }

    method TaskStop(taskId: string) returns (r: Result<(), ErrorKind>)
      requires Valid()
      modifies this`terminalTasks, this`origin, server
      ensures Valid() && (old(Fresh()) ==> Fresh())
      ensures Rely(old(server.world), server.world, sessionId) && server.mine == old(server.mine)
      ensures TaskKey(taskId).Failure? ==>
                r == Failure(TaskKey(taskId).error) && unchanged(this) && unchanged(server)
      ensures Counted(Cancels(server.wire) - Cancels(old(server.wire)))
      ensures Cancels(old(server.wire)) <= Cancels(server.wire) <= Cancels(old(server.wire)) + 1
      ensures TaskKey(taskId).Success? ==> Stopped(TaskKey(taskId).value, r)
    {
      var key := TaskKey(taskId);
      RelyReflexive(server.world, sessionId);
      if key.Failure? {
        return Failure(key.error);
      }
      r := StopOf(key.value);
    }

    /** Besides reads, only this number of CANCELs was sent. */
    twostate predicate Counted(cancels: int)
      reads server
    {
      && old(server.wire) <= server.wire && server.troubles >= old(server.troubles)
      && server.broken >= old(server.broken) && Handed(server.wire) == Handed(old(server.wire))
      && Cancels(server.wire) == Cancels(old(server.wire)) + cancels
      && Effects(server.wire) == Effects(old(server.wire)) + cancels
    }

    /** What a stop promises about the task that its id names. */
    twostate predicate Stopped(k: Key, new r: Result<(), ErrorKind>)
      reads this, server
    {
      && sessionId == old(sessionId)
      // success means a settled task, so a refused CANCEL of an active task is an error
      && (r.Success? <==> k in terminalTasks)
      && (if k in old(terminalTasks) then r == Success(()) && unchanged(this) && unchanged(server)
          else |server.wire| > |old(server.wire)|)
      && (k in origin <==> k in terminalTasks)
      && terminalTasks == (if k in terminalTasks then old(terminalTasks)[k := terminalTasks[k]]
                           else old(terminalTasks))
      && origin == (if k in origin then old(origin)[k := origin[k]] else old(origin))
      && (k in origin && k !in old(origin) ==> NewestBefore(old(server.world), k, origin[k]))
      && (k in terminalTasks && k !in old(terminalTasks) && terminalTasks[k].Cancelled? ==>
            LastExchange() == Some(Exchange(LOGS, true)) || LastExchange() == Some(Exchange(CANCEL, true)))
      // if a refused CANCEL is the only trouble, and the task had ended by then, the stop succeeds
      && (Cancels(server.wire) > Cancels(old(server.wire)) && r == Failure(Other)
          && server.troubles == old(server.troubles) + 1 && server.broken == old(server.broken) ==>
            k in server.world.tasks && NotEnded(server.atCancel, k))
      && (r.Failure? ==>
            || (r.error == Other && server.troubles > old(server.troubles))
            || (r.error == ErrorKind.TaskNotFound && Missing(old(server.world), k, server.world)))
    }

    method StopOf(k: Key) returns (r: Result<(), ErrorKind>)
      requires Valid() && sessionId == Some(k.session)
      modifies this`terminalTasks, this`origin, server
      ensures Valid() && (old(Fresh()) ==> Fresh())
      ensures Rely(old(server.world), server.world, sessionId) && server.mine == old(server.mine)
      ensures Counted(Cancels(server.wire) - Cancels(old(server.wire)))
      ensures Cancels(old(server.wire)) <= Cancels(server.wire) <= Cancels(old(server.wire)) + 1
      ensures Stopped(k, r)
    {
      var status := StatusOf(k);
      if status.Failure? {
        return Failure(status.error);
      }
      if status.value.Terminal() {
        return Success(());
      }
      ghost var w := server.world;
      r := StopActive(k);
      MissingEarlier(old(server.world), w, server.world, k);
      if r.Success? {
        NewestEarlier(old(server.world), w, k, origin[k]);
      }
      RelyTransitive(old(server.world), w, server.world, sessionId);
    }

    /** Sends the CANCEL; a positive answer is remembered. */
    method StopActive(k: Key) returns (r: Result<(), ErrorKind>)
      requires Valid() && sessionId == Some(k.session) && k !in terminalTasks
      modifies this`terminalTasks, this`origin, server
      ensures Valid() && (old(Fresh()) ==> Fresh())
      ensures Rely(old(server.world), server.world, sessionId) && server.mine == old(server.mine)
      ensures Counted(1) && Stopped(k, r)
    {
      var response := server.Cancel(k, sessionId);
      ghost var w := server.world;
      Advance();
      if response.Broken? {
        return Failure(Other);
      }
      if response == Value(true) {
        Remember(k, Cancelled);
        NewestEarlier(old(server.world), w, k, origin[k]);
        return Success(());
      }
      r := RefusedStop(k);
      MissingEarlier(old(server.world), w, server.world, k);
      if r.Success? {
        NewestEarlier(old(server.world), w, k, origin[k]);
      }
      RelyTransitive(old(server.world), w, server.world, sessionId);
    }

    /** The server refused to cancel: that is an error unless the task has settled in the meantime. */
    method RefusedStop(k: Key) returns (r: Result<(), ErrorKind>)
      requires Valid() && sessionId == Some(k.session) && k !in terminalTasks
      modifies this`terminalTasks, this`origin, server
      ensures Valid() && server.Reading(sessionId) && (old(Fresh()) ==> Fresh())
      ensures |server.wire| > |old(server.wire)| && sessionId == old(sessionId)
      ensures r.Success? <==> k in terminalTasks
      ensures terminalTasks == if k in terminalTasks then old(terminalTasks)[k := terminalTasks[k]]
                               else old(terminalTasks)
      ensures origin == if k in origin then old(origin)[k := origin[k]] else old(origin)
      ensures k in origin ==> NewestBefore(old(server.world), k, origin[k])
      ensures k in terminalTasks && terminalTasks[k].Cancelled? ==> LastExchange() == Some(Exchange(LOGS, true))
      // an error without trouble is about a task that had not ended when the CANCEL was refused
      ensures r == Failure(Other) && server.troubles == old(server.troubles) ==>
                k in server.world.tasks && NotEnded(old(server.world), k)
      ensures r.Failure? ==>
                || r.error == Other
                || (r.error == ErrorKind.TaskNotFound && Missing(old(server.world), k, server.world))
    {
      var again := StatusOf(k);
      r := match again
        case Success(s) => if s.Terminal() then Success(()) else Failure(Other)
        case Failure(e) => Failure(if e == ErrorKind.TaskNotFound then e else Other);
    }

    method TaskResult(taskId: string) returns (r: Result<string, ErrorKind>)
      requires Valid()
      modifies this`terminalTasks, this`origin, server
      ensures Valid() && server.Calm(sessionId) && (old(Fresh()) ==> Fresh())
      ensures TaskKey(taskId).Failure? ==>
                r == Failure(TaskKey(taskId).error) && unchanged(this) && unchanged(server)
      // a result that the server hands over reaches the caller
      ensures Handed(server.wire) == Handed(old(server.wire)) + if r.Success? then 1 else 0
      ensures Effects(server.wire) <= Effects(old(server.wire)) + 1
      ensures TaskKey(taskId).Success? ==> ResultGiven(TaskKey(taskId).value, r)
    {
      var key := TaskKey(taskId);
      RelyReflexive(server.world, sessionId);
      if key.Failure? {
        return Failure(key.error);
      }
      r := ResultOf(key.value);
    }

    /** What a result call promises about the task that its id names. */
    twostate predicate ResultGiven(k: Key, new r: Result<string, ErrorKind>)
      reads this, server
    {
      && sessionId == old(sessionId)
      && terminalTasks == (if k in terminalTasks then old(terminalTasks)[k := terminalTasks[k]]
                           else old(terminalTasks))
      && origin == (if k in origin then old(origin)[k := origin[k]] else old(origin))
      && (k in origin <==> k in terminalTasks)
      && (k in origin && k !in old(origin) ==> NewestBefore(old(server.world), k, origin[k]))
      && (k in old(terminalTasks) ==>
            && k in terminalTasks && terminalTasks[k] == old(terminalTasks)[k]
            && origin == old(origin))
      // a result is handed out for a completed task, whose status stays available
      && (r.Success? ==> k in terminalTasks && terminalTasks[k].Completed?)
      && (k in terminalTasks && !terminalTasks[k].Completed? ==> r == Failure(TaskNotReady))
      && (r == Failure(TaskNotReady) ==> k !in terminalTasks || !terminalTasks[k].Completed?)
      // a task known to have ended otherwise is refused without an exchange
      && (if k in old(terminalTasks) && !old(terminalTasks)[k].Completed? then unchanged(this) && unchanged(server)
          else |server.wire| > |old(server.wire)|)
      && (r.Failure? ==>
            || r.error == TaskNotReady
            || (r.error == Other && server.troubles > old(server.troubles))
            || (r.error == ErrorKind.TaskNotFound && Missing(old(server.world), k, server.world)
                && (LastExchange() == Some(Exchange(EXISTS, false)) || LastExchange() == Some(Exchange(LOGS, false)))))
      // and only once for the task the server gave it for, as the server settled it
      && (r.Success? ==>
            && k in server.world.latest
            && server.world.latest[k] !in old(server.world.delivered)
            && server.world.latest[k] in server.world.delivered
            && server.world.latest[k] in server.world.ledger
            && r.value == server.world.ledger[server.world.latest[k]].result)
      // which is the completed one, unless a failed submission has reused its id
      && (r.Success? && old(Fresh()) ==> server.world.latest[k] == origin[k])
    }

    method ResultOf(k: Key) returns (r: Result<string, ErrorKind>)
      requires Valid() && sessionId == Some(k.session)
      modifies this`terminalTasks, this`origin, server
      ensures Valid() && server.Calm(sessionId) && (old(Fresh()) ==> Fresh())
      ensures Handed(server.wire) == Handed(old(server.wire)) + if r.Success? then 1 else 0
      ensures Effects(server.wire) <= Effects(old(server.wire)) + 1
      ensures ResultGiven(k, r)
    {
      var status := StatusOf(k);
      if status.Failure? {
        return Failure(status.error);
      }
      if !status.value.Completed? {
        return Failure(TaskNotReady);
      }
      ghost var w := server.world;
      r := FetchCompleted(k);
      MissingEarlier(old(server.world), w, server.world, k);
      RelyTransitive(old(server.world), w, server.world, sessionId);
      if r.Success? {
        NotDeliveredBefore(old(server.world), w, server.world.latest[k]);
      }
    }

    /** The result of a task known to have completed; handing it over removes the task from the server. */
    method FetchCompleted(k: Key) returns (r: Result<string, ErrorKind>)
      requires Valid() && k in terminalTasks && terminalTasks[k].Completed?
      modifies server
      ensures Valid() && server.Calm(sessionId) && (old(Fresh()) ==> Fresh())
      ensures FetchExchanges(server.wire[|old(server.wire)|..], r, server.broken > old(server.broken))
      ensures Handed(server.wire) == Handed(old(server.wire)) + if r.Success? then 1 else 0
      ensures Effects(server.wire) <= Effects(old(server.wire)) + 1
      ensures r.Failure? ==> Excused(old(server.troubles), k, r.error)
      ensures r == Failure(ErrorKind.TaskNotFound) ==> LastExchange() == Some(Exchange(EXISTS, false))
      ensures r.Success? ==>
                && k in server.world.latest
                && server.world.latest[k] !in old(server.world.delivered)
                && server.world.latest[k] in server.world.delivered
                && server.world.latest[k] in server.world.ledger
                && r.value == server.world.ledger[server.world.latest[k]].result
      ensures r.Success? && old(Fresh()) ==> server.world.latest[k] == origin[k]
    {
      ghost var n := |server.wire|;
      var present := EnsureTaskExists(k);
      ghost var w := server.world;
      if present.Failure? {
        Advance();
        assert server.wire[n..] == [Exchange(EXISTS, false)];
        return Failure(present.error);
      }
      assert server.wire[n..] == [Exchange(EXISTS, true)];
      r := FetchPresent(k);
      assert server.wire[n..] == [Exchange(EXISTS, true)] + server.wire[n + 1..];
      RelyTransitive(old(server.world), w, server.world, sessionId);
      Advance();
      if r.Success? {
        NotDeliveredBefore(old(server.world), w, server.world.latest[k]);
        assert Current(server.world, k, origin[k]) || !old(Fresh());
      }
    }

    /** GET_RESULTS, and EXISTS again if the result is refused. */
    method FetchPresent(k: Key) returns (r: Result<string, ErrorKind>)
      requires server.Valid()
      modifies server
      ensures server.Calm(sessionId)
      ensures Fetched(server.wire[|old(server.wire)|..], r, server.broken > old(server.broken))
      ensures Handed(server.wire) == Handed(old(server.wire)) + if r.Success? then 1 else 0
      ensures Effects(server.wire) == Effects(old(server.wire)) + 1
      ensures r.Failure? ==> Excused(old(server.troubles), k, r.error)
      ensures r.Success? ==>
                && k in server.world.latest
                && server.world.latest[k] !in old(server.world.delivered)
                && server.world.latest[k] in server.world.delivered
                && server.world.latest[k] in server.world.ledger
                && r.value == server.world.ledger[server.world.latest[k]].result
    {
      ghost var n := |server.wire|;
      var results := server.GetResults(k, sessionId);
      ghost var w := server.world;
      assert server.wire[n..] == [Exchange(GET_RESULTS, results.Value?)];
      if results.Broken? {
        return Failure(Other);
      }
      ghost var wire := server.wire;
      r := TaskResponse(k, results);
      RelyTransitive(old(server.world), w, server.world, sessionId);
      assert results.Refused? ==> server.wire[n..] == [Exchange(GET_RESULTS, false), server.wire[|wire|]];
    }

    /** The retained diagnostics, or a text that is no JSON. */
    method TaskLogs(taskId: string) returns (r: Result<Option<seq<string>>, ErrorKind>)
      requires Valid()
      modifies server
      ensures Valid() && server.Reading(sessionId) && (old(Fresh()) ==> Fresh())
      ensures TaskKey(taskId).Failure? ==> r == Failure(TaskKey(taskId).error) && unchanged(server)
      ensures TaskKey(taskId).Success? ==> |server.wire| > |old(server.wire)|
      ensures TaskKey(taskId).Success? && r.Failure? ==> server.troubles > old(server.troubles)
      ensures TaskKey(taskId).Success? ==>
                r == match server.diagnostics
                     case Accepted(events) => Success(events)
                     case Declined(code) => Failure(ErrorOfCode(code))
      ensures r.Success? && r.value.Some? ==>
                TaskKey(taskId).value in server.world.events
                && r.value.value == server.world.events[TaskKey(taskId).value]
    {
      var key := TaskKey(taskId);
      RelyReflexive(server.world, sessionId);
      if key.Failure? {
        return Failure(key.error);
      }
      var logs := server.Logs(key.value, sessionId);
      Advance();
      r := match logs
        case Accepted(events) => Success(events)
        case Declined(code) => Failure(ErrorOfCode(code));
    }

    // ----- sessions -----------------------------------------------------------------------------

    /** Keeps a live session; otherwise forgets it, with everything cached for it, and opens another. */
    method Acquire() returns (r: Result<string, ErrorKind>)
      requires Valid()
      modifies this, server
      ensures Valid() && (old(Fresh()) ==> Fresh())
      ensures History(old(server.world), server.world)
      ensures server.mine == old(server.mine) && Cancels(server.wire) == Cancels(old(server.wire))
      ensures Handed(server.wire) == Handed(old(server.wire))
      ensures r.Success? ==> sessionId.Some? && r.value == Text.Decimal(sessionId.value)
      ensures r.Success? ==> sessionId.value in server.world.sessions
      ensures r.Failure? ==> r.error == Other && server.troubles > old(server.troubles)
      // the retained session is asked about, and kept, with the cache, unless it is found missing;
      // then, or if there is none, another one is asked for, with an empty cache
      ensures old(server.wire) <= server.wire
      ensures var tail := server.wire[|old(server.wire)|..];
              if old(sessionId).None? then tail == [Exchange(SESSION_NEW, r.Success?)] && terminalTasks == map[]
              else if |tail| == 1 then tail == [Exchange(SESSION_EXISTS, r.Success?)] && unchanged(this)
              else
                && tail == [Exchange(SESSION_EXISTS, false), Exchange(SESSION_NEW, r.Success?)]
                // the first one was answered
                && server.troubles == old(server.troubles) + (if r.Success? then 0 else 1)
                && terminalTasks == map[] && (r.Failure? ==> sessionId == None)
    {
      if sessionId.None? {
        r := OpenSession();
        return;
      }
      var live := server.SessionExists(sessionId.value, sessionId);
      Advance();
      if !live.Value? {
        return Failure(Other);
      }
      if live.value {
        return Success(Text.Decimal(sessionId.value));
      }
      ghost var w := server.world;
      sessionId, terminalTasks, origin := None, map[], map[];
      r := OpenSession();
      HistoryTransitive(old(server.world), w, server.world);
    }

    method OpenSession() returns (r: Result<string, ErrorKind>)
      requires Valid() && sessionId.None?
      modifies this`sessionId, server
      ensures Valid() && Fresh() && terminalTasks == map[]
      ensures server.Quiet(None)
      ensures r.Success? ==> sessionId.Some? && r.value == Text.Decimal(sessionId.value)
      ensures r.Success? ==> sessionId.value in server.world.sessions
      ensures r.Failure? ==> r.error == Other && sessionId.None? && server.troubles > old(server.troubles)
      ensures server.wire == old(server.wire) + [Exchange(SESSION_NEW, r.Success?)]
      ensures server.troubles == old(server.troubles) + if r.Success? then 0 else 1
    {
      NoSessionNoEntries(server.world, terminalTasks, origin);
      assert origin.Keys == {};
      var session := server.NewSession();
      if !session.Value? {
        return Failure(Other);
      }
      sessionId := Some(session.value);
      return Success(Text.Decimal(session.value));
    }

    /** The token, not the retained session, says which session is deleted. */
    method Release(token: string) returns (r: Result<(), ErrorKind>)
      requires Valid()
      modifies this, server
      ensures Valid() && (old(Fresh()) ==> Fresh())
      ensures Rely(old(server.world), server.world, old(sessionId))
      ensures server.mine == old(server.mine) && Cancels(server.wire) == Cancels(old(server.wire))
      ensures Handed(server.wire) == Handed(old(server.wire))
      ensures Text.ParseU32(token).None? ==> r == Failure(InvalidInput) && unchanged(server)
      ensures Text.ParseU32(token).Some? ==> server.wire == old(server.wire) + [Exchange(SESSION_DELETE, r.Success?)]
      ensures r.Failure? ==> unchanged(this)
      ensures Text.ParseU32(token).Some? && r.Failure? ==> r.error == Other && server.troubles > old(server.troubles)
      ensures r.Success? ==>
                var id := Text.ParseU32(token).value;
                && id !in server.world.sessions
                && sessionId == (if old(sessionId) == Some(id) then None else old(sessionId))
                && terminalTasks == (map k | k in old(terminalTasks) && k.session != id :: old(terminalTasks)[k])
                && origin == (map k | k in old(origin) && k.session != id :: old(origin)[k])
    {
      RelyReflexive(server.world, sessionId);
      var id := Text.ParseU32(token);
      if id.None? {
        return Failure(InvalidInput);
      }
      var deleted := server.DeleteSession(id.value, sessionId);
      Advance();
      if deleted != Value(true) {
        return Failure(Other);
      }
      if sessionId == Some(id.value) {
        sessionId := None;
      }
      ForgetSession(server.world, old(sessionId), terminalTasks, origin, id.value);
      terminalTasks := map k | k in terminalTasks && k.session != id.value :: terminalTasks[k];
      origin := map k | k in origin && k.session != id.value :: origin[k];
      return Success(());
    }

    // ----- submission ---------------------------------------------------------------------------

    /** `accepted`: a plain no is the caller's mistake, no answer is not. */
    method Configured(command: Command) returns (r: Result<(), ErrorKind>)
      requires server.Valid()
      modifies server
      ensures server.Quiet(sessionId)
      ensures server.wire == old(server.wire) + [Exchange(CONFIGURE(command), r.Success?)]
      ensures r.Failure? ==> server.troubles > old(server.troubles)
    {
      var reply := server.Configure(command, sessionId);
      r := match reply
        case Value(true) => Success(())
        case Value(false) => Failure(InvalidInput)
        case _ => Failure(Other);
    }

    /** Since `start`, only the commands of `plan` were sent, up to the first one that failed. */
    ghost predicate Progress(start: Start, plan: seq<Command>, ok: bool)
      reads this, server
    {
      && server.Valid() && Rely(start.world, server.world, sessionId) && server.mine == start.mine
      && start.wire <= server.wire && Cancels(server.wire) == Cancels(start.wire)
      && Handed(server.wire) == Handed(start.wire)
      && Sent(server.wire[|start.wire|..], plan, ok)
      && server.troubles >= start.troubles && (!ok ==> server.troubles > start.troubles)
    }

    /** The next command, unless an earlier one failed. */
    method Then(earlier: Result<(), ErrorKind>, command: Command, ghost start: Start, ghost plan: seq<Command>)
      returns (r: Result<(), ErrorKind>)
      requires start.world.Valid() && Progress(start, plan, earlier.Success?)
      modifies server
      ensures Progress(start, plan + [command], r.Success?)
    {
      ghost var tail := server.wire[|start.wire|..];
      if earlier.Failure? {
        SentMore(tail, plan, command, false, false);
        return earlier;
      }
      r := Configured(command);
      RelyTransitive(start.world, old(server.world), server.world, sessionId);
      SentMore(tail, plan, command, true, r.Success?);
      assert server.wire[|start.wire|..] == tail + [Exchange(CONFIGURE(command), r.Success?)];
    }

    /** Type, observables of an estimate, qubits, simulator type and method, QASM, options, EXECUTE. */
    method ConfigureAndExecute(estimate: bool, ghost start: Start) returns (r: Result<(), ErrorKind>)
      requires start.world.Valid() && Progress(start, [], true)
      modifies server
      ensures Progress(start, Commands(estimate), r.Success?)
    {
      r := Then(Success(()), TYPE, start, []);
      ghost var plan := [] + [TYPE];
      if estimate {
        r := Then(r, OBSERVABLES, start, plan);
        plan := plan + [OBSERVABLES];
      }
      r := Then3(r, QUBITS, SIMULATOR_TYPE, METHOD, start, plan);
      r := Then3(r, QASM, OPTIONS, EXECUTE, start, plan + [QUBITS, SIMULATOR_TYPE, METHOD]);
      assert plan + [QUBITS, SIMULATOR_TYPE, METHOD] + [QASM, OPTIONS, EXECUTE] == Commands(estimate);
    }

    method Then3(earlier: Result<(), ErrorKind>, a: Command, b: Command, c: Command, ghost start: Start,
                 ghost plan: seq<Command>) returns (r: Result<(), ErrorKind>)
      requires start.world.Valid() && Progress(start, plan, earlier.Success?)
      modifies server
      ensures Progress(start, plan + [a, b, c], r.Success?)
    {
      r := Then(earlier, a, start, plan);
      r := Then(r, b, start, plan + [a]);
      r := Then(r, c, start, plan + [a] + [b]);
      assert plan + [a] + [b] + [c] == plan + [a, b, c];
    }

    /**
     * Creates, configures and executes a legacy task. A task whose configuration fails is
     * cancelled and reported as Other, whatever the cause was.
     */
    method SubmitLegacy(job: Legacy) returns (r: Result<u32, ErrorKind>, ghost mid: World, ghost made: Option<Key>)
      requires server.Valid() && sessionId == Some(job.session)
      modifies server
      ensures server.Valid() && mid.Valid() && Rely(old(server.world), mid, sessionId)
      ensures made.Some? ==> CanCreate(mid, job.session, made.value)
      ensures Rely(if made.Some? then mid.Create(made.value) else mid, server.world, sessionId)
      ensures server.mine == old(server.mine) + if made.Some? then {mid.next} else {}
      ensures r.Success? ==> made == Some(Key(job.session, r.value))
      ensures r.Failure? ==> r.error == Other && server.troubles > old(server.troubles)
      ensures Handed(server.wire) == Handed(old(server.wire))
      ensures Cancels(server.wire) <= Cancels(old(server.wire)) + if r.Success? then 0 else 1
      ensures Cancels(server.wire) >= Cancels(old(server.wire))
      ensures old(server.wire) <= server.wire
      ensures LegacyExchanges(server.wire[|old(server.wire)|..], job.estimate, r.Success?)
    {
      var created;
      created, mid, made := server.Create(job.session, sessionId);
      RelyReflexive(server.world, sessionId);
      ghost var start := Start(server.world, server.wire, server.mine, server.troubles);
      assert server.wire[|old(server.wire)|..] == [Exchange(CREATE, created.Value?)];
      if !created.Value? {
        return Failure(Other), mid, made;
      }
      var configured := ConfigureOrCancel(job, created.value, start);
      assert server.wire[|old(server.wire)|..] == [Exchange(CREATE, true)] + server.wire[|start.wire|..];
      r := if configured.Failure? then Failure(Other) else Success(created.value);
    }

    /** A failed configuration would otherwise lose the only handle to the task. */
    method ConfigureOrCancel(job: Legacy, task: u32, ghost start: Start) returns (r: Result<(), ErrorKind>)
      requires start.world.Valid() && Progress(start, [], true) && sessionId == Some(job.session)
      modifies server
      ensures server.Valid() && Rely(start.world, server.world, sessionId) && server.mine == start.mine
      ensures start.wire <= server.wire && AfterCreate(server.wire[|start.wire|..], job.estimate, r.Success?)
      ensures Handed(server.wire) == Handed(start.wire)
      ensures Cancels(server.wire) == Cancels(start.wire) + if r.Success? then 0 else 1
      ensures server.troubles >= start.troubles && (r.Failure? ==> server.troubles > start.troubles)
    {
      r := ConfigureAndExecute(job.estimate, start);
      if r.Failure? {
        ghost var w := server.world;
        ghost var tail := server.wire[|start.wire|..];
        var cancelled := server.Cancel(Key(job.session, task), sessionId);
        RelyTransitive(start.world, w, server.world, sessionId);
        assert server.wire[|start.wire|..] == tail + [Exchange(CANCEL, cancelled == Value(true))];
      }
    }

    /** What a submission promises; `made` is the serial of the task it created on the server, if any. */
    twostate predicate Submitted(new r: Result<string, ErrorKind>, new made: Option<nat>)
      reads this, server
    {
      && History(old(server.world), server.world)
      && server.mine == old(server.mine) + (if made.Some? then {made.value} else {})
      && (made.Some? ==> made.value !in old(server.world.owner) && made.value in server.world.owner)
      // an error of another kind than Other promises that no task was created
      && (r.Failure? && r.error != Other ==> made.None?)
      && (r.Failure? ==> unchanged(this))
      // the returned id names the created task, and nothing remembered about that id survives
      && (r.Success? ==>
            && made.Some? && sessionId.Some?
            && var k := server.world.owner[made.value];
            && k.session == sessionId.value && r.value == Text.Decimal(k.task)
            && terminalTasks == old(terminalTasks) - {k} && origin == old(origin) - {k}
            && Current(server.world, k, made.value))
      // an entry is left about an older task exactly when a failed call created one under an id
      // that was cached before the call, and the session is still live
      && (old(Fresh()) ==>
            (!Fresh() <==>
               && r.Failure? && made.Some?
               && server.world.owner[made.value] in old(terminalTasks)
               && server.world.owner[made.value].session in server.world.sessions))
    }

    /** Nothing was sent, or what was sent created nothing. */
    twostate lemma NothingSubmitted(new e: ErrorKind)
      requires old(Valid()) && unchanged(this) && unchanged(server)
      ensures Submitted(Failure(e), None)
    {
      RelyReflexive(server.world, sessionId);
    }

    /** The errors reported before anything is sent. */
    function LocalRefusal(payload: Payload): Option<ErrorKind>
      reads this
    {
      Refuses(sessionId, payload)
    }

    function Refuses(session: Option<u32>, payload: Payload): Option<ErrorKind> {
      if payload.Foreign? then Some(UnsupportedPayload)
      else if Text.EqIgnoreAsciiCase(payload.jobType, "request") then RequestRefusal(session, payload.input)
      else LegacyRefusal(session, payload)
    }

    function RequestRefusal(session: Option<u32>, input: string): Option<ErrorKind> {
      if json(input) != Object(Some(2)) then Some(InvalidInput)
      else if session.None? then Some(InvalidConfig)
      else None
    }

    function LegacyRefusal(session: Option<u32>, payload: Payload): Option<ErrorKind>
      requires payload.Maestro?
    {
      if !WellFormedLegacy(payload) then Some(InvalidInput)
      else if session.None? then Some(InvalidConfig)
      else None
    }

    /** A local refusal sends nothing; any other failure comes from an exchange. */
    twostate predicate Refusal(refusal: Option<ErrorKind>, new r: Result<string, ErrorKind>)
      reads this, server
    {
      if refusal.Some? then r == Failure(refusal.value) && unchanged(this) && unchanged(server)
      else r.Failure? ==> server.troubles > old(server.troubles)
    }

    method TaskStart(payload: Payload) returns (r: Result<string, ErrorKind>, ghost made: Option<nat>)
      requires Valid()
      modifies this`terminalTasks, this`origin, server
      ensures Valid() && Submitted(r, made) && Refusal(old(LocalRefusal(payload)), r)
      // one SUBMIT for a native request; for a legacy payload CREATE, the commands, and CANCEL if one failed
      ensures old(server.wire) <= server.wire
      ensures old(LocalRefusal(payload)).None? ==>
                var tail := server.wire[|old(server.wire)|..];
                if Text.EqIgnoreAsciiCase(payload.jobType, "request") then tail == [Exchange(SUBMIT, r.Success?)]
                else LegacyExchanges(tail, IsEstimate(payload), r.Success?)
      ensures old(LocalRefusal(payload)).None? && r.Failure? ==>
                if Text.EqIgnoreAsciiCase(payload.jobType, "request")
                then server.submitted.Declined? && r.error == ErrorOfCode(server.submitted.code)
                else r.error == Other
      ensures Cancels(old(server.wire)) <= Cancels(server.wire) && Handed(server.wire) == Handed(old(server.wire))
      ensures Cancels(server.wire) <= Cancels(old(server.wire)) + if r.Success? then 0 else 1
    {
      NothingSubmitted(UnsupportedPayload);
      if payload.Foreign? {
        return Failure(UnsupportedPayload), None;
      }
      if Text.EqIgnoreAsciiCase(payload.jobType, "request") {
        r, made := StartRequest(payload.input);
      } else {
        r, made := StartLegacy(payload);
      }
    }

    /** A native request: checked locally, then submitted in one exchange. */
    method StartRequest(input: string) returns (r: Result<string, ErrorKind>, ghost made: Option<nat>)
      requires Valid()
      modifies this`terminalTasks, this`origin, server
      ensures Valid() && Submitted(r, made) && Refusal(old(RequestRefusal(sessionId, input)), r)
      ensures old(RequestRefusal(sessionId, input)).None? ==>
                server.wire == old(server.wire) + [Exchange(SUBMIT, r.Success?)]
      ensures old(RequestRefusal(sessionId, input)).None? && r.Failure? ==>
                server.submitted.Declined? && r.error == ErrorOfCode(server.submitted.code)
      ensures Cancels(server.wire) == Cancels(old(server.wire)) && Handed(server.wire) == Handed(old(server.wire))
    {
      NothingSubmitted(InvalidInput);
      NothingSubmitted(InvalidConfig);
      if json(input) != Object(Some(2)) {
        return Failure(InvalidInput), None;
      }
      if sessionId.None? {
        return Failure(InvalidConfig), None;
      }
      var session := sessionId.value;
      var reply, mid, created := server.Submit(session, sessionId);
      RelyReflexive(server.world, sessionId);
      made := if created.Some? then Some(mid.next) else None;
      if reply.Declined? {
        r := Failure(ErrorOfCode(reply.code));
      } else {
        var k := Key(session, reply.value);
        terminalTasks, origin := terminalTasks - {k}, origin - {k};
        r := Success(Text.Decimal(reply.value));
      }
      SubmissionDone(r, mid, created);
    }

    predicate IsEstimate(payload: Payload)
      requires payload.Maestro?
    {
      Text.EqIgnoreAsciiCase(payload.jobType, "estimate")
    }

    /** The checks a legacy payload passes before anything is created. */
    predicate WellFormedLegacy(payload: Payload)
      requires payload.Maestro?
    {
      && (Text.EqIgnoreAsciiCase(payload.jobType, "execute")
          || (IsEstimate(payload) && Text.Trim(payload.observables) != ""))
      && Text.Trim(payload.input) != "" && payload.qubits != 0
      && json(payload.config).Object?
    }

    method StartLegacy(payload: Payload) returns (r: Result<string, ErrorKind>, ghost made: Option<nat>)
      requires Valid() && payload.Maestro?
      modifies this`terminalTasks, this`origin, server
      ensures Valid() && Submitted(r, made) && Refusal(old(LegacyRefusal(sessionId, payload)), r)
      ensures old(server.wire) <= server.wire
      ensures old(LegacyRefusal(sessionId, payload)).None? ==>
                LegacyExchanges(server.wire[|old(server.wire)|..], IsEstimate(payload), r.Success?)
      ensures old(LegacyRefusal(sessionId, payload)).None? && r.Failure? ==> r.error == Other
      ensures Cancels(old(server.wire)) <= Cancels(server.wire) && Handed(server.wire) == Handed(old(server.wire))
      ensures Cancels(server.wire) <= Cancels(old(server.wire)) + if r.Success? then 0 else 1
    {
      NothingSubmitted(InvalidInput);
      NothingSubmitted(InvalidConfig);
      var estimate := false;
      if Text.EqIgnoreAsciiCase(payload.jobType, "execute") {
      } else if Text.EqIgnoreAsciiCase(payload.jobType, "estimate") {
        if Text.Trim(payload.observables) == "" {
          return Failure(InvalidInput), None;
        }
        estimate := true;
      } else {
        return Failure(InvalidInput), None;
      }
      if Text.Trim(payload.input) == "" || payload.qubits == 0 {
        return Failure(InvalidInput), None;
      }
      match json(payload.config) {
        case Object(_) =>
        case _ => return Failure(InvalidInput), None;
      }
      if sessionId.None? {
        return Failure(InvalidConfig), None;
      }
      r, made := SubmitJob(Legacy(sessionId.value, estimate));
    }

    method SubmitJob(job: Legacy) returns (r: Result<string, ErrorKind>, ghost made: Option<nat>)
      requires Valid() && sessionId == Some(job.session)
      modifies this`terminalTasks, this`origin, server
      ensures Valid() && Submitted(r, made)
      ensures r.Failure? ==> r.error == Other && server.troubles > old(server.troubles)
      ensures old(server.wire) <= server.wire
      ensures LegacyExchanges(server.wire[|old(server.wire)|..], job.estimate, r.Success?)
      ensures Cancels(old(server.wire)) <= Cancels(server.wire) && Handed(server.wire) == Handed(old(server.wire))
      ensures Cancels(server.wire) <= Cancels(old(server.wire)) + if r.Success? then 0 else 1
    {
      var task, mid, created := SubmitLegacy(job);
      made := if created.Some? then Some(mid.next) else None;
      if task.Failure? {
        r := Failure(task.error);
      } else {
        var k := Key(job.session, task.value);
        terminalTasks, origin := terminalTasks - {k}, origin - {k};
        r := Success(Text.Decimal(task.value));
      }
      SubmissionDone(r, mid, created);
    }

    /** After the exchanges of a submission, and after forgetting what was remembered under a returned id. */
    twostate lemma SubmissionDone(new r: Result<string, ErrorKind>, new mid: World, new created: Option<Key>)
      requires old(Valid()) && sessionId == old(sessionId) && sessionId.Some?
      requires Submission(old(server.world), sessionId.value, r.Success?, mid, created, server.world)
      requires server.mine == old(server.mine) + if created.Some? then {mid.next} else {}
      requires r.Failure? ==> unchanged(this) && (r.error != Other ==> created.None?)
      requires r.Success? ==>
                 && r.value == Text.Decimal(created.value.task)
                 && terminalTasks == old(terminalTasks) - {created.value} && origin == old(origin) - {created.value}
      ensures Valid() && Submitted(r, if created.Some? then Some(mid.next) else None)
    {
      AfterSubmission(old(server.world), mid, server.world, sessionId, created, old(terminalTasks), old(origin));
      if r.Success? {
        forall j | j in origin
          ensures EntryOk(server.world, sessionId, j, terminalTasks[j], origin[j])
          ensures old(Fresh()) ==> Current(server.world, j, origin[j])
        {
          assert EntryOk(server.world, sessionId, j, old(terminalTasks)[j], old(origin)[j]);
        }
      }
    }
  }

  /**
   * What a submission may come to, whichever way it is made: others step until `mid`, then perhaps
   * a task is created in the session, then others step on; an id is returned only of that task.
   */
  ghost predicate Submission(w: World, session: u32, ok: bool, mid: World, made: Option<Key>, w': World) {
    && mid.Valid() && w'.Valid() && Rely(w, mid, Some(session))
    && (made.Some? ==> CanCreate(mid, session, made.value))
    && (ok ==> made.Some?)
    && Rely(if made.Some? then mid.Create(made.value) else mid, w', Some(session))
  }

  /** The entries that are left afterwards are about the newest tasks of their ids. */
  ghost predicate LeavesCurrent(origin: Origin, ok: bool, made: Option<Key>, w': World)
    requires ok ==> made.Some?
  {
    AllCurrent(w', if ok then origin - {made.value} else origin)
  }

  /**
   * Before the call: every outcome of a submission leaves only current entries exactly if nothing
   * is cached or the session is over.
   */
  lemma SubmissionSafeExactly(w: World, session: u32, cache: Cache, origin: Origin)
    requires w.Valid() && CacheOk(w, Some(session), cache, origin) && AllCurrent(w, origin)
    ensures (forall ok, mid, made, w' :: Submission(w, session, ok, mid, made, w') ==>
                                           LeavesCurrent(origin, ok, made, w'))
            <==> cache == map[] || session !in w.sessions
  {
    if cache == map[] || session !in w.sessions {
      forall ok, mid, made, w' | Submission(w, session, ok, mid, made, w')
        ensures LeavesCurrent(origin, ok, made, w')
      {
        SafeSubmission(w, session, cache, origin, ok, mid, made, w');
      }
    } else {
      var k :| k in cache;
      var mid, w' := OvertakingSubmit(w, cache, origin, k);
      assert Submission(w, session, false, mid, Some(k), w') && !LeavesCurrent(origin, false, Some(k), w');
    }
  }

  lemma SafeSubmission(w: World, session: u32, cache: Cache, origin: Origin, ok: bool, mid: World,
                       made: Option<Key>, w': World)
    requires w.Valid() && CacheOk(w, Some(session), cache, origin) && AllCurrent(w, origin)
    requires Submission(w, session, ok, mid, made, w') && (cache == map[] || session !in w.sessions)
    ensures LeavesCurrent(origin, ok, made, w')
  {
    if cache != map[] {
      var k :| k in cache;
      assert EntryOk(w, Some(session), k, cache[k], origin[k]) && KeyKept(w, mid, k);
      CacheKept(w, mid, Some(session), cache, origin);
      CurrentKept(w, mid, Some(session), cache, origin);
      CurrentKept(mid, w', Some(session), cache, origin);
    }
  }

  /** Others fetch a cached task; its id is given to a SUBMIT that is answered with an error of unknown meaning. */
  lemma OvertakingSubmit(w: World, cache: Cache, origin: Origin, k: Key) returns (mid: World, w': World)
    requires w.Valid() && CacheOk(w, Some(k.session), cache, origin) && AllCurrent(w, origin)
    requires k in cache && k.session in w.sessions
    ensures Submission(w, k.session, false, mid, Some(k), w')
    ensures SubmitOutcome(w, w', k.session, Some(k.session), Declined("lost"), mid, Some(k))
    ensures ErrorOfCode("lost") == Other && !AllCurrent(w', origin)
  {
    var held := Some(k.session);
    mid := Removed(w, k, cache[k], origin[k]) by {
      assert EntryOk(w, held, k, cache[k], origin[k]) && Current(w, k, origin[k]) && w.KeyOk(k);
    }
    assert CanCreate(mid, k.session, k);
    w' := mid.Create(k);
    CacheKept(w, mid, held, cache, origin);
    CurrentKept(w, mid, held, cache, origin);
    CreateMakesStale(mid, held, cache, origin, k);
    CreateKeepsValid(mid, k);
    RelyReflexive(w', held);
  }

  /** Others can bring about that a settled task is removed from the server. */
  lemma Removed(w: World, k: Key, s: TaskStatus, n: nat) returns (mid: World)
    requires w.Valid() && k in w.latest && w.latest[k] == n && w.Settled(n, s)
    ensures mid.Valid() && Rely(w, mid, Some(k.session)) && k !in mid.tasks && k.session in mid.sessions
  {
    var held := Some(k.session);
    assert w.KeyOk(k);
    var actions := if k !in w.tasks then []
                   else if w.tasks[k].finished then [FetchResult(k)] else [Finish(k, ""), FetchResult(k)];
    mid := Run(w, held, actions);
    RunRely(w, held, actions);
    if k in w.tasks {
      var finished := if w.tasks[k].finished then w else Step(w, Finish(k, ""));
      assert [Finish(k, ""), FetchResult(k)][1..] == [FetchResult(k)] && [FetchResult(k)][1..] == [];
      assert Run(w, held, actions) == Run(finished, held, [FetchResult(k)]);
      assert Run(finished, held, [FetchResult(k)]) == Run(finished.Fetch(k), held, []);
    }
  }

  lemma AfterSubmission(w0: World, mid: World, w: World, held: Option<u32>, made: Option<Key>, cache: Cache,
                        origin: Origin)
    requires w0.Valid() && mid.Valid() && w.Valid() && Rely(w0, mid, held) && CacheOk(w0, held, cache, origin)
    requires made.Some? ==> held == Some(made.value.session) && CanCreate(mid, made.value.session, made.value)
    requires Rely(if made.Some? then mid.Create(made.value) else mid, w, held)
    ensures History(w0, w) && CacheOk(w, held, cache, origin)
    ensures made.Some? ==>
              && mid.next !in w0.owner && mid.next in w.owner && w.owner[mid.next] == made.value
              && Current(w, made.value, mid.next)
    ensures AllCurrent(w0, origin) ==>
              && (forall j :: j in origin && Some(j) != made ==> Current(w, j, origin[j]))
              && (!AllCurrent(w, origin) <==>
                    made.Some? && made.value in cache && made.value.session in w.sessions)
  {
    var created := if made.Some? then mid.Create(made.value) else mid;
    CacheKept(w0, mid, held, cache, origin);
    if made.Some? {
      CreateKeepsValid(mid, made.value);
      assert w0.SerialOk(mid.next);
      assert SerialKept(created, w, mid.next);
      StillCurrent(created, w, made.value, mid.next);
    } else {
      RelyReflexive(mid, held);
    }
    HistoryTransitive(mid, created, w);
    HistoryTransitive(w0, mid, w);
    CacheKept(mid, w, held, cache, origin);
    if AllCurrent(w0, origin) {
      CurrentKept(w0, mid, held, cache, origin);
      forall j | j in origin && Some(j) != made ensures Current(w, j, origin[j]) {
        assert EntryOk(mid, held, j, cache[j], origin[j]) && Current(mid, j, origin[j]);
        assert Current(created, j, origin[j]) && KeyKept(created, w, j) && w.KeyOk(j);
      }
      StaleExactlyUnderNewId(mid, w, held, made, cache, origin);
    }
  }

  /** If `k` named a task in `w`, that was `n`; otherwise its session was at least live. */
  ghost predicate NewestBefore(w: World, k: Key, n: nat) {
    if k in w.latest then w.latest[k] == n else k.session in w.sessions
  }

  lemma NewestEarlier(w: World, w': World, k: Key, n: nat)
    requires w.Valid() && w'.Valid() && Rely(w, w', Some(k.session)) && NewestBefore(w', k, n)
    ensures NewestBefore(w, k, n)
  {
    assert KeyKept(w, w', k) && w.KeyOk(k) && w'.KeyOk(k);
  }

  /** A task that is the newest one of its id in the held session stays that, whatever others do. */
  lemma StillCurrent(w: World, w': World, k: Key, n: nat)
    requires w'.Valid() && Rely(w, w', Some(k.session)) && Current(w, k, n)
    ensures Current(w', k, n)
  {
    assert KeyKept(w, w', k) && w'.KeyOk(k);
  }

  /** The second half of `AfterSubmission`: the new task overtakes the entry of its id, if its session is live. */
  lemma StaleExactlyUnderNewId(mid: World, w: World, held: Option<u32>, made: Option<Key>, cache: Cache,
                               origin: Origin)
    requires w.Valid() && mid.Valid() && CacheOk(mid, held, cache, origin)
    requires made.Some? ==> Current(w, made.value, mid.next)
    requires forall j :: j in origin && Some(j) != made ==> Current(w, j, origin[j])
    ensures !AllCurrent(w, origin) <==>
              made.Some? && made.value in cache && made.value.session in w.sessions
  {
    if made.Some? && made.value in cache {
      var k := made.value;
      assert EntryOk(mid, held, k, cache[k], origin[k]);
      assert mid.SerialOk(origin[k]) && w.KeyOk(k);
      assert Current(w, k, origin[k]) <==> k.session !in w.sessions;
    }
  }

  /**
   * The situation exists: a completed and fetched task, whose id the server gives to a submission
   * that it then answers with an error of unknown meaning, reported as Other.
   */
  lemma StaleEntryExample(k: Key) returns (w: World, cache: Cache, origin: Origin, r: Coded<u32>)
    ensures w.Valid() && CacheOk(w, Some(k.session), cache, origin) && AllCurrent(w, origin)
    ensures k in cache && cache[k] == Completed
    ensures r.Declined? && ErrorOfCode(r.code) == Other
    ensures SubmitOutcome(w, w.Create(k), k.session, Some(k.session), r, w, Some(k))
    ensures var w' := w.Create(k); !AllCurrent(w', origin) && w'.latest[k] !in w'.ledger
  {
    w := World({k.session}, map[], map[k := 0], map[k := ["running", "finished"]],
               map[0 := k], map[0 := Outcome(Completed, "")], {0}, 1);
    cache, origin, r := map[k := Completed], map[k := 0], Declined("lost");
    forall j ensures w.KeyOk(j) {}
    forall n ensures w.SerialOk(n) {}
    assert EntryOk(w, Some(k.session), k, Completed, 0);
    CreateMakesStale(w, Some(k.session), cache, origin, k);
    CreateKeepsValid(w, k);
    RelyReflexive(w, Some(k.session));
  }

  lemma NoSessionNoEntries(w: World, cache: Cache, origin: Origin)
    requires CacheOk(w, None, cache, origin)
    ensures cache == map[]
  {
  }

  lemma NotDeliveredBefore(w: World, w': World, n: nat)
    requires History(w, w') && n !in w'.delivered
    ensures n !in w.delivered
  {
    assert SerialKept(w, w', n);
  }

  /** If there was such a task, it had neither failed nor finished. */
  ghost predicate NotEnded(w: World, k: Key) {
    k in w.tasks ==> !w.tasks[k].failed && !w.tasks[k].finished
  }

  lemma UnendedBefore(w: World, w': World, k: Key)
    requires w.Valid() && Rely(w, w', Some(k.session))
    requires k in w'.tasks && !w'.tasks[k].failed && !w'.tasks[k].finished
    ensures NotEnded(w, k)
  {
    assert w.KeyOk(k) && KeyKept(w, w', k);
  }

  /** A task that the client could know of before is not there any more. */
  ghost predicate Missing(before: World, k: Key, now: World) {
    k in before.latest ==> k !in now.tasks
  }

  /** A key of the held session that named a task before is not given to another one. */
  lemma GoneStaysGone(w0: World, w: World, w': World, k: Key)
    requires w'.Valid() && Rely(w0, w, Some(k.session)) && Rely(w, w', Some(k.session))
    requires k in w0.latest && k !in w.tasks
    ensures k !in w'.tasks
  {
    assert KeyKept(w0, w, k) && KeyKept(w, w', k) && w'.KeyOk(k);
  }

  lemma MissingKept(w0: World, w: World, w': World, k: Key)
    requires w'.Valid() && Rely(w0, w, Some(k.session)) && Rely(w, w', Some(k.session)) && k !in w.tasks
    ensures Missing(w0, k, w')
  {
    if k in w0.latest {
      GoneStaysGone(w0, w, w', k);
    }
  }

  lemma MissingEarlier(w0: World, w: World, w': World, k: Key)
    requires w'.Valid() && Rely(w0, w, Some(k.session)) && Rely(w, w', Some(k.session))
    ensures Missing(w, k, w') ==> Missing(w0, k, w')
  {
    assert KeyKept(w0, w, k) && KeyKept(w, w', k) && w'.KeyOk(k);
  }
}

/**
 * What a Maestro server keeps, and how it moves while this client is not looking: its workers
 * make progress and other clients submit, fetch, cancel and close sessions.
 */
module MaestroWorld {
  import opened Wrappers

  datatype TaskStatus = Queued | Running | Completed | Failed | Cancelled {
    predicate Terminal() { Completed? || Failed? || Cancelled? }
  }

  /** A task as clients name it. Ids are recycled, so a key can name several tasks over time. */
  datatype Key = Key(session: u32, task: u32)

  /** How a task ended. Only a completed task has a result. */
  datatype Outcome = Outcome(status: TaskStatus, result: string)

  /** A task the server still holds. `serial` tells apart the tasks that ever had the same key. */
  datatype Task = Task(serial: nat, running: bool, finished: bool, failed: bool)

  const CANCELLED := "cancelled"

  datatype World = World(
    sessions: set<u32>,            // the live sessions
    tasks: map<Key, Task>,         // the tasks the server still holds
    latest: map<Key, nat>,         // the newest serial of every key used in a live session
    events: map<Key, seq<string>>, // the diagnostics retained for that serial
    owner: map<nat, Key>,          // every serial ever given out
    ledger: map<nat, Outcome>,     // outcomes, once settled
    delivered: set<nat>,           // serials whose result left the server
    next: nat)
  {
    /** The retained diagnostics of `k` end with a cancellation. */
    predicate CancelledLast(k: Key) {
      k in events && events[k] != [] && events[k][|events[k]| - 1] == CANCELLED
    }

    predicate Settled(n: nat, s: TaskStatus) {
      n in ledger && ledger[n].status == s
    }

    ghost predicate KeyOk(k: Key) {
      && (k in latest <==> k in events)
      && (k in tasks ==> k in latest && tasks[k].serial == latest[k])
      && (k in latest ==>
            var n := latest[k];
            && k.session in sessions && n in owner && owner[n] == k
            && (k !in tasks ==> n in ledger)
            && (k in tasks ==>
                  && n !in delivered
                  && (tasks[k].failed ==> Settled(n, Failed))
                  && (!tasks[k].failed && tasks[k].finished ==> Settled(n, Completed))
                  && (!tasks[k].failed && !tasks[k].finished ==> n !in ledger))
            && (CancelledLast(k) ==> Settled(n, Cancelled)))
    }

    ghost predicate SerialOk(n: nat) {
      && (n in owner ==> n < next)
      && (n in ledger ==> n in owner && ledger[n].status.Terminal())
      && (n in delivered ==> n in ledger)
    }

    ghost predicate Valid() {
      && (forall k :: KeyOk(k))
      && (forall n :: SerialOk(n))
    }

    /** A new task under `k`; a recycled key starts with fresh diagnostics. */
    function Create(k: Key): World {
      this.(tasks := tasks[k := Task(next, false, false, false)], latest := latest[k := next],
            events := events[k := []], owner := owner[next := k], next := next + 1)
    }

    function Note(k: Key, t: Task, event: string): World {
      this.(tasks := tasks[k := t],
            events := events[k := (if k in events then events[k] else []) + [event]])
    }

    function Settle(n: nat, s: TaskStatus, result: string): World {
      this.(ledger := ledger[n := Outcome(s, result)])
    }

    /** GET_RESULTS hands the result over and removes the task. */
    predicate CanFetch(k: Key) { k in tasks && tasks[k].finished }

    function Fetch(k: Key): World
      requires CanFetch(k)
    {
      this.(tasks := tasks - {k}, delivered := delivered + {tasks[k].serial})
    }

    /** A successful CANCEL stops a task that has not settled, records it and removes the task. */
    predicate CanCancel(k: Key) { k in tasks && !tasks[k].finished && !tasks[k].failed }

    function Cancel(k: Key): World
      requires CanCancel(k)
    {
      var w := Note(k, tasks[k], CANCELLED).Settle(tasks[k].serial, Cancelled, "");
      w.(tasks := w.tasks - {k})
    }

    /** A session ends with its tasks and their diagnostics. */
    function EndSession(s: u32): World {
      this.(sessions := sessions - {s},
            tasks := map k | k in tasks && k.session != s :: tasks[k],
            latest := map k | k in latest && k.session != s :: latest[k],
            events := map k | k in events && k.session != s :: events[k])
    }
  }

  /** One step of the server's workers or of another client. */
  datatype Action =
    | Begin(k: Key)
    | Fail(k: Key)
    | Finish(k: Key, result: string)
    | FetchResult(k: Key)
    | CancelTask(k: Key)
    | CreateTask(k: Key)
    | CloseSession(s: u32)
    | OpenSession(s: u32)

  /**
   * What others may do while this client holds session `held`. A key of a live session is
   * recycled only by this client, and a held session id is not recycled; failure is settled
   * once the task has finished.
   */
  predicate Enabled(w: World, held: Option<u32>, a: Action) {
    Possible(w, a) && (a.OpenSession? ==> held != Some(a.s))
  }

  predicate Possible(w: World, a: Action) {
    match a
    case Begin(k) => k in w.tasks && !w.tasks[k].finished
    case Fail(k) => k in w.tasks && !w.tasks[k].finished && !w.tasks[k].failed
    case Finish(k, _) => k in w.tasks && !w.tasks[k].finished
    case FetchResult(k) => w.CanFetch(k)
    case CancelTask(k) => w.CanCancel(k)
    case CreateTask(k) => k.session in w.sessions && k !in w.latest
    case CloseSession(_) => true
    case OpenSession(s) => s !in w.sessions
  }

  function Step(w: World, a: Action): World
    requires Possible(w, a)
  {
    match a
    case Begin(k) => w.Note(k, w.tasks[k].(running := true), "running")
    case Fail(k) => w.Note(k, w.tasks[k].(failed := true), "failed").Settle(w.tasks[k].serial, Failed, "")
    case Finish(k, result) =>
      var t := w.tasks[k];
      var done := w.Note(k, t.(running := false, finished := true), "finished");
      if t.failed then done else done.Settle(t.serial, Completed, result)
    case FetchResult(k) => w.Fetch(k)
    case CancelTask(k) => w.Cancel(k)
    case CreateTask(k) => w.Create(k)
    case CloseSession(s) => w.EndSession(s)
    case OpenSession(s) => w.(sessions := w.sessions + {s})
  }

  /** Any finite number of steps of others; a step that is not possible is skipped. */
  function Run(w: World, held: Option<u32>, actions: seq<Action>): World
    decreases actions
  {
    if actions == [] then w
    else
      var rest := actions[1..];
      if Enabled(w, held, actions[0]) then Run(Step(w, actions[0]), held, rest) else Run(w, held, rest)
  }

  // ----- what a client may rely on -----------------------------------------------------------

  /** Nothing about a past task is ever rewritten. */
  ghost predicate SerialKept(w: World, w': World, n: nat) {
    && (n in w.owner ==> n in w'.owner && w'.owner[n] == w.owner[n])
    && (n in w.ledger ==> n in w'.ledger && w'.ledger[n] == w.ledger[n])
    && (n in w.delivered ==> n in w'.delivered)
  }

  ghost predicate History(w: World, w': World) {
    w.next <= w'.next && forall n :: SerialKept(w, w', n)
  }

  /** A key of the held session keeps naming one task, which only moves forward. */
  ghost predicate KeyKept(w: World, w': World, k: Key) {
    && (k.session !in w.sessions ==> k.session !in w'.sessions)
    && (k in w.latest ==> if k in w'.latest then w'.latest[k] == w.latest[k] else k.session !in w'.sessions)
    && (k in w'.latest && k !in w.latest ==> w'.latest[k] >= w.next)
    && (k in w.latest && k in w'.tasks ==>
          && k in w.tasks
          && (w.tasks[k].finished ==> w'.tasks[k].finished)
          && (w.tasks[k].failed ==> w'.tasks[k].failed))
  }

  ghost predicate Rely(w: World, w': World, held: Option<u32>) {
    && History(w, w')
    && forall k: Key | held == Some(k.session) :: KeyKept(w, w', k)
  }

  lemma HistoryTransitive(a: World, b: World, c: World)
    requires History(a, b) && History(b, c)
    ensures History(a, c)
  {
    forall n ensures SerialKept(a, c, n) {
      assert SerialKept(a, b, n) && SerialKept(b, c, n);
    }
  }

  lemma RelyTransitive(a: World, b: World, c: World, held: Option<u32>)
    requires c.Valid() && b.Valid() && Rely(a, b, held) && Rely(b, c, held)
    ensures Rely(a, c, held)
  {
    HistoryTransitive(a, b, c);
    forall k: Key | held == Some(k.session) ensures KeyKept(a, c, k) {
      assert KeyKept(a, b, k) && KeyKept(b, c, k) && b.KeyOk(k) && c.KeyOk(k);
    }
  }

  lemma RelyReflexive(w: World, held: Option<u32>)
    requires w.Valid()
    ensures Rely(w, w, held)
  {
    forall n ensures SerialKept(w, w, n) {}
    forall k: Key | held == Some(k.session) ensures KeyKept(w, w, k) {
      assert w.KeyOk(k);
    }
  }

  lemma StepKeepsValid(w: World, held: Option<u32>, a: Action)
    requires w.Valid() && Enabled(w, held, a)
    ensures Step(w, a).Valid()
  {
    var w' := Step(w, a);
    forall n ensures w'.SerialOk(n) {
      assert w.SerialOk(n);
      if a.Fail? || a.Finish? || a.CancelTask? || a.FetchResult? {
        assert w.KeyOk(a.k) && w.SerialOk(w.tasks[a.k].serial);
      }
    }
    forall k ensures w'.KeyOk(k) {
      StepKeepsKey(w, held, a, k);
    }
  }

  lemma StepKeepsKey(w: World, held: Option<u32>, a: Action, k: Key)
    requires w.Valid() && Enabled(w, held, a)
    ensures Step(w, a).KeyOk(k)
  {
    assert w.KeyOk(k) && w.SerialOk(w.next);
    if k in w.latest {
      assert w.SerialOk(w.latest[k]);
    }
    if a.Fail? || a.Finish? || a.CancelTask? || a.FetchResult? || a.Begin? {
      assert w.KeyOk(a.k) && w.SerialOk(w.tasks[a.k].serial);
    }
  }

  lemma StepRely(w: World, held: Option<u32>, a: Action)
    requires w.Valid() && Enabled(w, held, a)
    ensures Rely(w, Step(w, a), held)
  {
    var w' := Step(w, a);
    forall n ensures SerialKept(w, w', n) {
      assert w.SerialOk(n);
      if a.Fail? || a.Finish? || a.CancelTask? {
        assert w.KeyOk(a.k);
      }
    }
    forall k: Key | held == Some(k.session) ensures KeyKept(w, w', k) {
      assert w.KeyOk(k);
    }
  }

  /** Whatever others do, in any order and number, stays within the relation a client relies on. */
  lemma {:induction false} RunRely(w: World, held: Option<u32>, actions: seq<Action>)
    requires w.Valid()
    ensures Run(w, held, actions).Valid() && Rely(w, Run(w, held, actions), held)
    decreases actions
  {
    if actions == [] {
      RelyReflexive(w, held);
    } else if Enabled(w, held, actions[0]) {
      var w1 := Step(w, actions[0]);
      StepKeepsValid(w, held, actions[0]);
      StepRely(w, held, actions[0]);
      RunRely(w1, held, actions[1..]);
      RelyTransitive(w, w1, Run(w1, held, actions[1..]), held);
    } else {
      RunRely(w, held, actions[1..]);
    }
  }

  // ----- the status reads, as pure observations ----------------------------------------------

  /** FAILED, FINISHED, FAILED on three successive worlds, as the client evaluates them. */
  function ThreeReads(w1: World, w2: World, w3: World, k: Key): Option<TaskStatus>
    requires k in w1.tasks && k in w2.tasks && k in w3.tasks
  {
    if w1.tasks[k].failed then Some(Failed)
    else if !w2.tasks[k].finished then None
    else if w3.tasks[k].failed then Some(Failed) else Some(Completed)
  }

  /** The same without reading FAILED again. */
  function TwoReads(w1: World, w2: World, k: Key): Option<TaskStatus>
    requires k in w1.tasks && k in w2.tasks
  {
    if w1.tasks[k].failed then Some(Failed)
    else if !w2.tasks[k].finished then None else Some(Completed)
  }

  /** With others free to step between the reads, the answer is the outcome the task settled on. */
  lemma ThreeReadsMatchOutcome(w1: World, k: Key, between: seq<Action>, before: seq<Action>)
    requires w1.Valid() && k in w1.tasks
    requires var w2 := Run(w1, Some(k.session), between); k in w2.tasks && k in Run(w2, Some(k.session), before).tasks
    ensures
      var w2 := Run(w1, Some(k.session), between);
      var w3 := Run(w2, Some(k.session), before);
      var answer := ThreeReads(w1, w2, w3, k);
      answer.Some? ==> w3.Settled(w1.tasks[k].serial, answer.value)
  {
    var held := Some(k.session);
    var w2 := Run(w1, held, between);
    var w3 := Run(w2, held, before);
    RunRely(w1, held, between);
    RunRely(w2, held, before);
    assert w1.KeyOk(k) && w2.KeyOk(k) && w3.KeyOk(k);
    assert KeyKept(w1, w2, k) && KeyKept(w2, w3, k);
  }

  /** Reading FAILED only once reports Completed for a task that fails between the reads. */
  lemma TwoReadsCanMissFailure(k: Key) returns (w1: World, between: seq<Action>)
    ensures w1.Valid() && k in w1.tasks
    ensures
      var w2 := Run(w1, Some(k.session), between);
      && k in w2.tasks
      && TwoReads(w1, w2, k) == Some(Completed)
      && w2.Settled(w1.tasks[k].serial, Failed)
  {
    var empty := World({k.session}, map[], map[], map[], map[], map[], {}, 0);
    assert empty.Valid() by {
      forall j ensures empty.KeyOk(j) {}
      forall n ensures empty.SerialOk(n) {}
    }
    var held := Some(k.session);
    var create := CreateTask(k);
    StepKeepsValid(empty, held, create);
    w1 := Step(empty, create);
    between := [Fail(k), Finish(k, "")];
    var w2 := Step(w1, Fail(k));
    assert between[1..] == [Finish(k, "")];
    assert Enabled(w1, held, Fail(k)) && Enabled(w2, held, Finish(k, ""));
    assert Run(w2, held, between[1..]) == Step(w2, Finish(k, ""));
  }
}

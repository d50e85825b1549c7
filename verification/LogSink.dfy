/**
 * The log sink: any number of threads log records and replace the sink, and a sink may itself do
 * both. The lock is modelled explicitly; a frame of a thread's stack is a call in progress. Sinks
 * are counted references: the destructor of a replaced one runs when its last reference goes.
 */
module LogSink {
  import opened Wrappers

  type Sink = nat
  type Thread = nat

  /** Versions count the values `LOG_SINK` has had; `since` is the version when the record's dispatch began. */
  datatype Frame =
    | WantRead(since: nat)
    | HoldRead(since: nat)
    | Cloned(since: nat, at: nat)               // still holding, with a copy of version `at`
    | InSink(since: nat, at: nat, sink: Sink)   // the copy is being called
    | WantWrite(next: Option<Sink>)
    | HoldWrite(next: Option<Sink>)
    | Dropping(replaced: nat)                        // still holding, in the destructor of version `replaced`
    | Assigned                                  // still holding
  {
    predicate Reads() { HoldRead? || Cloned? }
    predicate Writes() { HoldWrite? || Dropping? || Assigned? }
    predicate Holds() { Reads() || Writes() }
  }

  /** A record handed on: between versions `since` and `until`, to what version `at` was. */
  datatype Delivery = Delivery(since: nat, at: nat, until: nat, target: Option<Sink>)

  datatype State = State(stacks: map<Thread, seq<Frame>>, readers: set<Thread>, writer: Option<Thread>,
                         versions: seq<Option<Sink>>, deliveries: seq<Delivery>)
  {
    function Stack(t: Thread): seq<Frame> { if t in stacks then stacks[t] else [] }

    /** The code the thread is executing. */
    function Top(t: Thread): Option<Frame> {
      var s := Stack(t);
      if s == [] then None else Some(s[|s| - 1])
    }

    predicate At(t: Thread, p: Frame -> bool) { Top(t).Some? && p(Top(t).value) }

    function Push(t: Thread, f: Frame): State { this.(stacks := stacks[t := Stack(t) + [f]]) }

    function Replace(t: Thread, f: Frame): State
      requires Top(t).Some?
    {
      var s := Stack(t);
      this.(stacks := stacks[t := s[..|s| - 1] + [f]])
    }

    function Pop(t: Thread): State
      requires Top(t).Some?
    {
      var s := Stack(t);
      this.(stacks := stacks[t := s[..|s| - 1]])
    }

    function Now(): nat
      requires versions != []
    {
      |versions| - 1
    }
  }

  datatype Action =
    | Log(t: Thread)                        // a thread or a sink logs
    | SetSink(t: Thread, sink: Option<Sink>) // a thread or a sink replaces the sink
    | Return(t: Thread)                     // a sink returns
    | TakeRead(t: Thread)
    | Clone(t: Thread)
    | DropRead(t: Thread)
    | TakeWrite(t: Thread)
    | Assign(t: Thread)
    | FinishDrop(t: Thread)                 // a destructor returns
    | DropWrite(t: Thread)

  /** User code runs: the thread is idle or inside a sink. */
  predicate UserCode(s: State, t: Thread) {
    s.Top(t).None? || s.Top(t).value.InSink?
  }

  predicate WriterWaits(s: State) {
    exists t :: t in s.stacks && s.At(t, (f: Frame) => f.WantWrite?)
  }

  /** `fair`: a waiting writer keeps new readers out, which the standard library leaves open. */
  predicate Enabled(s: State, fair: bool, a: Action) {
    s.versions != [] &&
    match a
    case Log(t) => UserCode(s, t)
    case SetSink(t, _) => UserCode(s, t)
    case Return(t) => s.At(t, (f: Frame) => f.InSink?)
    case TakeRead(t) => s.At(t, (f: Frame) => f.WantRead?) && s.writer.None? && (fair ==> !WriterWaits(s))
    case Clone(t) => s.At(t, (f: Frame) => f.HoldRead?)
    case DropRead(t) => s.At(t, (f: Frame) => f.Cloned?) && s.Top(t).value.at < |s.versions|
    case TakeWrite(t) => s.At(t, (f: Frame) => f.WantWrite?) && s.writer.None? && s.readers == {}
    case Assign(t) => s.At(t, (f: Frame) => f.HoldWrite?)
    case FinishDrop(t) => s.At(t, (f: Frame) => f.Dropping?)
    case DropWrite(t) => s.At(t, (f: Frame) => f.Assigned?)
  }

  /** Whether a call in progress uses this version of the sink. */
  ghost predicate InUse(s: State, version: nat) {
    exists t, i :: t in s.stacks && 0 <= i < |s.stacks[t]| && s.stacks[t][i].InSink? && s.stacks[t][i].at == version
  }

  /** Whether `LOG_SINK` holds a sink, and the only reference to it while the write lock is held. */
  ghost predicate LastReference(s: State)
    requires s.versions != []
  {
    s.versions[s.Now()].Some? && !InUse(s, s.Now())
  }

  ghost function Step(s: State, a: Action): State
    requires Enabled(s, false, a)
  {
    match a
    case Log(t) => s.Push(t, WantRead(s.Now()))
    case SetSink(t, sink) => s.Push(t, WantWrite(sink))
    case Return(t) => s.Pop(t)
    case TakeRead(t) => s.Replace(t, HoldRead(s.Top(t).value.since)).(readers := s.readers + {t})
    case Clone(t) => s.Replace(t, Cloned(s.Top(t).value.since, s.Now()))
    case DropRead(t) =>
      var f := s.Top(t).value;
      var target := s.versions[f.at];
      var next := if target.Some? then s.Replace(t, InSink(f.since, f.at, target.value)) else s.Pop(t);
      next.(readers := s.readers - {t}, deliveries := s.deliveries + [Delivery(f.since, f.at, s.Now(), target)])
    case TakeWrite(t) => s.Replace(t, HoldWrite(s.Top(t).value.next)).(writer := Some(t))
    case Assign(t) =>
      var next := if LastReference(s) then Dropping(s.Now()) else Assigned;
      s.Replace(t, next).(versions := s.versions + [s.Top(t).value.next])
    case FinishDrop(t) => s.Replace(t, Assigned)
    case DropWrite(t) => s.Pop(t).(writer := None)
  }

  const INITIAL := State(map[], {}, None, [None], [])

  ghost function Run(s: State, fair: bool, actions: seq<Action>): State
    decreases actions
  {
    if actions == [] then s
    else if Enabled(s, fair, actions[0]) then Run(Step(s, actions[0]), fair, actions[1..])
    else Run(s, fair, actions[1..])
  }

  // ----- the invariant ----------------------------------------------------------------------------

  /** A copy in use is of a version current during the dispatch. */
  predicate FrameOk(f: Frame, versions: seq<Option<Sink>>) {
    match f
    case WantRead(since) => since < |versions|
    case HoldRead(since) => since < |versions|
    case Cloned(since, at) => since <= at < |versions|
    case InSink(since, at, sink) => since <= at < |versions| && versions[at] == Some(sink)
    case _ => true
  }

  ghost predicate ThreadOk(s: State, t: Thread) {
    var stack := s.Stack(t);
    && (forall i :: 0 <= i < |stack| ==> FrameOk(stack[i], s.versions))
    && (forall i :: 0 <= i < |stack| - 1 ==> stack[i].InSink?)
    && (t in s.readers <==> s.Top(t).Some? && s.Top(t).value.Reads())
    && (s.writer == Some(t) <==> s.Top(t).Some? && s.Top(t).value.Writes())
  }

  predicate DeliveryOk(d: Delivery, versions: seq<Option<Sink>>) {
    d.since <= d.at <= d.until < |versions| && versions[d.at] == d.target
  }

  ghost predicate Inv(s: State) {
    && s.versions != []
    && (s.writer.Some? ==> s.readers == {})
    && (forall t :: ThreadOk(s, t))
    && (forall i :: 0 <= i < |s.deliveries| ==> DeliveryOk(s.deliveries[i], s.versions))
  }

  lemma StepKeepsThread(s: State, a: Action, t: Thread)
    requires Inv(s) && Enabled(s, false, a)
    ensures ThreadOk(Step(s, a), t)
  {
    if t == a.t {
      StepKeepsActor(s, a);
    } else {
      assert ThreadOk(s, t) && ThreadOk(s, a.t);
      assert Step(s, a).Stack(t) == s.Stack(t);
      assert forall f :: FrameOk(f, s.versions) ==> FrameOk(f, Step(s, a).versions);
    }
  }

  lemma StepKeepsActor(s: State, a: Action)
    requires Inv(s) && Enabled(s, false, a)
    ensures ThreadOk(Step(s, a), a.t)
  {
    assert ThreadOk(s, a.t);
    var before, after := s.Stack(a.t), Step(s, a).Stack(a.t);
    assert forall f :: FrameOk(f, s.versions) ==> FrameOk(f, Step(s, a).versions);
    forall i | 0 <= i < |after| - 1 ensures after[i].InSink? {
      assert after[i] == before[i];
    }
  }

  lemma StepKeepsInv(s: State, a: Action)
    requires Inv(s) && Enabled(s, false, a)
    ensures Inv(Step(s, a))
  {
    var s' := Step(s, a);
    forall t ensures ThreadOk(s', t) {
      StepKeepsThread(s, a, t);
    }
    assert ThreadOk(s, a.t);
    forall i | 0 <= i < |s'.deliveries| ensures DeliveryOk(s'.deliveries[i], s'.versions) {
      if i < |s.deliveries| { assert DeliveryOk(s.deliveries[i], s.versions); }
    }
  }

  lemma {:induction false} RunKeepsInv(s: State, fair: bool, actions: seq<Action>)
    requires Inv(s)
    ensures Inv(Run(s, fair, actions))
    decreases actions
  {
    if actions != [] {
      if Enabled(s, fair, actions[0]) {
        StepKeepsInv(s, actions[0]);
        RunKeepsInv(Step(s, actions[0]), fair, actions[1..]);
      } else {
        RunKeepsInv(s, fair, actions[1..]);
      }
    }
  }

  lemma InitialInv()
    ensures Inv(INITIAL)
  {
    forall t ensures ThreadOk(INITIAL, t) {}
  }

  // ----- what it means --------------------------------------------------------------------------------

  /** In every reachable state a thread that executes a sink, or idles, does not hold the lock. */
  lemma NoSinkRunsUnderLock(fair: bool, actions: seq<Action>, t: Thread)
    requires UserCode(Run(INITIAL, fair, actions), t)
    ensures var s := Run(INITIAL, fair, actions); t !in s.readers && s.writer != Some(t)
  {
    InitialInv();
    RunKeepsInv(INITIAL, fair, actions);
    assert ThreadOk(Run(INITIAL, fair, actions), t);
  }

  /** Every record went to a sink, or to none, that was current at some moment of its dispatch. */
  lemma RecordsReachCurrentSinks(fair: bool, actions: seq<Action>, i: nat)
    requires i < |Run(INITIAL, fair, actions).deliveries|
    ensures
      var s := Run(INITIAL, fair, actions);
      var d := s.deliveries[i];
      d.since <= d.at <= d.until < |s.versions| && s.versions[d.at] == d.target
  {
    InitialInv();
    RunKeepsInv(INITIAL, fair, actions);
    assert DeliveryOk(Run(INITIAL, fair, actions).deliveries[i], Run(INITIAL, fair, actions).versions);
  }

  // ----- calls that meet no other ----------------------------------------------------------------------

  /** The steps of `set_log_sink` in a thread that finds the lock free; a destructor may run in between. */
  function SetSteps(t: Thread, sink: Option<Sink>, drop: bool): seq<Action> {
    [SetSink(t, sink), TakeWrite(t), Assign(t)] + (if drop then [FinishDrop(t)] else []) + [DropWrite(t)]
  }

  /** Afterwards the sink that was set is the current one, and nothing else has changed. */
  lemma SetInstalls(s: State, t: Thread, sink: Option<Sink>)
    requires s.versions != [] && UserCode(s, t) && s.writer.None? && s.readers == {}
    ensures exists drop :: var s' := Run(s, false, SetSteps(t, sink, drop));
              && s'.versions == s.versions + [sink] && s'.Stack(t) == s.Stack(t)
              && s'.writer.None? && s'.readers == {} && s'.deliveries == s.deliveries
  {
    var s1 := Step(s, SetSink(t, sink));
    var s2 := Step(s1, TakeWrite(t));
    assert s1.Stack(t) == s.Stack(t) + [WantWrite(sink)];
    assert s2.Stack(t) == s.Stack(t) + [HoldWrite(sink)];
    var drop, s' := AssignsAndDrops(s2, t, sink, s.Stack(t));
    var rest := [Assign(t)] + (if drop then [FinishDrop(t)] else []) + [DropWrite(t)];
    var steps := SetSteps(t, sink, drop);
    assert steps[1..] == [TakeWrite(t)] + rest && steps[1..][1..] == rest;
    assert Run(s, false, steps) == Run(s1, false, steps[1..]);
    assert Run(s1, false, steps[1..]) == Run(s2, false, rest);
  }

  lemma AssignsAndDrops(s: State, t: Thread, sink: Option<Sink>, below: seq<Frame>) returns (drop: bool, s': State)
    requires s.versions != [] && s.Stack(t) == below + [HoldWrite(sink)] && s.readers == {}
    ensures s' == Run(s, false, [Assign(t)] + (if drop then [FinishDrop(t)] else []) + [DropWrite(t)])
    ensures s'.versions == s.versions + [sink] && s'.Stack(t) == below
    ensures s'.writer.None? && s'.readers == {} && s'.deliveries == s.deliveries
  {
    drop := LastReference(s);
    var s1 := Step(s, Assign(t));
    assert s1.Stack(t) == below + [if drop then Dropping(s.Now()) else Assigned];
    if drop {
      var s2 := Step(s1, FinishDrop(t));
      assert s2.Stack(t) == below + [Assigned];
      s' := Step(s2, DropWrite(t));
      RunTwo(s1, s2, s', FinishDrop(t), DropWrite(t));
      assert ([Assign(t)] + [FinishDrop(t)] + [DropWrite(t)])[1..] == [FinishDrop(t), DropWrite(t)];
    } else {
      s' := Step(s1, DropWrite(t));
      RunOne(s1, s', DropWrite(t));
      assert ([Assign(t)] + [] + [DropWrite(t)])[1..] == [DropWrite(t)];
    }
  }

  /** A record logged in a thread that finds the lock free goes to the current sink. */
  lemma LogDelivers(s: State, t: Thread)
    requires s.versions != [] && UserCode(s, t) && s.writer.None? && s.readers == {}
    ensures
      var s' := Run(s, false, [Log(t), TakeRead(t), Clone(t), DropRead(t)]);
      && s'.deliveries == s.deliveries + [Delivery(s.Now(), s.Now(), s.Now(), s.versions[s.Now()])]
      && s'.versions == s.versions && s'.readers == {}
      && s'.Stack(t) == s.Stack(t) + (match s.versions[s.Now()]
                                      case Some(sink) => [InSink(s.Now(), s.Now(), sink)]
                                      case None => [])
  {
    var now := s.Now();
    var s1 := Step(s, Log(t));
    var s2 := Step(s1, TakeRead(t));
    var s3 := Step(s2, Clone(t));
    assert s1.Stack(t) == s.Stack(t) + [WantRead(now)];
    assert s2.Stack(t) == s.Stack(t) + [HoldRead(now)];
    assert s3.Stack(t) == s.Stack(t) + [Cloned(now, now)];
    assert s3.readers == {t} && s3.versions == s.versions && s3.deliveries == s.deliveries;
    DropDelivers(s3, t, s.Stack(t), now);
    var steps := [Log(t), TakeRead(t), Clone(t), DropRead(t)];
    RunFour(s, s1, s2, s3, steps);
    RunOne(s3, Step(s3, DropRead(t)), DropRead(t));
    assert steps[1..][1..][1..] == [DropRead(t)];
  }

  lemma DropDelivers(s: State, t: Thread, below: seq<Frame>, now: nat)
    requires s.versions != [] && now == s.Now() && s.readers == {t} && s.Stack(t) == below + [Cloned(now, now)]
    ensures Enabled(s, false, DropRead(t))
    ensures
      var s' := Step(s, DropRead(t));
      && s'.deliveries == s.deliveries + [Delivery(now, now, now, s.versions[now])]
      && s'.versions == s.versions && s'.readers == {}
      && s'.Stack(t) == below + (match s.versions[now] case Some(sink) => [InSink(now, now, sink)] case None => [])
  {
    assert s.Top(t) == Some(Cloned(now, now));
    assert s.Stack(t)[..|s.Stack(t)| - 1] == below;
  }

  lemma RunOne(s: State, s': State, a: Action)
    requires Enabled(s, false, a) && s' == Step(s, a)
    ensures Run(s, false, [a]) == s'
  {
    assert [a][1..] == [];
    assert Run(s', false, []) == s';
  }

  lemma RunTwo(s: State, s1: State, s2: State, a: Action, b: Action)
    requires Enabled(s, false, a) && s1 == Step(s, a) && Enabled(s1, false, b) && s2 == Step(s1, b)
    ensures Run(s, false, [a, b]) == s2
  {
    assert [a, b][1..] == [b];
    RunOne(s1, s2, b);
  }

  lemma RunFour(s: State, s1: State, s2: State, s3: State, steps: seq<Action>)
    requires |steps| > 3
    requires Enabled(s, false, steps[0]) && s1 == Step(s, steps[0])
    requires Enabled(s1, false, steps[1]) && s2 == Step(s1, steps[1])
    requires Enabled(s2, false, steps[2]) && s3 == Step(s2, steps[2])
    ensures Run(s, false, steps) == Run(s3, false, steps[1..][1..][1..])
  {
    assert Run(s, false, steps) == Run(s1, false, steps[1..]);
    assert Run(s1, false, steps[1..]) == Run(s2, false, steps[1..][1..]);
    assert Run(s2, false, steps[1..][1..]) == Run(s3, false, steps[1..][1..][1..]);
  }

  // ----- user code under the lock -----------------------------------------------------------------------

  /** A thread executes code of the user: a sink, a destructor, or its own. */
  predicate RunsUserCode(s: State, t: Thread) {
    UserCode(s, t) || s.At(t, (f: Frame) => f.Dropping?)
  }

  /** In every reachable state, user code holds the lock exactly if it is the destructor of a replaced sink. */
  lemma OnlyDestructorsHoldLock(fair: bool, actions: seq<Action>, t: Thread)
    requires RunsUserCode(Run(INITIAL, fair, actions), t)
    ensures
      var s := Run(INITIAL, fair, actions);
      t in s.readers || s.writer == Some(t) <==> s.At(t, (f: Frame) => f.Dropping?)
  {
    InitialInv();
    RunKeepsInv(INITIAL, fair, actions);
    assert ThreadOk(Run(INITIAL, fair, actions), t);
  }

  /** And it gets there exactly if there was a sink to replace and no call of it is in progress. */
  lemma DestructorRunsUnderLockExactly(s: State, a: Action)
    requires Inv(s) && Enabled(s, false, a) && !s.At(a.t, (f: Frame) => f.Dropping?)
    ensures Step(s, a).At(a.t, (f: Frame) => f.Dropping?) <==>
              a.Assign? && s.versions[s.Now()].Some? && !InUse(s, s.Now())
  {
    assert ThreadOk(s, a.t);
    var stack := s.Stack(a.t);
    var after := Step(s, a).Stack(a.t);
    if a.Return? || a.DropWrite? || a.DropRead? {
      assert after != [] && |after| < |stack| ==> after[|after| - 1] == stack[|after| - 1];
    }
  }

  predicate NeverWrites(s: State, u: Thread) {
    forall i :: 0 <= i < |s.Stack(u)| ==> !s.Stack(u)[i].Writes()
  }

  /** A thread waits for a lock that it holds itself. */
  ghost predicate Stuck(s: State, t: Thread) {
    && s.writer == Some(t) && Wants(s, t)
    && forall u :: u != t ==> NeverWrites(s, u)
  }

  lemma StuckStays(s: State, fair: bool, t: Thread, a: Action)
    requires Stuck(s, t) && Enabled(s, fair, a)
    ensures Stuck(Step(s, a), t) && Step(s, a).Stack(t) == s.Stack(t)
  {
    assert a.t != t;
    assert NeverWrites(s, a.t);
    var before, after := s.Stack(a.t), Step(s, a).Stack(a.t);
    assert forall i :: 0 <= i < |after| - 1 ==> after[i] == before[i];
    assert NeverWrites(Step(s, a), a.t);
    forall u | u != t ensures NeverWrites(Step(s, a), u) {
      if u != a.t {
        assert Step(s, a).Stack(u) == s.Stack(u) && NeverWrites(s, u);
      }
    }
  }

  lemma {:induction false} StuckForever(s: State, fair: bool, t: Thread, actions: seq<Action>)
    requires Stuck(s, t)
    ensures Stuck(Run(s, fair, actions), t) && Run(s, fair, actions).Stack(t) == s.Stack(t)
    decreases actions
  {
    if actions != [] {
      if Enabled(s, fair, actions[0]) {
        StuckStays(s, fair, t, actions[0]);
        StuckForever(Step(s, actions[0]), fair, t, actions[1..]);
      } else {
        StuckForever(s, fair, t, actions[1..]);
      }
    }
  }

  /** So a destructor that logs, or replaces the sink, under the lock waits forever, whatever others do. */
  lemma LoggingDestructorDeadlocks(s: State, fair: bool, t: Thread, call: Frame, actions: seq<Action>)
    requires Inv(s) && s.At(t, (f: Frame) => f.Dropping?) && (call.WantRead? || call.WantWrite?)
    ensures Run(s.Push(t, call), fair, actions).Stack(t) == s.Stack(t) + [call]
  {
    var s' := s.Push(t, call);
    assert ThreadOk(s, t);
    forall u | u != t ensures NeverWrites(s', u) {
      assert ThreadOk(s, u);
    }
    StuckForever(s', fair, t, actions);
  }

  // ----- no deadlock ------------------------------------------------------------------------------------

  /** The library's own steps and the end of a destructor: none of them waits for a sink. */
  predicate Library(a: Action) {
    !a.Log? && !a.SetSink? && !a.Return?
  }

  function Waiting(s: State): set<Thread> {
    set t | t in s.stacks && s.At(t, (f: Frame) => f.WantWrite?)
  }

  /** Holders before the copy or the assignment, in a destructor, and with one step to go. */
  function Entered(s: State): set<Thread> {
    set t | t in s.stacks && s.At(t, (f: Frame) => f.HoldRead? || f.HoldWrite?)
  }

  function Destroying(s: State): set<Thread> {
    set t | t in s.stacks && s.At(t, (f: Frame) => f.Dropping?)
  }

  function Leaving(s: State): set<Thread> {
    set t | t in s.stacks && s.At(t, (f: Frame) => f.Cloned? || f.Assigned?)
  }

  predicate Wants(s: State, t: Thread) {
    s.At(t, (f: Frame) => f.WantRead? || f.WantWrite?)
  }

  /** The step a lock holder can always take. */
  function HolderStep(s: State, h: Thread): Action
    requires s.At(h, (f: Frame) => f.Holds())
  {
    match s.Top(h).value
    case HoldRead(_) => Clone(h)
    case Cloned(_, _) => DropRead(h)
    case HoldWrite(_) => Assign(h)
    case Dropping(_) => FinishDrop(h)
    case _ => DropWrite(h)
  }

  /** A step concerns the stack of its own thread. */
  lemma OthersStay(s: State, fair: bool, a: Action)
    requires Enabled(s, fair, a) && Library(a)
    ensures Step(s, a).stacks.Keys == s.stacks.Keys
    ensures forall t :: t != a.t ==> Step(s, a).Top(t) == s.Top(t)
  {
    assert a.t in s.stacks;
  }

  /** A holder's next frame: closer to letting go, or no longer holding. */
  predicate MovesOn(top: Frame, next: Option<Frame>) {
    if top.HoldRead? || top.HoldWrite? then
      next.Some? && (next.value.Cloned? || next.value.Dropping? || next.value.Assigned?)
    else if top.Dropping? then next == Some(Assigned)
    else next.None? || next.value.InSink?
  }

  lemma HolderTop(s: State, h: Thread)
    requires Inv(s) && s.At(h, (f: Frame) => f.Holds())
    ensures Enabled(s, true, HolderStep(s, h)) && Library(HolderStep(s, h)) && HolderStep(s, h).t == h
    ensures MovesOn(s.Top(h).value, Step(s, HolderStep(s, h)).Top(h))
  {
    assert ThreadOk(s, h);
    var stack := s.Stack(h);
    var s' := Step(s, HolderStep(s, h));
    assert |s'.Stack(h)| < |stack| ==> forall i :: 0 <= i < |s'.Stack(h)| ==> s'.Stack(h)[i] == stack[i];
  }

  lemma HolderMoves(s: State, fair: bool, h: Thread)
    requires Inv(s) && s.At(h, (f: Frame) => f.Holds())
    ensures Enabled(s, fair, HolderStep(s, h)) && Library(HolderStep(s, h))
    ensures Closer(s, Step(s, HolderStep(s, h)))
    ensures forall t :: Wants(s, t) ==> Wants(Step(s, HolderStep(s, h)), t)
  {
    HolderTop(s, h);
    OthersStay(s, fair, HolderStep(s, h));
    SameTopsSameSets(s, Step(s, HolderStep(s, h)), h);
  }

  lemma SameTopsSameSets(s: State, s': State, h: Thread)
    requires s'.stacks.Keys == s.stacks.Keys && forall t :: t != h ==> s'.Top(t) == s.Top(t)
    requires h in s.stacks && s.At(h, (f: Frame) => f.Holds())
    requires MovesOn(s.Top(h).value, s'.Top(h))
    ensures Closer(s, s')
  {
    assert Waiting(s') == Waiting(s);
    assert h !in Entered(s');
    assert Entered(s') <= Entered(s);
    if s.At(h, (f: Frame) => f.HoldRead? || f.HoldWrite?) {
      assert h in Entered(s);
    } else if s.At(h, (f: Frame) => f.Dropping?) {
      assert Entered(s') == Entered(s);
      assert h in Destroying(s) && h !in Destroying(s') && Destroying(s') <= Destroying(s);
    } else {
      assert Entered(s') == Entered(s) && Destroying(s') == Destroying(s);
      assert h in Leaving(s) && h !in Leaving(s') && Leaving(s') <= Leaving(s);
    }
  }

  /**
   * Whoever waits for the lock can get it without any sink having to return: with only steps of
   * the library and the end of destructors that run under the lock, whatever the threads are doing
   * and however deep their calls are nested.
   */
  lemma {:induction false} WaiterGetsLock(s: State, fair: bool, t: Thread) returns (actions: seq<Action>)
    requires Inv(s) && Wants(s, t)
    ensures forall i :: 0 <= i < |actions| ==> Library(actions[i])
    ensures Run(s, fair, actions).At(t, (f: Frame) => f.Holds())
    decreases Waiting(s), Entered(s), Destroying(s), Leaving(s)
  {
    var a, done := Towards(s, fair, t);
    var s' := Step(s, a);
    if done {
      actions := [a];
      assert actions[1..] == [] && Run(s', fair, []) == s';
    } else {
      StepKeepsInv(s, a);
      var rest := WaiterGetsLock(s', fair, t);
      actions := [a] + rest;
      assert actions[1..] == rest;
    }
  }

  /** One step of the library that brings a waiter closer to the lock, or gives it the lock. */
  lemma Towards(s: State, fair: bool, t: Thread) returns (a: Action, done: bool)
    requires Inv(s) && Wants(s, t)
    ensures Enabled(s, fair, a) && Library(a)
    ensures done ==> Step(s, a).At(t, (f: Frame) => f.Holds())
    ensures !done ==> Wants(Step(s, a), t) && Closer(s, Step(s, a))
  {
    if h :| h in s.stacks && s.At(h, (f: Frame) => f.Holds()) {
      a, done := HolderStep(s, h), false;
      HolderMoves(s, fair, h);
    } else {
      LockFree(s);
      if s.At(t, (f: Frame) => f.WantRead?) && !WriterWaits(s) {
        a, done := TakeRead(t), true;
      } else {
        var w := t;
        if s.At(t, (f: Frame) => f.WantRead?) {
          w :| w in s.stacks && s.At(w, (f: Frame) => f.WantWrite?);
        }
        a, done := TakeWrite(w), w == t;
        WriterMoves(s, fair, w);
      }
    }
  }

  lemma WriterMoves(s: State, fair: bool, w: Thread)
    requires Enabled(s, fair, TakeWrite(w))
    ensures Step(s, TakeWrite(w)).At(w, (f: Frame) => f.Holds())
    ensures Closer(s, Step(s, TakeWrite(w)))
    ensures forall t :: t != w && Wants(s, t) ==> Wants(Step(s, TakeWrite(w)), t)
  {
    var s' := Step(s, TakeWrite(w));
    OthersStay(s, fair, TakeWrite(w));
    assert w in Waiting(s) && w !in Waiting(s');
    assert Waiting(s') <= Waiting(s);
  }

  /** Fewer threads wait to write, or as many do and the holders are closer to letting go. */
  ghost predicate Closer(s: State, s': State) {
    || Waiting(s') < Waiting(s)
    || (Waiting(s') == Waiting(s)
        && (Entered(s') < Entered(s)
            || (Entered(s') == Entered(s)
                && (Destroying(s') < Destroying(s)
                    || (Destroying(s') == Destroying(s) && Leaving(s') < Leaving(s))))))
  }

  lemma LockFree(s: State)
    requires Inv(s) && forall h :: h in s.stacks ==> !s.At(h, (f: Frame) => f.Holds())
    ensures s.readers == {} && s.writer.None?
  {
    forall t ensures t !in s.readers && s.writer != Some(t) {
      assert ThreadOk(s, t);
    }
  }
}

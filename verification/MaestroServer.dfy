/**
 * The server as the client meets it: one exchange at a time over a socket. Others may step any
 * number of times before an exchange takes effect, and the effect may happen although the answer
 * never arrives.
 */
module MaestroServer {
  import opened Wrappers
  import opened MaestroWorld

  /** `Refused` is an error the client call itself reports, `Broken` a failed socket worker. */
  datatype Reply<+T> = Value(value: T) | Refused | Broken

  /** A reply of the native API, whose errors carry a code. */
  datatype Coded<+T> = Accepted(value: T) | Declined(code: string)

  /** The commands that prepare and run a created task. */
  datatype Command = TYPE | OBSERVABLES | QUBITS | SIMULATOR_TYPE | METHOD | QASM | OPTIONS | EXECUTE

  datatype Verb =
    | EXISTS | FAILED | FINISHED | RUNNING | CANCEL | GET_RESULTS | LOGS
    | CREATE | CONFIGURE(command: Command) | SUBMIT | SESSION_EXISTS | SESSION_NEW | SESSION_DELETE
  {
    /** Verbs that change nothing on the server. */
    predicate Reads() { EXISTS? || FAILED? || FINISHED? || RUNNING? || LOGS? || SESSION_EXISTS? }
  }

  /** An exchange of this client, and whether it was answered with a plain yes. */
  datatype Exchange = Exchange(verb: Verb, yes: bool)

  function Cancels(wire: seq<Exchange>): nat {
    if wire == [] then 0
    else Cancels(wire[..|wire| - 1]) + if wire[|wire| - 1].verb.CANCEL? then 1 else 0
  }

  /** The results handed over. */
  function Handed(wire: seq<Exchange>): nat {
    if wire == [] then 0
    else Handed(wire[..|wire| - 1]) + if wire[|wire| - 1] == Exchange(GET_RESULTS, true) then 1 else 0
  }

  /** The exchanges that can change something on the server. */
  function Effects(wire: seq<Exchange>): nat {
    if wire == [] then 0 else Effects(wire[..|wire| - 1]) + if wire[|wire| - 1].verb.Reads() then 0 else 1
  }

  /** A count that grew has met what it counts in the new part of the wire, and conversely. */
  lemma {:induction false} HandedIsNew(before: seq<Exchange>, after: seq<Exchange>)
    requires before <= after
    ensures Handed(after) >= Handed(before)
    ensures Handed(after) > Handed(before) <==> Exchange(GET_RESULTS, true) in after[|before|..]
    decreases |after|
  {
    if |before| < |after| {
      var front := after[..|after| - 1];
      HandedIsNew(before, front);
      assert after[|before|..] == front[|before|..] + [after[|after| - 1]];
    } else {
      assert before == after;
    }
  }

  lemma {:induction false} OnlyReads(before: seq<Exchange>, after: seq<Exchange>)
    requires before <= after
    ensures Effects(after) >= Effects(before)
    ensures Effects(after) == Effects(before) <==> forall e :: e in after[|before|..] ==> e.verb.Reads()
    decreases |after|
  {
    if |before| < |after| {
      var front := after[..|after| - 1];
      OnlyReads(before, front);
      assert after[|before|..] == front[|before|..] + [after[|after| - 1]];
    } else {
      assert before == after;
    }
  }

  function ErrorOfCode(code: string): ErrorKind {
    match code
    case "invalid_input" => InvalidInput
    case "unsupported_api" => UnsupportedFunction
    case "unsupported_version" => UnsupportedFunction
    case "unsupported_capability" => UnsupportedFunction
    case "unsupported_operation" => UnsupportedFunction
    case "invalid_config" => InvalidConfig
    case "session_not_found" => InvalidConfig
    case "task_not_found" => ErrorKind.TaskNotFound
    case _ => Other
  }

  /** Which codes stand for which kind of error. */
  lemma CodesOfKinds(code: string)
    ensures ErrorOfCode(code) == InvalidInput <==> code == "invalid_input"
    ensures ErrorOfCode(code) == UnsupportedFunction <==>
            code in {"unsupported_api", "unsupported_version", "unsupported_capability", "unsupported_operation"}
    ensures ErrorOfCode(code) == InvalidConfig <==> code in {"invalid_config", "session_not_found"}
    ensures ErrorOfCode(code) == ErrorKind.TaskNotFound <==> code == "task_not_found"
    ensures ErrorOfCode(code) in {InvalidInput, UnsupportedFunction, InvalidConfig, ErrorKind.TaskNotFound, Other}
  {
  }

  /** What a status read says about a task, if there is one. */
  function Truth(w: World, verb: Verb, k: Key): Option<bool> {
    if verb.EXISTS? then Some(k in w.tasks)
    else if k !in w.tasks then None
    else if verb.FAILED? then Some(w.tasks[k].failed)
    else if verb.FINISHED? then Some(w.tasks[k].finished)
    else if verb.RUNNING? then Some(w.tasks[k].running)
    else None
  }

  predicate CanCreate(w: World, session: u32, k: Key) {
    k.session == session && session in w.sessions && k !in w.tasks
  }

  /** What a SUBMIT may come to: others step until `mid`, then perhaps a task is created, and the answer is `r`. */
  ghost predicate SubmitOutcome(w: World, w': World, session: u32, held: Option<u32>, r: Coded<u32>, mid: World,
                                made: Option<Key>)
  {
    && mid.Valid() && w'.Valid() && Rely(w, mid, held)
    && w' == (if made.Some? then mid.Create(made.value) else mid)
    && (made.Some? ==> CanCreate(mid, session, made.value))
    && (r.Accepted? ==> made == Some(Key(session, r.value)))
    && (r.Declined? && ErrorOfCode(r.code) != Other ==> made.None?)
  }

  lemma CreateKeepsValid(w: World, k: Key)
    requires w.Valid() && CanCreate(w, k.session, k)
    ensures w.Create(k).Valid() && History(w, w.Create(k))
  {
    var w' := w.Create(k);
    assert w.SerialOk(w.next);
    forall n ensures w'.SerialOk(n) && SerialKept(w, w', n) {
      assert w.SerialOk(n);
    }
    forall j ensures w'.KeyOk(j) {
      assert w.KeyOk(j);
      if j in w.latest {
        assert w.SerialOk(w.latest[j]);
      }
    }
  }

  class Server {
    var world: World
    var wire: seq<Exchange>  // every exchange of this client
    var mine: set<nat>       // the tasks this client's exchanges created
    var troubles: nat        // exchanges without the answer the client asked for
    var broken: nat          // of those, the ones without any answer
    ghost var atCancel: World                        // the world at the last CANCEL
    ghost var submitted: Coded<u32>                  // the last answer to SUBMIT
    ghost var diagnostics: Coded<Option<seq<string>>> // the last answer to LOGS

    ghost predicate Valid()
      reads this
    {
      world.Valid()
    }

    /** Exchanges that create and cancel nothing. */
    twostate predicate Calm(held: Option<u32>)
      reads this
    {
      && Valid() && Rely(old(world), world, held) && mine == old(mine)
      && old(wire) <= wire && Cancels(wire) == Cancels(old(wire))
      && troubles >= old(troubles) && broken >= old(broken) && atCancel == old(atCancel)
    }

    /** And fetch no result. */
    twostate predicate Quiet(held: Option<u32>)
      reads this
    {
      Calm(held) && Handed(wire) == Handed(old(wire))
    }

    /** And change nothing at all on the server. */
    twostate predicate Reading(held: Option<u32>)
      reads this
    {
      Quiet(held) && Effects(wire) == Effects(old(wire))
    }

    constructor (world: World)
      requires world.Valid()
      ensures Valid() && this.world == world && wire == [] && mine == {} && troubles == 0
    {
      this.world := world;
      wire, mine, troubles, broken := [], {}, 0, 0;
    }

    method Interfere(held: Option<u32>)
      requires Valid()
      modifies this`world
      ensures Valid() && Rely(old(world), world, held)
    {
      var actions: seq<Action> := *;
      RunRely(world, held, actions);
      world := Run(world, held, actions);
    }

    method Record(verb: Verb, yes: bool, usable: bool, lost: bool := false)
      requires lost ==> !usable
      modifies this`wire, this`troubles, this`broken
      ensures wire == old(wire) + [Exchange(verb, yes)]
      ensures troubles == old(troubles) + if usable then 0 else 1
      ensures broken == old(broken) + if lost then 1 else 0
      ensures Cancels(wire) == Cancels(old(wire)) + if verb.CANCEL? then 1 else 0
      ensures Handed(wire) == Handed(old(wire)) + if verb.GET_RESULTS? && yes then 1 else 0
      ensures Effects(wire) == Effects(old(wire)) + if verb.Reads() then 0 else 1
    {
      wire := wire + [Exchange(verb, yes)];
      troubles := troubles + if usable then 0 else 1;
      broken := broken + if lost then 1 else 0;
      assert wire[..|wire| - 1] == old(wire);
    }

    /** EXISTS, FAILED, FINISHED or RUNNING. */
    method Ask(verb: Verb, k: Key, held: Option<u32>) returns (r: Reply<bool>)
      requires Valid() && (verb.EXISTS? || verb.FAILED? || verb.FINISHED? || verb.RUNNING?)
      modifies this
      ensures Reading(held)
      ensures r.Value? ==> Truth(world, verb, k) == Some(r.value)
      ensures troubles == old(troubles) + if r.Value? then 0 else 1
      ensures broken == old(broken) + if r.Broken? then 1 else 0
      ensures wire == old(wire) + [Exchange(verb, r == Value(true))]
    {
      Interfere(held);
      r := *;
      var truth := Truth(world, verb, k);
      if r.Value? {
        r := if truth.Some? then Value(truth.value) else Refused;
      }
      Record(verb, r == Value(true), r.Value?, r.Broken?);
    }

    method Cancel(k: Key, held: Option<u32>) returns (r: Reply<bool>)
      requires Valid()
      modifies this
      ensures Valid() && Rely(old(world), world, held) && mine == old(mine)
      ensures wire == old(wire) + [Exchange(CANCEL, r == Value(true))]
      ensures troubles == old(troubles) + if r == Value(true) then 0 else 1
      ensures Cancels(wire) == Cancels(old(wire)) + 1 && Effects(wire) == Effects(old(wire)) + 1
      ensures Handed(wire) == Handed(old(wire))
      ensures broken == old(broken) + if r.Broken? then 1 else 0
      ensures atCancel == world
      ensures r == Value(true) ==> k in world.latest && world.Settled(world.latest[k], Cancelled)
    {
      Interfere(held);
      r := *;
      var effective: bool := *;
      if effective && world.CanCancel(k) {
        StepKeepsValid(world, held, CancelTask(k));
        StepRely(world, held, CancelTask(k));
        ghost var before := world;
        world := world.Cancel(k);
        RelyTransitive(old(world), before, world, held);
        assert before.KeyOk(k);
        if r.Value? { r := Value(true); }
      } else {
        if r.Value? { r := Value(false); }
      }
      atCancel := world;
      Record(CANCEL, r == Value(true), r == Value(true), r.Broken?);
    }

    /** GET_RESULTS consumes the task, even when the answer is lost. */
    method GetResults(k: Key, held: Option<u32>) returns (r: Reply<string>)
      requires Valid()
      modifies this
      ensures Calm(held) && wire == old(wire) + [Exchange(GET_RESULTS, r.Value?)]
      ensures Handed(wire) == Handed(old(wire)) + if r.Value? then 1 else 0
      ensures Effects(wire) == Effects(old(wire)) + 1
      ensures broken == old(broken) + if r.Broken? then 1 else 0
      ensures r.Value? ==>
                && k in world.latest && world.latest[k] in world.ledger
                && r.value == world.ledger[world.latest[k]].result
                && world.latest[k] !in old(world.delivered) && world.latest[k] in world.delivered
      ensures troubles == old(troubles) + if r.Value? then 0 else 1
    {
      Interfere(held);
      r := *;
      var effective: bool := *;
      if effective && world.CanFetch(k) {
        StepKeepsValid(world, held, FetchResult(k));
        StepRely(world, held, FetchResult(k));
        ghost var before := world;
        assert before.KeyOk(k) && SerialKept(old(world), before, before.tasks[k].serial);
        world := world.Fetch(k);
        RelyTransitive(old(world), before, world, held);
        if r.Value? { r := Value(world.ledger[world.latest[k]].result); }
      } else {
        if r.Value? { r := Refused; }
      }
      Record(GET_RESULTS, r.Value?, r.Value?, r.Broken?);
    }

    /** The retained diagnostics, or `None` inside the reply when they are not readable JSON. */
    method Logs(k: Key, held: Option<u32>) returns (r: Coded<Option<seq<string>>>)
      requires Valid()
      modifies this
      ensures Reading(held) && diagnostics == r
      ensures r.Accepted? && r.value.Some? ==> k in world.events && r.value.value == world.events[k]
      ensures troubles == old(troubles) + if r.Accepted? then 0 else 1
      ensures wire == old(wire) + [Exchange(LOGS, r.Accepted? && r.value.Some? && world.CancelledLast(k))]
    {
      Interfere(held);
      r := *;
      if r.Accepted? {
        r := if k !in world.events then Declined("task_not_found")
             else if r.value.Some? then Accepted(Some(world.events[k])) else r;
      }
      diagnostics := r;
      Record(LOGS, r.Accepted? && r.value.Some? && world.CancelledLast(k), r.Accepted?);
    }

    /** Creates a task under an id that names no present task, if the session is live. */
    method CreateTask(session: u32, held: Option<u32>) returns (ghost mid: World, made: Option<Key>)
      requires Valid()
      modifies this`world, this`mine
      ensures Valid() && mid.Valid() && Rely(old(world), mid, held) && History(old(world), world)
      ensures world == if made.Some? then mid.Create(made.value) else mid
      ensures made.Some? ==> CanCreate(mid, session, made.value)
      ensures mine == old(mine) + if made.Some? then {mid.next} else {}
    {
      Interfere(held);
      mid := world;
      var t: u32 := *;
      var effective: bool := *;
      made := None;
      if effective && CanCreate(world, session, Key(session, t)) {
        made := Some(Key(session, t));
        CreateKeepsValid(world, made.value);
        mine := mine + {world.next};
        world := world.Create(made.value);
        HistoryTransitive(old(world), mid, world);
      }
    }

    /** CREATE: an error answer leaves open whether a task was created. */
    method Create(session: u32, held: Option<u32>) returns (r: Reply<u32>, ghost mid: World, ghost made: Option<Key>)
      requires Valid()
      modifies this
      ensures Valid() && mid.Valid() && Rely(old(world), mid, held) && History(old(world), world)
      ensures world == if made.Some? then mid.Create(made.value) else mid
      ensures made.Some? ==> CanCreate(mid, session, made.value)
      ensures mine == old(mine) + if made.Some? then {mid.next} else {}
      ensures r.Value? ==> made == Some(Key(session, r.value))
      ensures wire == old(wire) + [Exchange(CREATE, r.Value?)] && Handed(wire) == Handed(old(wire))
      ensures broken >= old(broken)
      ensures troubles == old(troubles) + if r.Value? then 0 else 1
      ensures Cancels(wire) == Cancels(old(wire))
    {
      var m: Option<Key>;
      mid, m := CreateTask(session, held);
      made := m;
      r := *;
      if r.Value? {
        r := if m.Some? then Value(m.value.task) else Refused;
      }
      Record(CREATE, r.Value?, r.Value?);
    }

    /** SUBMIT: a refusal with a known code means that nothing was created. */
    method Submit(session: u32, held: Option<u32>) returns (r: Coded<u32>, ghost mid: World, ghost made: Option<Key>)
      requires Valid()
      modifies this
      ensures SubmitOutcome(old(world), world, session, held, r, mid, made)
      ensures History(old(world), world)
      ensures mine == old(mine) + if made.Some? then {mid.next} else {}
      ensures wire == old(wire) + [Exchange(SUBMIT, r.Accepted?)] && Handed(wire) == Handed(old(wire))
      ensures submitted == r
      ensures troubles == old(troubles) + if r.Accepted? then 0 else 1
      ensures Cancels(wire) == Cancels(old(wire))
    {
      var m: Option<Key>;
      mid, m := CreateTask(session, held);
      made := m;
      r := *;
      if r.Accepted? {
        r := if m.Some? then Accepted(m.value.task) else Declined("unreadable");
      } else if r.Declined? && m.Some? && ErrorOfCode(r.code) != Other {
        r := Declined("lost");
      }
      submitted := r;
      Record(SUBMIT, r.Accepted?, r.Accepted?);
    }

    method Configure(command: Command, held: Option<u32>) returns (r: Reply<bool>)
      requires Valid()
      modifies this
      ensures Quiet(held)
      ensures wire == old(wire) + [Exchange(CONFIGURE(command), r == Value(true))]
      ensures troubles == old(troubles) + if r == Value(true) then 0 else 1
    {
      Interfere(held);
      r := *;
      Record(CONFIGURE(command), r == Value(true), r == Value(true));
    }

    method SessionExists(session: u32, held: Option<u32>) returns (r: Reply<bool>)
      requires Valid()
      modifies this
      ensures Reading(held)
      ensures r.Value? ==> (r.value <==> session in world.sessions)
      ensures wire == old(wire) + [Exchange(SESSION_EXISTS, r == Value(true))]
      ensures troubles == old(troubles) + if r.Value? then 0 else 1
    {
      Interfere(held);
      r := *;
      if r.Value? { r := Value(session in world.sessions); }
      Record(SESSION_EXISTS, r == Value(true), r.Value?);
    }

    method NewSession() returns (r: Reply<u32>)
      requires Valid()
      modifies this
      ensures Quiet(None)
      ensures r.Value? ==> r.value in world.sessions
      ensures wire == old(wire) + [Exchange(SESSION_NEW, r.Value?)]
      ensures troubles == old(troubles) + if r.Value? then 0 else 1
    {
      Interfere(None);
      r := *;
      var s: u32 := *;
      var effective: bool := *;
      if effective && s !in world.sessions {
        ghost var before := world;
        StepKeepsValid(world, None, OpenSession(s));
        StepRely(world, None, OpenSession(s));
        world := Step(world, OpenSession(s));
        RelyTransitive(old(world), before, world, None);
        if r.Value? { r := Value(s); }
      } else {
        if r.Value? { r := Refused; }
      }
      Record(SESSION_NEW, r.Value?, r.Value?);
    }

    method DeleteSession(session: u32, held: Option<u32>) returns (r: Reply<bool>)
      requires Valid()
      modifies this
      ensures Quiet(held)
      ensures r == Value(true) ==> session !in world.sessions
      ensures troubles == old(troubles) + if r == Value(true) then 0 else 1
      ensures wire == old(wire) + [Exchange(SESSION_DELETE, r == Value(true))]
    {
      Interfere(held);
      r := *;
      var effective: bool := *;
      if effective {
        ghost var before := world;
        StepKeepsValid(world, held, CloseSession(session));
        StepRely(world, held, CloseSession(session));
        world := world.EndSession(session);
        RelyTransitive(old(world), before, world, held);
        if r.Value? { r := Value(true); }
      } else {
        if r.Value? { r := Value(false); }
      }
      Record(SESSION_DELETE, r == Value(true), r == Value(true));
    }
  }
}

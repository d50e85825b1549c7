/** Backend discovery: list, filter, check status, fetch configurations, sort, filter, construct. */
module ProviderPipeline {
  import opened Wrappers
  import opened BackendFilter
  import Text

  // ----- sequences ------------------------------------------------------------------------------

  function Keep<T(!new)>(s: seq<T>, p: T -> bool): (r: seq<T>)
    ensures forall x :: x in r <==> x in s && p(x)
  {
    if s == [] then [] else if p(s[0]) then [s[0]] + Keep(s[1..], p) else Keep(s[1..], p)
  }

  function Map<T, U>(s: seq<T>, f: T -> U): (r: seq<U>)
    ensures |r| == |s| && forall i :: 0 <= i < |s| ==> r[i] == f(s[i])
  {
    if s == [] then [] else [f(s[0])] + Map(s[1..], f)
  }

  function Zip<T, U>(a: seq<T>, b: seq<U>): seq<(T, U)> {
    if a == [] || b == [] then [] else [(a[0], b[0])] + Zip(a[1..], b[1..])
  }

  function Both<T>(p: T -> bool, q: T -> bool): T -> bool {
    x => p(x) && q(x)
  }

  lemma {:induction false} KeepTwice<T(!new)>(s: seq<T>, p: T -> bool, q: T -> bool)
    ensures Keep(Keep(s, p), q) == Keep(s, Both(p, q))
  {
    if s != [] {
      KeepTwice(s[1..], p, q);
      if p(s[0]) {
        assert ([s[0]] + Keep(s[1..], p))[1..] == Keep(s[1..], p);
      }
    }
  }

  /** What the element at `i` adds to a filtered and mapped sequence. */
  lemma KeepMapStep<T(!new), U(!new)>(s: seq<T>, i: nat, p: T -> bool, f: T -> U)
    requires i < |s|
    ensures Map(Keep(s[i..], p), f) == (if p(s[i]) then [f(s[i])] else []) + Map(Keep(s[i + 1..], p), f)
  {
    assert s[i..][1..] == s[i + 1..];
    assert Keep(s[i..], p) == (if p(s[i]) then [s[i]] else []) + Keep(s[i + 1..], p);
    if p(s[i]) {
      assert Keep(s[i..], p)[1..] == Keep(s[i + 1..], p);
    }
  }

  // ----- a stable sort --------------------------------------------------------------------------

  function Insert<T(!new)>(x: T, s: seq<T>, key: T -> int): seq<T> {
    if s == [] || key(x) <= key(s[0]) then [x] + s else [s[0]] + Insert(x, s[1..], key)
  }

  function SortBy<T(!new)>(s: seq<T>, key: T -> int): seq<T> {
    if s == [] then [] else Insert(s[0], SortBy(s[1..], key), key)
  }

  predicate Sorted<T(!new)>(s: seq<T>, key: T -> int) {
    forall i, j :: 0 <= i < j < |s| ==> key(s[i]) <= key(s[j])
  }

  lemma {:induction false} InsertKeepsElements<T(!new)>(x: T, s: seq<T>, key: T -> int)
    ensures multiset(Insert(x, s, key)) == multiset{x} + multiset(s)
  {
    if !(s == [] || key(x) <= key(s[0])) {
      InsertKeepsElements(x, s[1..], key);
      assert s == [s[0]] + s[1..];
    }
  }

  lemma SortedCons<T(!new)>(x: T, s: seq<T>, key: T -> int)
    requires Sorted(s, key) && forall y :: y in s ==> key(x) <= key(y)
    ensures Sorted([x] + s, key)
  {
  }

  lemma {:induction false} InsertSorted<T(!new)>(x: T, s: seq<T>, key: T -> int)
    requires Sorted(s, key)
    ensures Sorted(Insert(x, s, key), key)
    ensures multiset(Insert(x, s, key)) == multiset{x} + multiset(s)
  {
    InsertKeepsElements(x, s, key);
    if s == [] || key(x) <= key(s[0]) {
      SortedCons(x, s, key);
    } else {
      var rest := Insert(x, s[1..], key);
      InsertSorted(x, s[1..], key);
      forall y | y in rest ensures key(s[0]) <= key(y) {
        assert y in multiset(rest);
      }
      SortedCons(s[0], rest, key);
    }
  }

  lemma {:induction false} SortSorted<T(!new)>(s: seq<T>, key: T -> int)
    ensures Sorted(SortBy(s, key), key) && multiset(SortBy(s, key)) == multiset(s)
  {
    if s != [] {
      SortSorted(s[1..], key);
      InsertSorted(s[0], SortBy(s[1..], key), key);
      assert s == [s[0]] + s[1..];
    }
  }

  /** Filtering after an insertion is inserting after the filter. */
  lemma {:induction false} InsertKeep<T(!new)>(x: T, s: seq<T>, key: T -> int, p: T -> bool)
    requires Sorted(s, key)
    ensures Keep(Insert(x, s, key), p) == if p(x) then Insert(x, Keep(s, p), key) else Keep(s, p)
  {
    if s == [] || key(x) <= key(s[0]) {
      assert ([x] + s)[1..] == s;
      var kept := Keep(s, p);
      if kept != [] {
        assert kept[0] in s;
      }
    } else {
      var rest := Insert(x, s[1..], key);
      assert ([s[0]] + rest)[1..] == rest;
      InsertKeep(x, s[1..], key, p);
      if p(s[0]) {
        assert Keep(s, p)[1..] == Keep(s[1..], p);
      }
    }
  }

  /** Sorting commutes with a later filter. */
  lemma {:induction false} SortKeep<T(!new)>(s: seq<T>, key: T -> int, p: T -> bool)
    ensures Keep(SortBy(s, key), p) == SortBy(Keep(s, p), key)
  {
    if s != [] {
      SortKeep(s[1..], key, p);
      SortSorted(s[1..], key);
      InsertKeep(s[0], SortBy(s[1..], key), key, p);
      if p(s[0]) {
        assert Keep(s, p)[0] == s[0] && Keep(s, p)[1..] == Keep(s[1..], p);
      }
    }
  }

  /** The elements with a given key, in order. */
  function WithKey<T(!new)>(s: seq<T>, key: T -> int, q: int): seq<T> {
    Keep(s, x => key(x) == q)
  }

  lemma WithKeyStep<T(!new)>(s: seq<T>, key: T -> int, q: int)
    requires s != []
    ensures WithKey(s, key, q) == if key(s[0]) == q then [s[0]] + WithKey(s[1..], key, q) else WithKey(s[1..], key, q)
  {
  }

  /** Elements with equal keys keep their order. */
  lemma SortStable<T(!new)>(s: seq<T>, key: T -> int, q: int)
    ensures WithKey(SortBy(s, key), key, q) == WithKey(s, key, q)
  {
    SortKeep(s, key, x => key(x) == q);
    AllEqualSorted(WithKey(s, key, q), key, q);
  }

  lemma {:induction false} AllEqualSorted<T(!new)>(s: seq<T>, key: T -> int, q: int)
    requires forall x :: x in s ==> key(x) == q
    ensures SortBy(s, key) == s
  {
    if s != [] {
      AllEqualSorted(s[1..], key, q);
    }
  }

  lemma FirstHasKey<T(!new)>(s: seq<T>, key: T -> int)
    requires s != []
    ensures WithKey(s, key, key(s[0])) != WithKey([], key, key(s[0]))
  {
    WithKeyStep(s, key, key(s[0]));
  }

  /** A sorted sequence that keeps the order of equal keys is the stable sort: the algorithm does not matter. */
  lemma {:induction false} StableSortUnique<T(!new)>(s: seq<T>, t: seq<T>, key: T -> int)
    requires Sorted(s, key) && Sorted(t, key)
    requires forall q :: WithKey(s, key, q) == WithKey(t, key, q)
    ensures s == t
  {
    if s == [] {
      if t != [] {
        FirstHasKey(t, key);
        assert false;
      }
    } else {
      var k := key(s[0]);
      assert s[0] in WithKey(s, key, k) && s[0] in WithKey(t, key, k);
      assert t[0] in WithKey(t, key, key(t[0])) && t[0] in WithKey(s, key, key(t[0]));
      assert key(t[0]) == k;
      WithKeyStep(s, key, k);
      WithKeyStep(t, key, k);
      assert WithKey(s, key, k)[0] == s[0] && WithKey(t, key, k)[0] == t[0];
      forall q ensures WithKey(s[1..], key, q) == WithKey(t[1..], key, q) {
        WithKeyStep(s, key, q);
        WithKeyStep(t, key, q);
        if q == k {
          assert WithKey(s, key, q)[1..] == WithKey(s[1..], key, q);
          assert WithKey(t, key, q)[1..] == WithKey(t[1..], key, q);
        }
      }
      StableSortUnique(s[1..], t[1..], key);
    }
  }

  // ----- zips of a list with answers computed from it ---------------------------------------------

  /** The first components of the pairs whose flag is set. */
  function Flagged<T>(pairs: seq<(T, bool)>): seq<T> {
    if pairs == [] then []
    else if pairs[0].1 then [pairs[0].0] + Flagged(pairs[1..]) else Flagged(pairs[1..])
  }

  /** Zipping a list with the answers for its elements and keeping the flagged ones is a filter. */
  lemma {:induction false} ZipFlagged<T(!new)>(s: seq<T>, p: T -> bool)
    ensures Flagged(Zip(s, Map(s, p))) == Keep(s, p)
  {
    if s != [] {
      assert Map(s, p)[1..] == Map(s[1..], p);
      ZipFlagged(s[1..], p);
      var pairs := Zip(s, Map(s, p));
      assert pairs[1..] == Zip(s[1..], Map(s[1..], p));
    }
  }

  /** Zips stay aligned: every element is paired with its own answer. */
  lemma {:induction false} ZipAligned<T, U>(s: seq<T>, f: T -> U)
    ensures Zip(s, Map(s, f)) == Map(s, x => (x, f(x)))
  {
    if s != [] {
      assert Map(s, f)[1..] == Map(s[1..], f);
      ZipAligned(s[1..], f);
    }
  }

  // ----- the service ------------------------------------------------------------------------------

  /** The configuration of a backend, or a failure to fetch or to deserialize it. */
  datatype ConfigReply = Readable(config: Configuration) | Unreadable

  /** What the remote API answers; the answers per backend depend on its name. */
  datatype Api = Api(token: bool, backends: Option<Option<seq<Device>>>, status: string -> Option<Option<string>>,
                     config: string -> ConfigReply)

  predicate IsOnlineStatus(status: string) {
    Text.EqIgnoreAsciiCase(status, "active") || Text.EqIgnoreAsciiCase(status, "online")
  }

  predicate IsBackendOnline(api: Api, name: string) {
    match api.status(name)
    case Some(Some(status)) => IsOnlineStatus(status)
    case _ => false
  }

  predicate Wanted(f: Filter, reply: ConfigReply) {
    reply.Readable? && MatchesConfig(f, reply.config)
  }

  /** The whole filter, and a readable configuration. */
  predicate Satisfies(glob: Glob, f: Filter, api: Api, d: Device) {
    && MatchesDevice(f, d) && MatchesName(glob, f, d.name)
    && (f.online ==> IsBackendOnline(api, d.name))
    && Wanted(f, api.config(d.name))
  }

  function Queue(d: Device): int { d.queueLength }

  function PairQueue(c: (Device, ConfigReply)): int { c.0.queueLength }

  // the tests and look-ups of the chain, as the closures it passes on
  function ByDevice(f: Filter): Device -> bool { (d: Device) => MatchesDevice(f, d) }

  function ByName(glob: Glob, f: Filter): Device -> bool { (d: Device) => MatchesName(glob, f, d.name) }

  function ByStatus(api: Api): Device -> bool { (d: Device) => IsBackendOnline(api, d.name) }

  function ByAll(glob: Glob, f: Filter, api: Api): Device -> bool { (d: Device) => Satisfies(glob, f, api, d) }

  function ConfigOf(api: Api): Device -> ConfigReply { (d: Device) => api.config(d.name) }

  function WithConfig(api: Api): Device -> (Device, ConfigReply) { (d: Device) => (d, api.config(d.name)) }

  function ByConfig(f: Filter): ((Device, ConfigReply)) -> bool { (c: (Device, ConfigReply)) => Wanted(f, c.1) }

  /** The simple form of discovery. */
  function Discovered(glob: Glob, f: Filter, api: Api, devices: seq<Device>): seq<Device> {
    SortBy(Keep(devices, ByAll(glob, f, api)), Queue)
  }

  /** The candidates with their configurations, sorted, before the last filter. */
  function Prepared(glob: Glob, f: Filter, api: Api, devices: seq<Device>): seq<(Device, ConfigReply)> {
    var listed := Keep(Keep(devices, ByDevice(f)), ByName(glob, f));
    var candidates := if f.online then Flagged(Zip(listed, Map(listed, ByStatus(api)))) else listed;
    SortBy(Zip(candidates, Map(candidates, ConfigOf(api))), PairQueue)
  }

  lemma {:induction false} InsertPairs(d: Device, s: seq<Device>, api: Api)
    ensures Insert(WithConfig(api)(d), Map(s, WithConfig(api)), PairQueue) == Map(Insert(d, s, Queue), WithConfig(api))
  {
    var pair := WithConfig(api);
    if s == [] || Queue(d) <= Queue(s[0]) {
      assert ([d] + s)[1..] == s;
    } else {
      InsertPairs(d, s[1..], api);
      assert ([s[0]] + Insert(d, s[1..], Queue))[1..] == Insert(d, s[1..], Queue);
      assert Map(s, pair)[1..] == Map(s[1..], pair);
    }
  }

  /** Sorting candidates with their configurations sorts the candidates. */
  lemma {:induction false} SortPairs(s: seq<Device>, api: Api)
    ensures SortBy(Map(s, WithConfig(api)), PairQueue) == Map(SortBy(s, Queue), WithConfig(api))
  {
    if s != [] {
      SortPairs(s[1..], api);
      InsertPairs(s[0], SortBy(s[1..], Queue), api);
    }
  }

  lemma {:induction false} KeepSame<T(!new)>(s: seq<T>, p: T -> bool, q: T -> bool)
    requires forall x :: x in s ==> p(x) == q(x)
    ensures Keep(s, p) == Keep(s, q)
  {
    if s != [] {
      KeepSame(s[1..], p, q);
    }
  }

  /** The tests made before the configurations are fetched. */
  function Early(glob: Glob, f: Filter, api: Api): Device -> bool {
    (d: Device) => MatchesDevice(f, d) && MatchesName(glob, f, d.name) && (f.online ==> IsBackendOnline(api, d.name))
  }

  function Late(f: Filter, api: Api): Device -> bool { (d: Device) => Wanted(f, api.config(d.name)) }

  /** Up to the last filter, discovery has the listed candidates in queue order, each with its own configuration. */
  lemma PreparedIs(glob: Glob, f: Filter, api: Api, devices: seq<Device>)
    ensures Prepared(glob, f, api, devices) == Map(SortBy(Keep(devices, Early(glob, f, api)), Queue), WithConfig(api))
  {
    var listed := Keep(Keep(devices, ByDevice(f)), ByName(glob, f));
    var both := Both(ByDevice(f), ByName(glob, f));
    KeepTwice(devices, ByDevice(f), ByName(glob, f));
    if f.online {
      ZipFlagged(listed, ByStatus(api));
      KeepTwice(devices, both, ByStatus(api));
      KeepSame(devices, Both(both, ByStatus(api)), Early(glob, f, api));
    } else {
      KeepSame(devices, both, Early(glob, f, api));
    }
    var candidates := Keep(devices, Early(glob, f, api));
    ZipWithConfig(candidates, api);
    SortPairs(candidates, api);
  }

  lemma ZipWithConfig(s: seq<Device>, api: Api)
    ensures Zip(s, Map(s, ConfigOf(api))) == Map(s, WithConfig(api))
  {
    ZipAligned(s, ConfigOf(api));
  }

  lemma {:induction false} KeepMapped(s: seq<Device>, f: Filter, api: Api)
    ensures Keep(Map(s, WithConfig(api)), ByConfig(f)) == Map(Keep(s, Late(f, api)), WithConfig(api))
  {
    if s != [] {
      KeepMapped(s[1..], f, api);
      assert Map(s, WithConfig(api))[1..] == Map(s[1..], WithConfig(api));
    }
  }

  /** The whole chain is the stable sort, by queue length, of the backends that satisfy the whole filter. */
  lemma ChainIsDiscovery(glob: Glob, f: Filter, api: Api, devices: seq<Device>)
    ensures Keep(Prepared(glob, f, api, devices), ByConfig(f)) ==
            Map(Discovered(glob, f, api, devices), WithConfig(api))
  {
    var early, late := Early(glob, f, api), Late(f, api);
    PreparedIs(glob, f, api, devices);
    KeepMapped(SortBy(Keep(devices, early), Queue), f, api);
    SortKeep(Keep(devices, early), Queue, late);
    KeepTwice(devices, early, late);
    KeepSame(devices, Both(early, late), ByAll(glob, f, api));
  }

  /** The first discovered backend satisfies the filter and has the shortest queue of all that do. */
  lemma FirstIsLeastBusy(glob: Glob, f: Filter, api: Api, devices: seq<Device>)
    ensures
      var found := Discovered(glob, f, api, devices);
      && (found == [] <==> forall d :: d in devices ==> !Satisfies(glob, f, api, d))
      && (found != [] ==>
            && found[0] in devices && Satisfies(glob, f, api, found[0])
            && forall d :: d in devices && Satisfies(glob, f, api, d) ==> found[0].queueLength <= d.queueLength)
  {
    var kept := Keep(devices, ByAll(glob, f, api));
    var found := Discovered(glob, f, api, devices);
    SortSorted(kept, Queue);
    forall d ensures d in found <==> d in devices && Satisfies(glob, f, api, d) {
      assert d in multiset(found) <==> d in multiset(kept);
      assert d in kept <==> d in devices && ByAll(glob, f, api)(d);
    }
    if found != [] {
      assert found[0] in found;
      forall d | d in devices && Satisfies(glob, f, api, d) ensures found[0].queueLength <= d.queueLength {
        assert d in found;
        var i :| 0 <= i < |found| && found[i] == d;
        assert Queue(found[0]) <= Queue(found[i]);
      }
    }
  }

  /** Which status texts count as online. */
  lemma OnlineExactly(api: Api, name: string)
    ensures IsBackendOnline(api, name) <==>
            && api.status(name).Some? && api.status(name).value.Some?
            && Text.Lower(api.status(name).value.value) in {"active", "online"}
  {
    if api.status(name).Some? && api.status(name).value.Some? {
      var status := api.status(name).value.value;
      ActiveIsWord(status);
      OnlineIsWord(status);
    }
  }

  lemma ActiveIsWord(s: string)
    ensures Text.EqIgnoreAsciiCase(s, "active") <==> Text.Lower(s) == "active"
  {
    Text.EqIgnoreIsLower(s, "active");
    assert Text.Lower("active") == "active";
  }

  lemma OnlineIsWord(s: string)
    ensures Text.EqIgnoreAsciiCase(s, "online") <==> Text.Lower(s) == "online"
  {
    Text.EqIgnoreIsLower(s, "online");
    assert Text.Lower("online") == "online";
  }

  /** Without a filter: the backends that are no simulators, by both accounts, and have a readable configuration. */
  lemma Unfiltered(glob: Glob, api: Api, d: Device)
    ensures Parsed(glob, "").Some?
    ensures Satisfies(glob, Parsed(glob, "").value, api, d) <==>
            && d.isSimulator != Some(true)
            && api.config(d.name).Readable? && !api.config(d.name).config.simulator
  {
    EmptyFilter(glob);
    NoNameMeansAny(glob, "", d.name);
    NoStatusMeansAny(glob, "");
    if api.config(d.name).Readable? {
      NoSimulators(glob, "", d, api.config(d.name).config);
      NoNumbersMeanAny(glob, "", api.config(d.name).config);
    }
  }

  /** Asking for online backends adds exactly the status to what is asked for. */
  lemma OnlineOnly(glob: Glob, a: string, api: Api, d: Device)
    requires Parsed(glob, a).Some?
    ensures
      var f := Parsed(glob, a + "&" + Pair("status", "online"));
      f.Some? && (Satisfies(glob, f.value, api, d) <==>
                  && Satisfies(glob, Parsed(glob, a).value.(online := false), api, d)
                  && api.status(d.name).Some? && api.status(d.name).value.Some?
                  && Text.Lower(api.status(d.name).value.value) in {"active", "online"})
  {
    StatusRequested(glob, a);
    OnlineExactly(api, d.name);
  }

  // ----- the process environment, and the constructed services --------------------------------------

  type Environment = map<string, string>

  const ENDPOINT := "QRMI_IBM_QCS_ENDPOINT"
  const IAM_ENDPOINT := "QRMI_IBM_QCS_IAM_ENDPOINT"
  const APIKEY := "QRMI_IBM_QCS_IAM_APIKEY"
  const SERVICE_CRN := "QRMI_IBM_QCS_SERVICE_CRN"

  datatype Service = Service(name: string, endpoint: string, iamEndpoint: string, apiKey: string, crn: string)

  function Prefixed(name: string, key: string): string {
    name + "_" + key
  }

  /** `IBMQuantumComputeService::new`: every required setting is looked up under the backend's prefix. */
  function NewService(env: Environment, name: string): Result<Service, ErrorKind> {
    var e, i := Prefixed(name, ENDPOINT), Prefixed(name, IAM_ENDPOINT);
    var a, c := Prefixed(name, APIKEY), Prefixed(name, SERVICE_CRN);
    if e in env && i in env && a in env && c in env then Success(Service(name, env[e], env[i], env[a], env[c]))
    else Failure(EnvVarNotSet)
  }

  predicate HasRequired(env: Environment) {
    ENDPOINT in env && IAM_ENDPOINT in env && APIKEY in env && SERVICE_CRN in env
  }

  /** The service a provider's own settings describe. */
  function ServiceFor(env: Environment, name: string): Service
    requires HasRequired(env)
  {
    Service(name, env[ENDPOINT], env[IAM_ENDPOINT], env[APIKEY], env[SERVICE_CRN])
  }

  /** `env` with every setting of `injected` stored under the prefix, and nothing else changed. */
  ghost predicate Injected(before: Environment, after: Environment, name: string, injected: Environment) {
    && (forall key :: key in injected ==> Prefixed(name, key) in after && after[Prefixed(name, key)] == injected[key])
    && (forall variable :: (forall key :: key in injected ==> Prefixed(name, key) != variable) ==>
          (variable in before <==> variable in after) && (variable in before ==> after[variable] == before[variable]))
  }

  lemma PrefixedInjective(name: string, a: string, b: string)
    requires Prefixed(name, a) == Prefixed(name, b)
    ensures a == b
  {
    assert Prefixed(name, a)[|name| + 1..] == a;
    assert Prefixed(name, b)[|name| + 1..] == b;
  }

  /**
   * The keys that `Provider.New` demands are exactly those without which no service could be
   * constructed from the injected settings, unless the process environment happens to have them.
   */
  lemma RequiredExactly(environment: Environment, before: Environment, after: Environment, name: string)
    requires Injected(before, after, name, environment)
    requires forall key :: Prefixed(name, key) !in before
    ensures NewService(after, name).Success? <==> HasRequired(environment)
  {
    LookUp(environment, before, after, name, ENDPOINT);
    LookUp(environment, before, after, name, IAM_ENDPOINT);
    LookUp(environment, before, after, name, APIKEY);
    LookUp(environment, before, after, name, SERVICE_CRN);
  }

  lemma LookUp(environment: Environment, before: Environment, after: Environment, name: string, key: string)
    requires Injected(before, after, name, environment) && Prefixed(name, key) !in before
    ensures Prefixed(name, key) in after <==> key in environment
  {
    if key !in environment {
      forall other | other in environment ensures Prefixed(name, other) != Prefixed(name, key) {
        if Prefixed(name, other) == Prefixed(name, key) { PrefixedInjective(name, other, key); }
      }
    }
  }

  /** The variable of a setting is the backend's name, an underscore, and the setting. */
  lemma VariableNames(name: string, key: string)
    ensures
      var v := Prefixed(name, key);
      && |v| == |name| + 1 + |key| && v[..|name|] == name && v[|name|] == '_' && v[|name| + 1..] == key
  {
  }

  class Provider {
    const providerEnv: Environment
    var env: Environment  // the process environment

    constructor (environment: Environment, env: Environment)
      requires HasRequired(environment)
      ensures providerEnv == environment && this.env == env
    {
      this.providerEnv, this.env := environment, env;
    }

    /** Refuses a configuration without one of the required keys. */
    static method New(environment: Environment, env: Environment) returns (r: Result<Provider, ErrorKind>)
      ensures r.Success? <==> HasRequired(environment)
      ensures r.Success? ==> fresh(r.value) && r.value.providerEnv == environment && r.value.env == env
      ensures r.Failure? ==> r.error == MissingConfigKey
    {
      if !HasRequired(environment) {
        return Failure(MissingConfigKey);
      }
      var p := new Provider(environment, env);
      return Success(p);
    }

    /** Stores the provider's settings in the process environment, key by key in any order. */
    method InjectBackendEnv(name: string)
      modifies this`env
      ensures Injected(old(env), env, name, providerEnv)
    {
      var keys := providerEnv.Keys;
      while keys != {}
        invariant keys <= providerEnv.Keys
        invariant Injected(old(env), env, name, providerEnv - keys)
        decreases keys
      {
        var key :| key in keys;
        ghost var before := env;
        var todo := keys - {key};
        env := env[Prefixed(name, key) := providerEnv[key]];
        forall k | k in providerEnv - todo
          ensures Prefixed(name, k) in env && env[Prefixed(name, k)] == providerEnv[k]
        {
          if Prefixed(name, k) == Prefixed(name, key) { PrefixedInjective(name, k, key); }
          if k != key { assert k in providerEnv - keys; }
        }
        forall variable | forall k :: k in providerEnv - todo ==> Prefixed(name, k) != variable
          ensures variable in old(env) <==> variable in env
          ensures variable in old(env) ==> env[variable] == old(env)[variable]
        {
          assert key in providerEnv - todo;
          assert forall k :: k in providerEnv - keys ==> k in providerEnv - todo;
        }
        keys := todo;
      }
      assert providerEnv - {} == providerEnv;
    }

    /** After the injection, the service is constructed, with the provider's settings. */
    lemma ConstructionSucceeds(before: Environment, after: Environment, name: string)
      requires HasRequired(providerEnv) && Injected(before, after, name, providerEnv)
      ensures NewService(after, name) == Success(ServiceFor(providerEnv, name))
    {
      assert ENDPOINT in providerEnv && IAM_ENDPOINT in providerEnv;
      assert APIKEY in providerEnv && SERVICE_CRN in providerEnv;
    }

    function Build(): ((Device, ConfigReply)) -> Service
      requires HasRequired(providerEnv)
    {
      (c: (Device, ConfigReply)) => ServiceFor(providerEnv, c.0.name)
    }

    /** One candidate that passed: its settings are injected, and its service constructed from them. */
    method ConstructOne(c: (Device, ConfigReply)) returns (service: Result<Service, ErrorKind>)
      requires HasRequired(providerEnv)
      modifies this`env
      ensures service == Success(Build()(c))
    {
      ghost var before := env;
      InjectBackendEnv(c.0.name);
      ConstructionSucceeds(before, env, c.0.name);
      service := NewService(env, c.0.name);
    }

    /** The last filter of the chain, which injects settings and constructs services as it goes. */
    method Construct(f: Filter, candidates: seq<(Device, ConfigReply)>) returns (services: seq<Service>)
      requires HasRequired(providerEnv)
      modifies this`env
      ensures services == Map(Keep(candidates, ByConfig(f)), Build())
    {
      services := [];
      ghost var all := Map(Keep(candidates, ByConfig(f)), Build());
      for i := 0 to |candidates|
        invariant services + Map(Keep(candidates[i..], ByConfig(f)), Build()) == all
      {
        KeepMapStep(candidates, i, ByConfig(f), Build());
        if Wanted(f, candidates[i].1) {
          var service := ConstructOne(candidates[i]);
          if service.Success? {
            services := services + [service.value];
          }
        }
      }
      assert services == all;
    }

    function BuildFor(): Device -> Service
      requires HasRequired(providerEnv)
    {
      (d: Device) => ServiceFor(providerEnv, d.name)
    }

    lemma {:induction false} BuildDiscovered(found: seq<Device>, api: Api)
      requires HasRequired(providerEnv)
      ensures Map(Map(found, WithConfig(api)), Build()) == Map(found, BuildFor())
    {
      if found != [] {
        BuildDiscovered(found[1..], api);
        assert Map(found, WithConfig(api))[1..] == Map(found[1..], WithConfig(api));
      }
    }

    method Resources(glob: Glob, filters: Option<string>, api: Api) returns (r: Result<seq<Service>, ErrorKind>)
      requires HasRequired(providerEnv)
      modifies this`env
      ensures
        match Parsed(glob, if filters.Some? then filters.value else "")
        case None => r == Failure(InvalidInput)
        case Some(f) =>
          if !api.token || api.backends.None? then r == Failure(Other)
          else
            var devices := if api.backends.value.Some? then api.backends.value.value else [];
            r == Success(Map(Discovered(glob, f, api, devices), BuildFor()))
    {
      var filter := Parse(glob, if filters.Some? then filters.value else "");
      if filter.Failure? {
        return Failure(filter.error);
      }
      if !api.token || api.backends.None? {
        return Failure(Other);
      }
      var devices := if api.backends.value.Some? then api.backends.value.value else [];
      var services := Construct(filter.value, Prepared(glob, filter.value, api, devices));
      ChainIsDiscovery(glob, filter.value, api, devices);
      BuildDiscovered(Discovered(glob, filter.value, api, devices), api);
      return Success(services);
    }

    method LeastBusy(glob: Glob, filters: Option<string>, api: Api) returns (r: Result<Option<Service>, ErrorKind>)
      requires HasRequired(providerEnv)
      modifies this`env
      ensures
        match Parsed(glob, if filters.Some? then filters.value else "")
        case None => r == Failure(InvalidInput)
        case Some(f) =>
          if !api.token || api.backends.None? then r == Failure(Other)
          else
            var devices := if api.backends.value.Some? then api.backends.value.value else [];
            && r.Success?
            && (r.value.None? ==> forall d :: d in devices ==> !Satisfies(glob, f, api, d))
            && (r.value.Some? ==>
                  exists best :: best in devices && Satisfies(glob, f, api, best)
                                 && r.value.value == ServiceFor(providerEnv, best.name)
                                 && forall d :: d in devices && Satisfies(glob, f, api, d) ==>
                                      best.queueLength <= d.queueLength)
    {
      var services := Resources(glob, filters, api);
      if services.Failure? {
        return Failure(services.error);
      }
      ghost var f := Parsed(glob, if filters.Some? then filters.value else "").value;
      ghost var devices := if api.backends.value.Some? then api.backends.value.value else [];
      FirstIsLeastBusy(glob, f, api, devices);
      return Success(if services.value == [] then None else Some(services.value[0]));
    }
  }
}

/** The provider's filter string: `key=value` pairs joined by `&`. */
module BackendFilter {
  import opened Wrappers
  import Text

  /** The glob library: which patterns it accepts and what they match. */
  datatype Glob = Glob(valid: string -> bool, matches: (string, string) -> bool)

  datatype Filter = Filter(numQubits: Option<nat>, maxShots: Option<nat>, namePattern: Option<string>,
                           isSimulator: bool, online: bool)

  const DEFAULT := Filter(None, None, None, false, false)

  datatype Key = NumQubits | MaxShots | Name | IsSimulator | Status

  /** What one segment asks for; an empty segment or an unknown key asks for nothing. */
  datatype Setting =
    | SetNumQubits(n: nat)
    | SetMaxShots(shots: nat)
    | SetName(pattern: string)
    | SetSimulator(b: bool)
    | SetOnline
    | Nothing
  {
    function For(): Option<Key> {
      match this
      case SetNumQubits(_) => Some(NumQubits)
      case SetMaxShots(_) => Some(MaxShots)
      case SetName(_) => Some(Name)
      case SetSimulator(_) => Some(IsSimulator)
      case SetOnline => Some(Status)
      case Nothing => None
    }
  }

  function KeyOf(name: string): Option<Key> {
    match name
    case "num_qubits" => Some(NumQubits)
    case "max_shots" => Some(MaxShots)
    case "name" => Some(Name)
    case "is_simulator" => Some(IsSimulator)
    case "status" => Some(Status)
    case _ => None
  }

  function ReadValue(glob: Glob, key: Key, value: string): Option<Setting> {
    match key
    case NumQubits =>
      (match Text.ParseUnsigned(value, Text.U32_MAX) case Some(n) => Some(SetNumQubits(n)) case None => None)
    case MaxShots =>
      (match Text.ParseUnsigned(value, Text.U64_MAX) case Some(n) => Some(SetMaxShots(n)) case None => None)
    case Name => if glob.valid(value) then Some(SetName(value)) else None
    case IsSimulator =>
      if value == "true" then Some(SetSimulator(true)) else if value == "false" then Some(SetSimulator(false)) else None
    case Status => if value == "online" then Some(SetOnline) else None
  }

  /** `None` is the refusal of a malformed segment. */
  function ReadSegment(glob: Glob, segment: string): Option<Setting> {
    var pair := Text.Trim(segment);
    if pair == [] then Some(Nothing)
    else
      match Text.SplitOnce(pair, '=')
      case None => None
      case Some((name, value)) =>
        match KeyOf(Text.Trim(name))
        case None => Some(Nothing)
        case Some(key) => ReadValue(glob, key, Text.Trim(value))
  }

  function Apply(f: Filter, s: Setting): Filter {
    match s
    case SetNumQubits(n) => f.(numQubits := Some(n))
    case SetMaxShots(n) => f.(maxShots := Some(n))
    case SetName(p) => f.(namePattern := Some(p))
    case SetSimulator(b) => f.(isSimulator := b)
    case SetOnline => f.(online := true)
    case Nothing => f
  }

  // ----- what a filter string means: for every key, the last setting ------------------------------

  /** The settings of all segments, or `None` if one is malformed. */
  function ReadAll(glob: Glob, segments: seq<string>): (r: Option<seq<Setting>>)
    ensures r.Some? ==> |r.value| == |segments|
  {
    if segments == [] then Some([])
    else
      match (ReadSegment(glob, segments[0]), ReadAll(glob, segments[1..]))
      case (Some(s), Some(rest)) => Some([s] + rest)
      case _ => None
  }

  function Last(settings: seq<Setting>, key: Key): Setting {
    if settings == [] then Nothing
    else if settings[|settings| - 1].For() == Some(key) then settings[|settings| - 1]
    else Last(settings[..|settings| - 1], key)
  }

  function Meaning(settings: seq<Setting>): Filter {
    Filter(
      match Last(settings, NumQubits) case SetNumQubits(n) => Some(n) case _ => None,
      match Last(settings, MaxShots) case SetMaxShots(n) => Some(n) case _ => None,
      match Last(settings, Name) case SetName(p) => Some(p) case _ => None,
      Last(settings, IsSimulator) == SetSimulator(true),
      Last(settings, Status).SetOnline?)
  }

  function Parsed(glob: Glob, filters: string): Option<Filter> {
    match ReadAll(glob, Text.Split(filters, '&'))
    case None => None
    case Some(settings) => Some(Meaning(settings))
  }

  lemma MeaningApply(settings: seq<Setting>, s: Setting)
    ensures Meaning(settings + [s]) == Apply(Meaning(settings), s)
  {
    assert (settings + [s])[..|settings|] == settings;
    forall key ensures Last(settings + [s], key) == if s.For() == Some(key) then s else Last(settings, key) {}
    LastHasKey(settings, IsSimulator);
  }

  lemma {:induction false} LastHasKey(settings: seq<Setting>, key: Key)
    ensures Last(settings, key).Nothing? || Last(settings, key).For() == Some(key)
  {
    if settings != [] {
      LastHasKey(settings[..|settings| - 1], key);
    }
  }

  lemma {:induction false} ReadAllAppend(glob: Glob, a: seq<string>, b: seq<string>)
    ensures ReadAll(glob, a + b) ==
              match (ReadAll(glob, a), ReadAll(glob, b))
              case (Some(x), Some(y)) => Some(x + y)
              case _ => None
  {
    if a == [] {
      assert a + b == b;
      assert ReadAll(glob, b).Some? ==> [] + ReadAll(glob, b).value == ReadAll(glob, b).value;
    } else {
      assert (a + b)[1..] == a[1..] + b;
      ReadAllAppend(glob, a[1..], b);
      if ReadSegment(glob, a[0]).Some? && ReadAll(glob, a[1..]).Some? && ReadAll(glob, b).Some? {
        var s, x, y := ReadSegment(glob, a[0]).value, ReadAll(glob, a[1..]).value, ReadAll(glob, b).value;
        assert [s] + (x + y) == ([s] + x) + y;
      }
    }
  }

  lemma ReadSingle(glob: Glob, segment: string)
    ensures ReadAll(glob, [segment]) ==
              match ReadSegment(glob, segment) case Some(s) => Some([s]) case None => None
  {
    assert [segment][1..] == [];
    var read := ReadSegment(glob, segment);
    assert read.Some? ==> [read.value] + [] == [read.value];
  }

  /** The loop over the segments: it updates the filter in place and stops at a malformed segment. */
  method Parse(glob: Glob, filters: string) returns (r: Result<Filter, ErrorKind>)
    ensures r == match Parsed(glob, filters) case Some(f) => Success(f) case None => Failure(InvalidInput)
  {
    var f := DEFAULT;
    var segments := Text.Split(filters, '&');
    ghost var settings: seq<Setting> := [];
    for i := 0 to |segments|
      invariant ReadAll(glob, segments[..i]) == Some(settings) && f == Meaning(settings)
    {
      var setting := ReadSegment(glob, segments[i]);
      assert segments[..i + 1] == segments[..i] + [segments[i]];
      ReadAllAppend(glob, segments[..i], [segments[i]]);
      ReadSingle(glob, segments[i]);
      if setting.None? {
        assert segments == segments[..i + 1] + segments[i + 1..];
        ReadAllAppend(glob, segments[..i + 1], segments[i + 1..]);
        return Failure(InvalidInput);
      }
      MeaningApply(settings, setting.value);
      settings := settings + [setting.value];
      f := Apply(f, setting.value);
    }
    assert segments[..|segments|] == segments;
    return Success(f);
  }

  // ----- joining filters -------------------------------------------------------------------------

  lemma {:induction false} LastAppend(a: seq<Setting>, b: seq<Setting>, key: Key)
    ensures Last(a + b, key) == if Last(b, key).Nothing? then Last(a, key) else Last(b, key)
  {
    if b == [] {
      assert a + b == a;
    } else {
      assert (a + b)[..|a + b| - 1] == a + b[..|b| - 1];
      LastAppend(a, b[..|b| - 1], key);
    }
  }

  /** Whether a filter string mentions the simulator key, which has a default. */
  predicate MentionsSimulator(glob: Glob, filters: string) {
    match ReadAll(glob, Text.Split(filters, '&'))
    case Some(settings) => Last(settings, IsSimulator) != Nothing
    case None => false
  }

  /** `b` overrides `a`, key by key. */
  function Override(a: Filter, b: Filter, bSaysSimulator: bool): Filter {
    Filter(if b.numQubits.Some? then b.numQubits else a.numQubits,
           if b.maxShots.Some? then b.maxShots else a.maxShots,
           if b.namePattern.Some? then b.namePattern else a.namePattern,
           if bSaysSimulator then b.isSimulator else a.isSimulator,
           a.online || b.online)
  }

  lemma ParseJoin(glob: Glob, a: string, b: string)
    ensures Parsed(glob, a + "&" + b).Some? <==> Parsed(glob, a).Some? && Parsed(glob, b).Some?
    ensures Parsed(glob, a + "&" + b).Some? ==>
              Parsed(glob, a + "&" + b).value ==
                Override(Parsed(glob, a).value, Parsed(glob, b).value, MentionsSimulator(glob, b))
  {
    Text.SplitJoin(a, '&', b);
    var sa, sb := Text.Split(a, '&'), Text.Split(b, '&');
    ReadAllAppend(glob, sa, sb);
    if ReadAll(glob, sa).Some? && ReadAll(glob, sb).Some? {
      MeaningAppend(ReadAll(glob, sa).value, ReadAll(glob, sb).value);
    }
  }

  lemma MeaningAppend(a: seq<Setting>, b: seq<Setting>)
    ensures Meaning(a + b) == Override(Meaning(a), Meaning(b), Last(b, IsSimulator) != Nothing)
  {
    JoinKey(a, b, NumQubits);
    JoinKey(a, b, MaxShots);
    JoinKey(a, b, Name);
    JoinKey(a, b, IsSimulator);
    JoinKey(a, b, Status);
  }

  lemma JoinKey(a: seq<Setting>, b: seq<Setting>, key: Key)
    ensures Last(a + b, key) == if Last(b, key) == Nothing then Last(a, key) else Last(b, key)
    ensures Last(a, key) == Nothing || Last(a, key).For() == Some(key)
    ensures Last(b, key) == Nothing || Last(b, key).For() == Some(key)
  {
    LastAppend(a, b, key);
    LastHasKey(a, key);
    LastHasKey(b, key);
  }

  /** A segment with an unknown key changes nothing, wherever it stands. */
  lemma UnknownKeyIgnored(glob: Glob, a: string, segment: string, b: string)
    requires '&' !in segment
    requires var pair := Text.SplitOnce(Text.Trim(segment), '='); pair.Some? && KeyOf(Text.Trim(pair.value.0)).None?
    ensures Parsed(glob, a + "&" + segment + "&" + b) == Parsed(glob, a + "&" + b)
  {
    Text.SplitWhole(segment, '&');
    ReadSingle(glob, segment);
    var read := [Nothing];
    assert read[..0] == [];
    assert forall key :: Last(read, key) == Nothing;
    assert Parsed(glob, segment) == Some(DEFAULT) && !MentionsSimulator(glob, segment);
    ParseJoin(glob, a, segment);
    ParseJoin(glob, a + "&" + segment, b);
    ParseJoin(glob, a, b);
  }

  // ----- printing ---------------------------------------------------------------------------------

  function Pair(name: string, value: string): string {
    name + "=" + value
  }

  function Parts(f: Filter): seq<string> {
    (if f.numQubits.Some? then [Pair("num_qubits", Text.Decimal(f.numQubits.value))] else [])
    + (if f.maxShots.Some? then [Pair("max_shots", Text.Decimal(f.maxShots.value))] else [])
    + (if f.namePattern.Some? then [Pair("name", f.namePattern.value)] else [])
    + [Pair("is_simulator", if f.isSimulator then "true" else "false")]
    + (if f.online then [Pair("status", "online")] else [])
  }

  function Join(parts: seq<string>): string
    requires parts != []
  {
    if |parts| == 1 then parts[0] else Join(parts[..|parts| - 1]) + "&" + parts[|parts| - 1]
  }

  function Print(f: Filter): string {
    Join(Parts(f))
  }

  lemma {:induction false} SplitOfJoin(parts: seq<string>)
    requires parts != [] && forall i :: 0 <= i < |parts| ==> '&' !in parts[i]
    ensures Text.Split(Join(parts), '&') == parts
  {
    var last := parts[|parts| - 1];
    Text.SplitWhole(last, '&');
    if |parts| > 1 {
      SplitOfJoin(parts[..|parts| - 1]);
      Text.SplitJoin(Join(parts[..|parts| - 1]), '&', last);
      assert parts == parts[..|parts| - 1] + [last];
    } else {
      assert parts == [last];
    }
  }

  lemma ReadPair(glob: Glob, name: string, value: string)
    requires name != [] && Text.Trimmed(name) && '=' !in name && Text.Trimmed(value) && KeyOf(name).Some?
    ensures ReadSegment(glob, Pair(name, value)) == ReadValue(glob, KeyOf(name).value, value)
  {
    Text.SplitOnceAt(name, '=', value);
    Text.TrimTrimmed(name);
    Text.TrimTrimmed(value);
    Text.TrimTrimmed(Pair(name, value));
  }

  /** What can be written as a filter string: the integer bounds, and a pattern that survives trimming and splitting. */
  predicate Printable(glob: Glob, f: Filter) {
    && (f.numQubits.Some? ==> f.numQubits.value <= Text.U32_MAX)
    && (f.maxShots.Some? ==> f.maxShots.value <= Text.U64_MAX)
    && (f.namePattern.Some? ==>
          glob.valid(f.namePattern.value) && Text.Trimmed(f.namePattern.value) && '&' !in f.namePattern.value)
  }

  /** The settings behind `Parts`. */
  function Settings(f: Filter): seq<Setting> {
    (if f.numQubits.Some? then [SetNumQubits(f.numQubits.value)] else [])
    + (if f.maxShots.Some? then [SetMaxShots(f.maxShots.value)] else [])
    + (if f.namePattern.Some? then [SetName(f.namePattern.value)] else [])
    + [SetSimulator(f.isSimulator)]
    + (if f.online then [SetOnline] else [])
  }

  /** A part that is read as `s`, or no part at all. */
  ghost predicate Reads(glob: Glob, parts: seq<string>, settings: seq<Setting>) {
    ReadAll(glob, parts) == Some(settings) && forall i :: 0 <= i < |parts| ==> '&' !in parts[i]
  }

  lemma ReadsOne(glob: Glob, name: string, value: string, s: Setting)
    requires name != [] && Text.Trimmed(name) && '=' !in name && '&' !in name && KeyOf(name).Some?
    requires Text.Trimmed(value) && '&' !in value && ReadValue(glob, KeyOf(name).value, value) == Some(s)
    ensures Reads(glob, [Pair(name, value)], [s])
  {
    ReadPair(glob, name, value);
    ReadSingle(glob, Pair(name, value));
  }

  lemma ReadsBoth(glob: Glob, a: seq<string>, x: seq<Setting>, b: seq<string>, y: seq<Setting>)
    requires Reads(glob, a, x) && Reads(glob, b, y)
    ensures Reads(glob, a + b, x + y)
  {
    ReadAllAppend(glob, a, b);
  }

  lemma ReadsNumber(glob: Glob, name: string, n: Option<nat>)
    requires n.Some? ==>
               || (name == "num_qubits" && n.value <= Text.U32_MAX)
               || (name == "max_shots" && n.value <= Text.U64_MAX)
    ensures Reads(glob, if n.Some? then [Pair(name, Text.Decimal(n.value))] else [],
                  if n.None? then []
                  else [if name == "num_qubits" then SetNumQubits(n.value) else SetMaxShots(n.value)])
  {
    if n.Some? {
      Text.DecimalRoundTrip(n.value, if name == "num_qubits" then Text.U32_MAX else Text.U64_MAX);
      Text.DecimalTrimmed(n.value);
      var s := if name == "num_qubits" then SetNumQubits(n.value) else SetMaxShots(n.value);
      ReadsOne(glob, name, Text.Decimal(n.value), s);
    }
  }

  lemma ReadsName(glob: Glob, f: Filter)
    requires Printable(glob, f)
    ensures Reads(glob, if f.namePattern.Some? then [Pair("name", f.namePattern.value)] else [],
                  if f.namePattern.Some? then [SetName(f.namePattern.value)] else [])
  {
    if f.namePattern.Some? {
      ReadsOne(glob, "name", f.namePattern.value, SetName(f.namePattern.value));
    }
  }

  lemma ReadsSimulator(glob: Glob, b: bool)
    ensures Reads(glob, [Pair("is_simulator", if b then "true" else "false")], [SetSimulator(b)])
  {
    ReadsOne(glob, "is_simulator", if b then "true" else "false", SetSimulator(b));
  }

  lemma ReadsStatus(glob: Glob, b: bool)
    ensures Reads(glob, if b then [Pair("status", "online")] else [], if b then [SetOnline] else [])
  {
    ReadsOne(glob, "status", "online", SetOnline);
  }

  lemma ReadsParts(glob: Glob, f: Filter)
    requires Printable(glob, f)
    ensures Reads(glob, Parts(f), Settings(f))
  {
    var p1 := if f.numQubits.Some? then [Pair("num_qubits", Text.Decimal(f.numQubits.value))] else [];
    var p2 := if f.maxShots.Some? then [Pair("max_shots", Text.Decimal(f.maxShots.value))] else [];
    var p3 := if f.namePattern.Some? then [Pair("name", f.namePattern.value)] else [];
    var p4 := [Pair("is_simulator", if f.isSimulator then "true" else "false")];
    var p5 := if f.online then [Pair("status", "online")] else [];
    var s1 := if f.numQubits.Some? then [SetNumQubits(f.numQubits.value)] else [];
    var s2 := if f.maxShots.Some? then [SetMaxShots(f.maxShots.value)] else [];
    var s3 := if f.namePattern.Some? then [SetName(f.namePattern.value)] else [];
    assert Reads(glob, p1, s1) by { ReadsNumber(glob, "num_qubits", f.numQubits); }
    assert Reads(glob, p2, s2) by { ReadsNumber(glob, "max_shots", f.maxShots); }
    assert Reads(glob, p3, s3) by { ReadsName(glob, f); }
    assert Reads(glob, p4, [SetSimulator(f.isSimulator)]) by { ReadsSimulator(glob, f.isSimulator); }
    assert Reads(glob, p5, if f.online then [SetOnline] else []) by { ReadsStatus(glob, f.online); }
    ReadsBoth(glob, p1, s1, p2, s2);
    ReadsBoth(glob, p1 + p2, s1 + s2, p3, s3);
    ReadsBoth(glob, p1 + p2 + p3, s1 + s2 + s3, p4, [SetSimulator(f.isSimulator)]);
    ReadsBoth(glob, p1 + p2 + p3 + p4, s1 + s2 + s3 + [SetSimulator(f.isSimulator)],
              p5, if f.online then [SetOnline] else []);
  }

  /** Printing a filter and parsing it gives the filter back. */
  lemma PrintThenParse(glob: Glob, f: Filter)
    requires Printable(glob, f)
    ensures Parsed(glob, Print(f)) == Some(f)
  {
    ReadsParts(glob, f);
    SplitOfJoin(Parts(f));
    MeaningOfSettings(f);
  }

  lemma MeaningMaybe(settings: seq<Setting>, given: bool, s: Setting)
    ensures Meaning(settings + if given then [s] else []) ==
            if given then Apply(Meaning(settings), s) else Meaning(settings)
  {
    if given {
      MeaningApply(settings, s);
    } else {
      assert settings + [] == settings;
    }
  }

  lemma MeaningOfSettings(f: Filter)
    ensures Meaning(Settings(f)) == f
  {
    var qubits := if f.numQubits.Some? then SetNumQubits(f.numQubits.value) else Nothing;
    var shots := if f.maxShots.Some? then SetMaxShots(f.maxShots.value) else Nothing;
    var name := if f.namePattern.Some? then SetName(f.namePattern.value) else Nothing;
    var s1 := if f.numQubits.Some? then [qubits] else [];
    var s2 := s1 + if f.maxShots.Some? then [shots] else [];
    var s3 := s2 + if f.namePattern.Some? then [name] else [];
    MeaningMaybe([], f.numQubits.Some?, qubits);
    assert [] + s1 == s1;
    MeaningMaybe(s1, f.maxShots.Some?, shots);
    MeaningMaybe(s2, f.namePattern.Some?, name);
    MeaningApply(s3, SetSimulator(f.isSimulator));
    MeaningMaybe(s3 + [SetSimulator(f.isSimulator)], f.online, SetOnline);
  }

  // ----- matching -----------------------------------------------------------------------------------

  datatype Device = Device(name: string, queueLength: int, isSimulator: Option<bool>)

  datatype Configuration = Configuration(nQubits: nat, maxShots: nat, simulator: bool)

  predicate MatchesName(glob: Glob, f: Filter, name: string) {
    match f.namePattern
    case Some(pattern) => glob.matches(pattern, name)
    case None => true
  }

  predicate MatchesDevice(f: Filter, d: Device) {
    (d.isSimulator.Some? && d.isSimulator.value) == f.isSimulator
  }

  predicate MatchesConfig(f: Filter, c: Configuration) {
    if c.simulator != f.isSimulator then false
    else if f.numQubits.Some? && c.nQubits < f.numQubits.value then false
    else if f.maxShots.Some? && c.maxShots < f.maxShots.value then false
    else true
  }

  // ----- what one more segment asks for ---------------------------------------------------------------

  lemma AppendSetting(glob: Glob, a: string, name: string, value: string, s: Setting)
    requires Parsed(glob, a).Some?
    requires name != [] && Text.Trimmed(name) && '=' !in name && '&' !in name && KeyOf(name).Some?
    requires Text.Trimmed(value) && '&' !in value && ReadValue(glob, KeyOf(name).value, value) == Some(s)
    ensures Parsed(glob, a + "&" + Pair(name, value)) == Some(Apply(Parsed(glob, a).value, s))
  {
    ReadsOne(glob, name, value, s);
    Text.SplitJoin(a, '&', Pair(name, value));
    Text.SplitWhole(Pair(name, value), '&');
    ReadAllAppend(glob, Text.Split(a, '&'), [Pair(name, value)]);
    MeaningApply(ReadAll(glob, Text.Split(a, '&')).value, s);
  }

  /** A number of qubits is a lower bound, which replaces an earlier one and leaves the rest alone. */
  lemma QubitsRequested(glob: Glob, a: string, n: nat, c: Configuration)
    requires Parsed(glob, a).Some? && n <= Text.U32_MAX
    ensures
      var f := Parsed(glob, a + "&" + Pair("num_qubits", Text.Decimal(n)));
      f.Some? && (MatchesConfig(f.value, c) <==>
                  n <= c.nQubits && MatchesConfig(Parsed(glob, a).value.(numQubits := None), c))
  {
    Text.DecimalRoundTrip(n, Text.U32_MAX);
    Text.DecimalTrimmed(n);
    AppendSetting(glob, a, "num_qubits", Text.Decimal(n), SetNumQubits(n));
  }

  lemma ShotsRequested(glob: Glob, a: string, n: nat, c: Configuration)
    requires Parsed(glob, a).Some? && n <= Text.U64_MAX
    ensures
      var f := Parsed(glob, a + "&" + Pair("max_shots", Text.Decimal(n)));
      f.Some? && (MatchesConfig(f.value, c) <==>
                  n <= c.maxShots && MatchesConfig(Parsed(glob, a).value.(maxShots := None), c))
  {
    Text.DecimalRoundTrip(n, Text.U64_MAX);
    Text.DecimalTrimmed(n);
    AppendSetting(glob, a, "max_shots", Text.Decimal(n), SetMaxShots(n));
  }

  /** A device without the flag counts as no simulator; the configuration must say the same. */
  lemma SimulatorsRequested(glob: Glob, a: string, b: bool, d: Device, c: Configuration)
    requires Parsed(glob, a).Some?
    ensures
      var f := Parsed(glob, a + "&" + Pair("is_simulator", if b then "true" else "false"));
      && f.Some?
      && (MatchesDevice(f.value, d) <==> (b <==> d.isSimulator == Some(true)))
      && (MatchesConfig(f.value, c) <==>
          c.simulator == b && MatchesConfig(Parsed(glob, a).value.(isSimulator := c.simulator), c))
  {
    AppendSetting(glob, a, "is_simulator", if b then "true" else "false", SetSimulator(b));
  }

  /** A pattern decides on the names alone. */
  lemma NameRequested(glob: Glob, a: string, pattern: string, name: string)
    requires Parsed(glob, a).Some? && glob.valid(pattern) && Text.Trimmed(pattern) && '&' !in pattern
    ensures
      var f := Parsed(glob, a + "&" + Pair("name", pattern));
      f.Some? && (MatchesName(glob, f.value, name) <==> glob.matches(pattern, name))
  {
    AppendSetting(glob, a, "name", pattern, SetName(pattern));
  }

  /** Backends that are online must be asked for. */
  lemma StatusRequested(glob: Glob, a: string)
    requires Parsed(glob, a).Some?
    ensures Parsed(glob, a + "&" + Pair("status", "online")) == Some(Parsed(glob, a).value.(online := true))
  {
    AppendSetting(glob, a, "status", "online", SetOnline);
  }

  // ----- what a filter does not ask for -----------------------------------------------------------------

  /** Whether a segment sets the key with this name. */
  predicate Sets(segment: string, name: string) {
    var pair := Text.SplitOnce(Text.Trim(segment), '=');
    pair.Some? && Text.Trim(pair.value.0) == name
  }

  /** No segment of a filter string sets the key with this name. */
  predicate Silent(filters: string, name: string) {
    forall i :: 0 <= i < |Text.Split(filters, '&')| ==> !Sets(Text.Split(filters, '&')[i], name)
  }

  function NameOf(key: Key): string {
    match key
    case NumQubits => "num_qubits"
    case MaxShots => "max_shots"
    case Name => "name"
    case IsSimulator => "is_simulator"
    case Status => "status"
  }

  lemma SegmentFor(glob: Glob, segment: string, key: Key)
    requires ReadSegment(glob, segment).Some? && ReadSegment(glob, segment).value.For() == Some(key)
    ensures Sets(segment, NameOf(key))
  {
  }

  lemma {:induction false} NoSettingFor(glob: Glob, segments: seq<string>, key: Key)
    requires ReadAll(glob, segments).Some?
    requires forall i :: 0 <= i < |segments| ==> !Sets(segments[i], NameOf(key))
    ensures Last(ReadAll(glob, segments).value, key) == Nothing
  {
    if segments != [] {
      NoSettingFor(glob, segments[1..], key);
      var s := ReadSegment(glob, segments[0]).value;
      if s.For() == Some(key) {
        SegmentFor(glob, segments[0], key);
        assert false;
      }
      LastAppend([s], ReadAll(glob, segments[1..]).value, key);
    }
  }

  /** A filter string without a name accepts every name. */
  lemma NoNameMeansAny(glob: Glob, filters: string, name: string)
    requires Parsed(glob, filters).Some? && Silent(filters, "name")
    ensures MatchesName(glob, Parsed(glob, filters).value, name)
  {
    NoSettingFor(glob, Text.Split(filters, '&'), Name);
  }

  /** Without a status, none is asked for. */
  lemma NoStatusMeansAny(glob: Glob, filters: string)
    requires Parsed(glob, filters).Some? && Silent(filters, "status")
    ensures !Parsed(glob, filters).value.online
  {
    NoSettingFor(glob, Text.Split(filters, '&'), Status);
  }

  /** Without a word on simulators, there are none. */
  lemma NoSimulators(glob: Glob, filters: string, d: Device, c: Configuration)
    requires Parsed(glob, filters).Some? && Silent(filters, "is_simulator")
    ensures MatchesDevice(Parsed(glob, filters).value, d) <==> d.isSimulator != Some(true)
    ensures MatchesConfig(Parsed(glob, filters).value, c) ==> !c.simulator
  {
    NoSettingFor(glob, Text.Split(filters, '&'), IsSimulator);
  }

  /** Without numbers, any numbers do. */
  lemma NoNumbersMeanAny(glob: Glob, filters: string, c: Configuration)
    requires Parsed(glob, filters).Some? && Silent(filters, "num_qubits") && Silent(filters, "max_shots")
    ensures MatchesConfig(Parsed(glob, filters).value, c) <==>
            c.simulator == Parsed(glob, filters).value.isSimulator
  {
    NoSettingFor(glob, Text.Split(filters, '&'), NumQubits);
    NoSettingFor(glob, Text.Split(filters, '&'), MaxShots);
  }

  /** The empty filter string. */
  lemma EmptyFilter(glob: Glob)
    ensures Parsed(glob, "").Some? && Silent("", "name") && Silent("", "status") && Silent("", "is_simulator")
    ensures Silent("", "num_qubits") && Silent("", "max_shots")
  {
    assert Text.Split("", '&') == [[]];
    ReadSingle(glob, []);
  }

  // ----- which strings are refused -----------------------------------------------------------------------

  /** A segment that is no setting: no `=`, or a known key with a value of the wrong form. */
  predicate Malformed(glob: Glob, segment: string) {
    var s := Text.Trim(segment);
    && s != ""
    && match Text.SplitOnce(s, '=')
       case None => true
       case Some((k, v)) =>
         var key, value := Text.Trim(k), Text.Trim(v);
         || (key == "num_qubits" && Text.ParseUnsigned(value, 4294967295).None?)
         || (key == "max_shots" && Text.ParseUnsigned(value, 18446744073709551615).None?)
         || (key == "name" && !glob.valid(value))
         || (key == "is_simulator" && value != "true" && value != "false")
         || (key == "status" && value != "online")
  }

  lemma MalformedSegment(glob: Glob, segment: string)
    ensures ReadSegment(glob, segment).None? <==> Malformed(glob, segment)
  {
  }

  /** A filter string is refused exactly if some segment is malformed. */
  lemma RefusedExactly(glob: Glob, filters: string)
    ensures Parsed(glob, filters).None? <==> AnyMalformed(glob, Text.Split(filters, '&'))
  {
    RefusedSegments(glob, Text.Split(filters, '&'));
  }

  predicate AnyMalformed(glob: Glob, segments: seq<string>) {
    exists i :: 0 <= i < |segments| && Malformed(glob, segments[i])
  }

  lemma {:induction false} RefusedSegments(glob: Glob, segments: seq<string>)
    ensures ReadAll(glob, segments).None? <==> AnyMalformed(glob, segments)
  {
    if segments != [] {
      var rest := segments[1..];
      RefusedSegments(glob, rest);
      FirstOrRest(glob, segments);
      MalformedSegment(glob, segments[0]);
    }
  }

  lemma FirstOrRest(glob: Glob, segments: seq<string>)
    requires segments != []
    ensures AnyMalformed(glob, segments) <==> Malformed(glob, segments[0]) || AnyMalformed(glob, segments[1..])
  {
    var rest := segments[1..];
    if i :| 0 <= i < |rest| && Malformed(glob, rest[i]) {
      assert rest[i] == segments[i + 1];
    }
    if i :| 0 <= i < |segments| && Malformed(glob, segments[i]) {
      assert i > 0 ==> segments[i] == rest[i - 1];
    }
  }
}

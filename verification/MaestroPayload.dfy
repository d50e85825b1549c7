/** The two decoders of the Maestro payload contract: the Rust task runner's and Python's. */
module MaestroPayload {
  import opened Wrappers
  import Text

  /** JSON with integer numbers. */
  datatype Json =
    | Null
    | Bool(b: bool)
    | Num(n: int)
    | Str(s: string)
    | Arr(items: seq<Json>)
    | Obj(fields: map<string, Json>)

  /**
   * The parser both sides share, their printers, and Python's lower-casing, which may look at
   * the context of a character and yield several.
   */
  datatype Host = Host(parse: string -> Option<Json>, rust: Json -> string, python: Json -> string,
                       lowered: (string, nat) -> string)
  {
    ghost predicate Lawful() {
      && (forall j :: parse(rust(j)) == Some(j) && parse(python(j)) == Some(j))
      && parse("{}") == Some(Obj(map[]))
      && forall s: string, i: nat | i < |s| :: LoweredOk(s[i], lowered(s, i))
    }

    /** `str.lower`. */
    function PyLower(s: string, from: nat): string
      requires from <= |s|
      decreases |s| - from
    {
      if from == |s| then [] else lowered(s, from) + PyLower(s, from + 1)
    }
  }

  predicate Ascii(c: char) { (c as int) < 128 }

  /** ASCII letters map to ASCII letters; of the others only the Kelvin sign has an ASCII image. */
  predicate LoweredOk(c: char, image: string) {
    if Ascii(c) then image == [Text.LowerChar(c)]
    else image == "k" || exists i :: 0 <= i < |image| && !Ascii(image[i])
  }

  datatype Payload = Payload(input: string, jobType: string, qubits: u32, simulatorType: u32, simulationMethod: u32,
                             observables: string, config: string)

  predicate IsU32(j: Json) { j.Num? && 0 <= j.n <= Text.U32_MAX }

  /** Some field of an object is in `names`. */
  predicate AnyField(fields: map<string, Json>, names: set<string>) {
    exists key :: key in fields && key in names
  }

  predicate HasText(fields: map<string, Json>, name: string) {
    name in fields && fields[name].Str?
  }

  predicate HasU32(fields: map<string, Json>, name: string) {
    name in fields && IsU32(fields[name])
  }

  datatype Kind = Request | Execute | Estimate | Unknown

  // ----- Rust: ResourceType::maestro_input -------------------------------------------------------

  const RUST_LEGACY: set<string> :=
    {"input", "job_type", "qubits", "simulator_type", "simulation_method", "observables", "config"}

  const RUST_FOREIGN: set<string> :=
    {"job_spec", "program_id", "parameters", "job_runs", "sequence", "human_qir", "input_params", "iqmjson",
     "use_timeslot", "tag"}

  /** `request["schema_version"].as_u64() != Some(2)`, negated. */
  predicate RustVersion2(fields: map<string, Json>) {
    "schema_version" in fields && fields["schema_version"].Num? && fields["schema_version"].n == 2
  }

  function RustKind(kind: string): Kind {
    if Text.EqIgnoreAsciiCase(kind, "request") then Request
    else if Text.EqIgnoreAsciiCase(kind, "execute") then Execute
    else if Text.EqIgnoreAsciiCase(kind, "estimate") then Estimate
    else Unknown
  }

  function RustDecode(h: Host, value: Json): Option<Payload> {
    if !value.Obj? then None
    else
      var fields := value.fields;
      if AnyField(fields, RUST_FOREIGN) then None
      else if "request" in fields && |fields| != 1 then None
      else if "request" !in fields && "schema_version" !in fields
              && exists key :: key in fields && key !in RUST_LEGACY then None
      else if "request" in fields then RustRequest(h, fields["request"])
      else if "schema_version" in fields then RustRequest(h, value)
      else if HasText(fields, "job_type") && RustKind(fields["job_type"].s).Request? then
        if "input" in fields then RustRequest(h, fields["input"]) else None
      else RustLegacy(h, fields)
  }

  function RustRequest(h: Host, native: Json): Option<Payload> {
    var parsed := if native.Str? then h.parse(native.s) else Some(native);
    if parsed.None? then None
    else
      var request := parsed.value;
      if !request.Obj? || !RustVersion2(request.fields) then None
      else if exists key :: key in request.fields && RustBars(key) then None
      else Some(Payload(h.rust(request), "request", 0, 0, 0, "", "{}"))
  }

  /** A field that may not occur in a native document. */
  predicate RustBars(key: string) {
    key in RUST_FOREIGN || key == "request" || (key != "observables" && key in RUST_LEGACY)
  }

  /** What the derived deserialization of the legacy struct demands. */
  predicate RustShape(fields: map<string, Json>) {
    && "input" in fields
    && HasText(fields, "job_type")
    && HasU32(fields, "qubits")
    && HasU32(fields, "simulator_type")
    && HasU32(fields, "simulation_method")
    && ("observables" in fields ==> fields["observables"].Str?)
  }

  function RustLegacy(h: Host, fields: map<string, Json>): Option<Payload> {
    if !RustShape(fields) then None
    else
      var kind := fields["job_type"].s;
      var config := if "config" in fields then fields["config"] else Null;
      if !RustKind(kind).Execute? && !RustKind(kind).Estimate? then None
      else if !config.Null? && !config.Obj? && !config.Str? then None
      else if fields["qubits"].n == 0 || !fields["input"].Str? then None
      else
        Some(Payload(fields["input"].s, kind, fields["qubits"].n, fields["simulator_type"].n,
                     fields["simulation_method"].n,
                     if "observables" in fields then fields["observables"].s else "",
                     if config.Null? then "{}" else if config.Str? then config.s else h.rust(config)))
  }

  // ----- Python: payload_from_input -------------------------------------------------------------

  const PYTHON_LEGACY: set<string> :=
    {"input", "job_type", "qubits", "simulator_type", "simulation_method", "observables", "config"}

  const PYTHON_FOREIGN: set<string> :=
    {"job_spec", "program_id", "parameters", "job_runs", "sequence", "human_qir", "input_params", "iqmjson",
     "use_timeslot", "tag"}

  /** `request.get("schema_version") != 2`, negated. */
  predicate PythonVersion2(fields: map<string, Json>) {
    "schema_version" in fields && fields["schema_version"] == Num(2)
  }

  function PythonKind(h: Host, kind: string): Kind {
    match h.PyLower(kind, 0)
    case "request" => Request
    case "execute" => Execute
    case "estimate" => Estimate
    case _ => Unknown
  }

  function PythonDecode(h: Host, input: Json): Option<Payload> {
    if !input.Obj? then None
    else
      var fields := input.fields;
      if fields.Keys * PYTHON_FOREIGN != {} then None
      else if "request" in fields then
        if fields.Keys != {"request"} then None else RequestPayload(h, fields["request"])
      else if "schema_version" in fields then RequestPayload(h, input)
      else if fields.Keys - PYTHON_LEGACY != {} then None
      else if !HasText(fields, "job_type") then None
      else
        match PythonKind(h, fields["job_type"].s)
        case Request => if "input" !in fields then None else RequestPayload(h, fields["input"])
        case Unknown => None
        case _ => PythonLegacy(h, fields)
  }

  function RequestPayload(h: Host, request: Json): Option<Payload> {
    match NativeDocument(h, request)
    case None => None
    case Some(document) => Some(Payload(h.python(document), "request", 0, 0, 0, "", "{}"))
  }

  const PYTHON_ENVELOPE: set<string> := PYTHON_LEGACY - {"observables"}

  function NativeDocument(h: Host, request: Json): Option<Json> {
    var document := if request.Str? then h.parse(request.s) else Some(request);
    if document.None? || !document.value.Obj? then None
    else
      var fields := document.value.fields;
      if !PythonVersion2(fields) then None
      else if fields.Keys * (PYTHON_FOREIGN + PYTHON_ENVELOPE + {"request"}) != {} then None
      else document
  }

  predicate InRange(j: Json, minimum: int) {
    j.Num? && minimum <= j.n <= 4294967295
  }

  /** The explicit checks, and the string conversion of observables by the binding. */
  function PythonLegacy(h: Host, fields: map<string, Json>): Option<Payload>
    requires HasText(fields, "job_type")
  {
    if "input" !in fields || "qubits" !in fields || "simulator_type" !in fields
       || "simulation_method" !in fields then None
    else if !fields["input"].Str? then None
    else if !InRange(fields["qubits"], 1) || !InRange(fields["simulator_type"], 0)
            || !InRange(fields["simulation_method"], 0) then None
    else
      var given := if "config" in fields then fields["config"] else Null;
      var config := if given.Null? then Obj(map[]) else given;
      if !config.Obj? && !config.Str? then None
      else if "observables" in fields && !fields["observables"].Str? then None
      else
        Some(Payload(fields["input"].s, fields["job_type"].s, fields["qubits"].n, fields["simulator_type"].n,
                     fields["simulation_method"].n,
                     if "observables" in fields then fields["observables"].s else "",
                     if config.Str? then config.s else h.python(config)))
  }

  // ----- agreement ------------------------------------------------------------------------------

  /** The same text, or texts of the same JSON value. */
  predicate SameJson(h: Host, a: string, b: string) {
    a == b || (h.parse(a).Some? && h.parse(a) == h.parse(b))
  }

  predicate SamePayload(h: Host, a: Payload, b: Payload) {
    && a == b.(input := a.input, config := a.config)
    && SameJson(h, a.config, b.config)
    && (a.input == b.input || (a.jobType == "request" && SameJson(h, a.input, b.input)))
  }

  lemma {:induction false} PyLowerIs(h: Host, s: string, from: nat, word: string)
    requires h.Lawful() && from <= |s|
    requires forall i :: 0 <= i < |word| ==> Ascii(word[i]) && word[i] != 'k'
    ensures h.PyLower(s, from) == word <==> Text.Lower(s[from..]) == word
    decreases |s| - from
  {
    if from < |s| {
      var image := h.lowered(s, from);
      var rest := h.PyLower(s, from + 1);
      assert LoweredOk(s[from], image);
      assert s[from..][1..] == s[from + 1..];
      if Ascii(s[from]) {
        if word != [] {
          PyLowerIs(h, s, from + 1, word[1..]);
          assert (image + rest)[1..] == rest;
          assert (image + rest == word) <==> (image[0] == word[0] && rest == word[1..]);
          var lower := Text.Lower(s[from..]);
          assert lower == [Text.LowerChar(s[from])] + Text.Lower(s[from + 1..]);
          assert lower[1..] == Text.Lower(s[from + 1..]);
          assert lower == word <==> (lower[0] == word[0] && lower[1..] == word[1..]);
        }
      } else {
        assert Text.Lower(s[from..])[0] == s[from];
        var i :| 0 <= i < |image| && (!Ascii(image[i]) || image[i] == 'k');
        assert (image + rest)[i] == image[i];
      }
    }
  }

  predicate Word(word: string) {
    forall i :: 0 <= i < |word| ==> 'a' <= word[i] <= 'z' && word[i] != 'k'
  }

  lemma KindIs(h: Host, kind: string, word: string)
    requires h.Lawful() && Word(word)
    ensures h.PyLower(kind, 0) == word <==> Text.EqIgnoreAsciiCase(kind, word)
  {
    assert kind[0..] == kind;
    PyLowerIs(h, kind, 0, word);
    assert Text.Lower(word) == word;
  }

  lemma KindRequest(h: Host, kind: string)
    requires h.Lawful()
    ensures h.PyLower(kind, 0) == "request" <==> Text.EqIgnoreAsciiCase(kind, "request")
  {
    KindIs(h, kind, "request");
  }

  lemma KindExecute(h: Host, kind: string)
    requires h.Lawful()
    ensures h.PyLower(kind, 0) == "execute" <==> Text.EqIgnoreAsciiCase(kind, "execute")
  {
    KindIs(h, kind, "execute");
  }

  lemma KindEstimate(h: Host, kind: string)
    requires h.Lawful()
    ensures h.PyLower(kind, 0) == "estimate" <==> Text.EqIgnoreAsciiCase(kind, "estimate")
  {
    KindIs(h, kind, "estimate");
  }

  /** Both ways of comparing the kind without regard to case come to the same. */
  lemma KindsSame(h: Host, kind: string)
    requires h.Lawful()
    ensures RustKind(kind) == PythonKind(h, kind)
  {
    KindRequest(h, kind);
    KindExecute(h, kind);
    KindEstimate(h, kind);
  }

  lemma OverlapIsAnyField(fields: map<string, Json>, names: set<string>)
    ensures AnyField(fields, names) <==> fields.Keys * names != {}
  {
    if key :| key in fields && key in names {
      assert key in fields.Keys * names;
    }
  }

  lemma ExcessIsAnyOther(fields: map<string, Json>, names: set<string>)
    ensures (exists key :: key in fields && key !in names) <==> fields.Keys - names != {}
  {
    if key :| key in fields && key !in names {
      assert key in fields.Keys - names;
    }
  }

  /** The keys a native document must not have, as the contract lists them. */
  const BARRED: set<string> :=
    {"job_spec", "program_id", "parameters", "job_runs", "sequence", "human_qir", "input_params", "iqmjson",
     "use_timeslot", "tag", "request", "input", "job_type", "qubits", "simulator_type", "simulation_method", "config"}

  /** The keys a legacy object may have. */
  const LEGACY_KEYS: set<string> :=
    {"input", "job_type", "qubits", "simulator_type", "simulation_method", "observables", "config"}

  lemma RustBarsExactly(key: string)
    ensures RustBars(key) <==> key in BARRED
  {
  }

  /** Both sides' lists are the same. */
  lemma SameLists()
    ensures PYTHON_FOREIGN == RUST_FOREIGN && PYTHON_LEGACY == RUST_LEGACY == LEGACY_KEYS
    ensures PYTHON_FOREIGN + PYTHON_ENVELOPE + {"request"} == BARRED
  {
  }

  lemma BarredFields(fields: map<string, Json>)
    ensures (exists key :: key in fields && RustBars(key)) <==> fields.Keys * BARRED != {}
    ensures fields.Keys * (PYTHON_FOREIGN + PYTHON_ENVELOPE + {"request"}) == fields.Keys * BARRED
  {
    SameLists();
    if key :| key in fields && RustBars(key) {
      RustBarsExactly(key);
      assert key in fields.Keys * BARRED;
    }
    if key :| key in fields.Keys * BARRED {
      RustBarsExactly(key);
      assert key in fields && RustBars(key);
    }
  }

  /** Both sides accept the same request texts and send documents of the same JSON. */
  lemma RequestsAgree(h: Host, j: Json)
    requires h.Lawful()
    ensures RustRequest(h, j).Some? <==> RequestPayload(h, j).Some?
    ensures RustRequest(h, j).Some? ==> SamePayload(h, RustRequest(h, j).value, RequestPayload(h, j).value)
  {
    var document := if j.Str? then h.parse(j.s) else Some(j);
    if document.Some? && document.value.Obj? {
      BarredFields(document.value.fields);
    }
  }

  lemma LegacyAgree(h: Host, fields: map<string, Json>)
    requires h.Lawful() && HasText(fields, "job_type")
    requires var kind := RustKind(fields["job_type"].s); kind.Execute? || kind.Estimate?
    ensures RustLegacy(h, fields).Some? <==> PythonLegacy(h, fields).Some?
    ensures RustLegacy(h, fields).Some? ==> SamePayload(h, RustLegacy(h, fields).value, PythonLegacy(h, fields).value)
  {
  }

  predicate Agree(h: Host, a: Option<Payload>, b: Option<Payload>) {
    (a.Some? <==> b.Some?) && (a.Some? ==> SamePayload(h, a.value, b.value))
  }

  /** Values with one of the keys of the new forms. */
  lemma NewFormsAgree(h: Host, value: Json)
    requires h.Lawful() && value.Obj? && ("request" in value.fields || "schema_version" in value.fields)
    ensures Agree(h, RustDecode(h, value), PythonDecode(h, value))
  {
    var fields := value.fields;
    SameLists();
    OverlapIsAnyField(fields, RUST_FOREIGN);
    if "request" in fields {
      OnlyKey(fields, "request");
      RequestsAgree(h, fields["request"]);
    } else {
      RequestsAgree(h, value);
    }
  }

  /** Values with neither. */
  lemma LegacyFormsAgree(h: Host, value: Json)
    requires h.Lawful() && value.Obj? && "request" !in value.fields && "schema_version" !in value.fields
    ensures Agree(h, RustDecode(h, value), PythonDecode(h, value))
  {
    var fields := value.fields;
    SameLists();
    OverlapIsAnyField(fields, RUST_FOREIGN);
    ExcessIsAnyOther(fields, RUST_LEGACY);
    if HasText(fields, "job_type") {
      var kind := RustKind(fields["job_type"].s);
      KindsSame(h, fields["job_type"].s);
      if kind.Request? && "input" in fields {
        RequestsAgree(h, fields["input"]);
      } else if kind.Execute? || kind.Estimate? {
        LegacyAgree(h, fields);
      }
    }
  }

  /** Both decoders accept the same values and read the same payload out of them. */
  lemma DecodersAgree(h: Host, value: Json)
    requires h.Lawful()
    ensures RustDecode(h, value).Some? <==> PythonDecode(h, value).Some?
    ensures RustDecode(h, value).Some? ==> SamePayload(h, RustDecode(h, value).value, PythonDecode(h, value).value)
  {
    if value.Obj? {
      if "request" in value.fields || "schema_version" in value.fields {
        NewFormsAgree(h, value);
      } else {
        LegacyFormsAgree(h, value);
      }
    }
  }

  lemma OnlyKey<V>(m: map<string, V>, key: string)
    requires key in m
    ensures |m| == 1 <==> m.Keys == {key}
  {
    var others := m.Keys - {key};
    assert m.Keys == {key} + others;
    assert |m.Keys| == 1 + |others|;
    assert |m| == |m.Keys|;
  }

  // ----- spellings of a native document ---------------------------------------------------------

  /** A native request document. */
  predicate Native(d: Json) {
    && d.Obj? && "schema_version" in d.fields && d.fields["schema_version"] == Num(2)
    && d.fields.Keys * BARRED == {}
  }

  /** The document itself or a string of it. */
  predicate Written(h: Host, j: Json, d: Json) {
    if j.Str? then h.parse(j.s) == Some(d) else j == d
  }

  predicate Wrapped(h: Host, v: Json, d: Json) {
    v.Obj? && v.fields.Keys == {"request"} && Written(h, v.fields["request"], d)
  }

  predicate Enveloped(h: Host, v: Json, d: Json) {
    && v.Obj? && v.fields.Keys <= LEGACY_KEYS
    && HasText(v.fields, "job_type") && RustKind(v.fields["job_type"].s).Request?
    && "input" in v.fields && Written(h, v.fields["input"], d)
  }

  /** Bare, wrapped, or in a `job_type=request` envelope with ignored legacy fields. */
  predicate Spells(h: Host, v: Json, d: Json) {
    v == d || Wrapped(h, v, d) || Enveloped(h, v, d)
  }

  ghost function RequestFor(h: Host, d: Json): Payload {
    Payload(h.rust(d), "request", 0, 0, 0, "", "{}")
  }

  lemma RequestOfDocument(h: Host, j: Json, d: Json)
    requires h.Lawful()
    ensures Native(d) && Written(h, j, d) <==> RustRequest(h, j) == Some(RequestFor(h, d))
  {
    var document := if j.Str? then h.parse(j.s) else Some(j);
    if document.Some? && document.value.Obj? {
      BarredFields(document.value.fields);
      assert h.rust(document.value) == h.rust(d) ==> h.parse(h.rust(document.value)) == Some(d);
    }
  }

  lemma WrappedDecodes(h: Host, v: Json, d: Json)
    requires h.Lawful() && v.Obj? && "request" in v.fields
    ensures Native(d) && Wrapped(h, v, d) <==> RustDecode(h, v) == Some(RequestFor(h, d))
  {
    OverlapIsAnyField(v.fields, RUST_FOREIGN);
    OnlyKey(v.fields, "request");
    RequestOfDocument(h, v.fields["request"], d);
  }

  lemma BareDecodes(h: Host, v: Json, d: Json)
    requires h.Lawful() && v.Obj? && "request" !in v.fields && "schema_version" in v.fields
    ensures Native(d) && v == d <==> RustDecode(h, v) == Some(RequestFor(h, d))
  {
    OverlapIsAnyField(v.fields, RUST_FOREIGN);
    RequestOfDocument(h, v, d);
  }

  /** A legacy object whose kind is a request. */
  predicate IsEnvelope(fields: map<string, Json>) {
    && fields.Keys <= LEGACY_KEYS
    && HasText(fields, "job_type") && RustKind(fields["job_type"].s).Request?
    && "input" in fields
  }

  lemma WithinLegacy(fields: map<string, Json>)
    ensures fields.Keys <= LEGACY_KEYS <==>
            !AnyField(fields, RUST_FOREIGN) && !(exists key :: key in fields && key !in RUST_LEGACY)
  {
    SameLists();
    OverlapIsAnyField(fields, RUST_FOREIGN);
    ExcessIsAnyOther(fields, RUST_LEGACY);
    assert RUST_LEGACY * RUST_FOREIGN == {};
  }

  /** Without the keys of the new forms, a value is read as an envelope or as a legacy payload. */
  lemma EnvelopeRead(h: Host, v: Json)
    requires v.Obj? && "request" !in v.fields && "schema_version" !in v.fields
    ensures IsEnvelope(v.fields) ==> RustDecode(h, v) == RustRequest(h, v.fields["input"])
    ensures !IsEnvelope(v.fields) && RustDecode(h, v).Some? ==> RustDecode(h, v).value.jobType != "request"
  {
    WithinLegacy(v.fields);
    LegacyIsNoRequest(h, v.fields);
  }

  lemma EnvelopedDecodes(h: Host, v: Json, d: Json)
    requires h.Lawful() && v.Obj? && "request" !in v.fields && "schema_version" !in v.fields
    ensures Native(d) && Enveloped(h, v, d) <==> RustDecode(h, v) == Some(RequestFor(h, d))
  {
    EnvelopeRead(h, v);
    if IsEnvelope(v.fields) {
      RequestOfDocument(h, v.fields["input"], d);
    }
  }

  /**
   * A value decodes to the request for `d` exactly when it is one of the spellings of the native
   * document `d`; so all spellings of one document yield the same request.
   */
  lemma SpellingsOfOneDocument(h: Host, v: Json, d: Json)
    requires h.Lawful()
    ensures Native(d) && Spells(h, v, d) <==> RustDecode(h, v) == Some(RequestFor(h, d))
  {
    if v.Obj? {
      if "request" in v.fields {
        WrappedDecodes(h, v, d);
      } else if "schema_version" in v.fields {
        BareDecodes(h, v, d);
      } else {
        EnvelopedDecodes(h, v, d);
      }
    }
  }

  lemma LegacyIsNoRequest(h: Host, fields: map<string, Json>)
    ensures RustLegacy(h, fields).Some? ==> RustLegacy(h, fields).value.jobType != "request"
  {
    assert RustKind("request").Request?;
  }

  // ----- spellings of a legacy payload ----------------------------------------------------------

  /** A legacy object for a payload; observables and configuration may be missing, and have their defaults then. */
  predicate Names(fields: map<string, Json>, p: Payload) {
    && {"input", "job_type", "qubits", "simulator_type", "simulation_method"} <= fields.Keys
    && fields.Keys <= LEGACY_KEYS
    && fields["input"] == Str(p.input) && fields["job_type"] == Str(p.jobType)
    && fields["qubits"] == Num(p.qubits) && fields["simulator_type"] == Num(p.simulatorType)
    && fields["simulation_method"] == Num(p.simulationMethod)
    && (if "observables" in fields then fields["observables"] == Str(p.observables) else p.observables == "")
    && (if "config" in fields && fields["config"] != Null then fields["config"] == Str(p.config) else p.config == "{}")
  }

  predicate IsLegacy(p: Payload) {
    (RustKind(p.jobType).Execute? || RustKind(p.jobType).Estimate?) && p.qubits != 0
  }

  /** A payload written as a legacy object is decoded to that payload. */
  lemma LegacyRoundTrip(h: Host, fields: map<string, Json>, p: Payload)
    requires h.Lawful() && IsLegacy(p) && Names(fields, p)
    ensures RustDecode(h, Obj(fields)) == Some(p)
    ensures PythonDecode(h, Obj(fields)).Some? && SamePayload(h, p, PythonDecode(h, Obj(fields)).value)
  {
    RustDecodesLegacy(h, fields);
    RustReadsBack(h, fields, p);
    DecodersAgree(h, Obj(fields));
  }

  lemma RustReadsBack(h: Host, fields: map<string, Json>, p: Payload)
    requires IsLegacy(p) && Names(fields, p)
    ensures RustLegacy(h, fields) == Some(p)
  {
  }

  lemma RustDecodesLegacy(h: Host, fields: map<string, Json>)
    requires fields.Keys <= LEGACY_KEYS && HasText(fields, "job_type") && !RustKind(fields["job_type"].s).Request?
    ensures RustDecode(h, Obj(fields)) == RustLegacy(h, fields)
  {
    WithinLegacy(fields);
  }

  // ----- the contract written out ---------------------------------------------------------------

  /** A bare document is accepted exactly if it says version 2 and has none of the barred keys. */
  lemma NativeExactly(h: Host, fields: map<string, Json>)
    requires h.Lawful() && "schema_version" in fields
    ensures
      var ok := fields["schema_version"] == Num(2) && fields.Keys * BARRED == {};
      && RustDecode(h, Obj(fields)) ==
           (if ok then Some(Payload(h.rust(Obj(fields)), "request", 0, 0, 0, "", "{}")) else None)
      && (PythonDecode(h, Obj(fields)).Some? <==> ok)
  {
    BarredFields(fields);
    SameLists();
    OverlapIsAnyField(fields, RUST_FOREIGN);
    if key :| key in fields && key in RUST_FOREIGN {
      assert key in fields.Keys * BARRED;
    }
    if "request" in fields {
      OnlyKey(fields, "request");
      assert "request" in fields.Keys * BARRED;
    }
    DecodersAgree(h, Obj(fields));
  }

  /** Without the keys of the new forms, only legacy keys are accepted. */
  lemma LegacyKeysOnly(h: Host, fields: map<string, Json>)
    requires h.Lawful() && "schema_version" !in fields && "request" !in fields
    ensures RustDecode(h, Obj(fields)).Some? || PythonDecode(h, Obj(fields)).Some? ==>
              fields.Keys <= LEGACY_KEYS && "input" in fields && HasText(fields, "job_type")
  {
    WithinLegacy(fields);
    DecodersAgree(h, Obj(fields));
  }

  lemma LowerIsWord(kind: string, word: string)
    requires Word(word)
    ensures Text.EqIgnoreAsciiCase(kind, word) <==> Text.Lower(kind) == word
  {
    Text.EqIgnoreIsLower(kind, word);
    assert Text.Lower(word) == word;
  }

  /** And the kind must be one of three words, in any case. */
  lemma KindsKnown(kind: string)
    ensures !RustKind(kind).Unknown? <==> Text.Lower(kind) in {"request", "execute", "estimate"}
  {
    RequestIsWord(kind);
    LowerIsWord(kind, "execute");
    LowerIsWord(kind, "estimate");
  }

  lemma RequestIsWord(kind: string)
    ensures Text.EqIgnoreAsciiCase(kind, "request") <==> Text.Lower(kind) == "request"
  {
    LowerIsWord(kind, "request");
  }

  lemma UnknownKindRefused(h: Host, fields: map<string, Json>)
    requires h.Lawful() && "schema_version" !in fields && "request" !in fields && HasText(fields, "job_type")
    requires Text.Lower(fields["job_type"].s) !in {"request", "execute", "estimate"}
    ensures RustDecode(h, Obj(fields)).None? && PythonDecode(h, Obj(fields)).None?
  {
    KindsKnown(fields["job_type"].s);
    DecodersAgree(h, Obj(fields));
  }
}

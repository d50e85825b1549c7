/** Alice & Bob Felis: device names, and the promise behind the errors of `task_start`. */
module Felis {
  import opened Wrappers
  import opened Text

  // ----- names of targets and devices ------------------------------------------------------------

  function Upper(s: string): (r: string)
    ensures |r| == |s|
    ensures forall i :: 0 <= i < |s| ==> r[i] == UpperChar(s[i])
  {
    if s == [] then [] else [UpperChar(s[0])] + Upper(s[1..])
  }

  /** `str::replacen` for one-character strings. */
  function ReplaceN(s: string, from: char, to: char, n: nat): string {
    if s == [] then []
    else if s[0] == from && n > 0 then [to] + ReplaceN(s[1..], from, to, n - 1)
    else [s[0]] + ReplaceN(s[1..], from, to, n)
  }

  function Replace(s: string, from: char, to: char): string {
    ReplaceN(s, from, to, |s|)
  }

  function TargetToDevice(target: string): string {
    "ab_" + Lower(Replace(target, ':', '_'))
  }

  function StripPrefix(prefix: string, s: string): string {
    if prefix <= s then s[|prefix|..] else s
  }

  function DeviceToTarget(device: string): string {
    Upper(ReplaceN(StripPrefix("ab_", device), '_', ':', 2))
  }

  function Count(s: string, c: char): nat {
    if s == [] then 0 else (if s[0] == c then 1 else 0) + Count(s[1..], c)
  }

  lemma {:induction false} ReplaceNAt(s: string, from: char, to: char, n: nat)
    ensures |ReplaceN(s, from, to, n)| == |s|
    ensures forall i :: 0 <= i < |s| ==>
              ReplaceN(s, from, to, n)[i] == if s[i] == from && Count(s[..i], from) < n then to else s[i]
  {
    if s != [] {
      var fewer := if s[0] == from && n > 0 then n - 1 else n;
      ReplaceNAt(s[1..], from, to, fewer);
      forall i | 0 < i < |s|
        ensures ReplaceN(s, from, to, n)[i] == if s[i] == from && Count(s[..i], from) < n then to else s[i]
      {
        assert s[..i][1..] == s[1..][..i - 1];
      }
    }
  }

  lemma {:induction false} CountAtMost(s: string, c: char)
    ensures Count(s, c) <= |s|
  {
    if s != [] { CountAtMost(s[1..], c); }
  }

  predicate IsSeparator(c: char) {
    c == ':' || c == '_'
  }

  /** How many separators `s` has. */
  function Separators(s: string): nat {
    if s == [] then 0 else (if IsSeparator(s[0]) then 1 else 0) + Separators(s[1..])
  }

  lemma {:induction false} SeparatorsAsCount(s: string, d: string)
    requires |d| == |s| && forall i :: 0 <= i < |s| ==> (d[i] == '_' <==> IsSeparator(s[i]))
    ensures Count(d, '_') == Separators(s)
  {
    if s != [] { SeparatorsAsCount(s[1..], d[1..]); }
  }

  lemma ReplaceAt(s: string, from: char, to: char)
    ensures |Replace(s, from, to)| == |s|
    ensures forall i :: 0 <= i < |s| ==> Replace(s, from, to)[i] == if s[i] == from then to else s[i]
  {
    ReplaceNAt(s, from, to, |s|);
    forall i | 0 <= i < |s| ensures Count(s[..i], from) < |s| {
      CountAtMost(s[..i], from);
    }
  }

  predicate IsLower(c: char) { 'a' <= c <= 'z' }

  predicate IsUpper(c: char) { 'A' <= c <= 'Z' }

  /** The colons of a name are exactly its first separators, up to two of them. */
  predicate ColonsComeFirst(s: string) {
    forall i :: 0 <= i < |s| ==> IsSeparator(s[i]) ==> (s[i] == ':' <==> Separators(s[..i]) < 2)
  }

  /** What one character of a target name has become after the trip through the device name. */
  function BackChar(t: string, i: nat): char
    requires i < |t|
  {
    if !IsSeparator(t[i]) then UpperChar(LowerChar(t[i]))
    else if Separators(t[..i]) < 2 then ':'
    else '_'
  }

  lemma BackAt(t: string, i: nat)
    requires i < |t|
    ensures |DeviceToTarget(TargetToDevice(t))| == |t|
    ensures DeviceToTarget(TargetToDevice(t))[i] == BackChar(t, i)
  {
    ReplaceAt(t, ':', '_');
    var d := Lower(Replace(t, ':', '_'));
    assert StripPrefix("ab_", TargetToDevice(t)) == d;
    ReplaceNAt(d, '_', ':', 2);
    SeparatorsAsCount(t[..i], d[..i]);
  }

  /** The condition on one character under which it comes back unchanged. */
  predicate Kept(t: string, i: nat)
    requires i < |t|
  {
    !IsLower(t[i]) && (IsSeparator(t[i]) ==> (t[i] == ':' <==> Separators(t[..i]) < 2))
  }

  /** The names the case mapping of this module is right for. */
  predicate Ascii(s: string) {
    forall i :: 0 <= i < |s| ==> (s[i] as int) < 128
  }

  /** A target name survives the trip through its device name exactly under this condition. */
  lemma TargetRoundTrip(t: string)
    requires Ascii(t)
    ensures DeviceToTarget(TargetToDevice(t)) == t
            <==> (forall i :: 0 <= i < |t| ==> !IsLower(t[i])) && ColonsComeFirst(t)
  {
    SameExactlyIfKept(t, DeviceToTarget(TargetToDevice(t)));
    AllKept(t);
  }

  lemma AllKept(t: string)
    ensures (forall i :: 0 <= i < |t| ==> Kept(t, i)) <==>
            (forall i :: 0 <= i < |t| ==> !IsLower(t[i])) && ColonsComeFirst(t)
  {
    if forall i :: 0 <= i < |t| ==> Kept(t, i) {
      forall i | 0 <= i < |t|
        ensures !IsLower(t[i]) && (IsSeparator(t[i]) ==> (t[i] == ':' <==> Separators(t[..i]) < 2))
      {
        assert Kept(t, i);
      }
    }
  }

  lemma SameExactlyIfKept(t: string, back: string)
    requires back == DeviceToTarget(TargetToDevice(t))
    ensures back == t <==> forall i :: 0 <= i < |t| ==> Kept(t, i)
  {
    BackLength(t);
    forall i | 0 <= i < |t| ensures back[i] == t[i] <==> Kept(t, i) {
      BackAt(t, i);
    }
  }

  lemma BackLength(t: string)
    ensures |DeviceToTarget(TargetToDevice(t))| == |t|
  {
    ReplaceAt(t, ':', '_');
    var d := Lower(Replace(t, ':', '_'));
    assert StripPrefix("ab_", TargetToDevice(t)) == d;
    ReplaceNAt(d, '_', ':', 2);
  }

  /** A third colon and a lower-case letter do not come back. */
  lemma TargetRoundTripFails()
    ensures DeviceToTarget(TargetToDevice(":::")) != ":::"
    ensures DeviceToTarget(TargetToDevice("a")) != "a"
  {
    var t := ":::";
    assert t[..2] == "::" && Separators("::") == 2 && t[2] == ':';
    TargetRoundTrip(t);
    assert "a"[0] == 'a';
    TargetRoundTrip("a");
  }

  /** A device name survives exactly when it carries the prefix and has neither capitals nor colons. */
  lemma DeviceRoundTrip(d: string)
    requires Ascii(d)
    ensures TargetToDevice(DeviceToTarget(d)) == d
            <==> "ab_" <= d && forall i :: 3 <= i < |d| ==> !IsUpper(d[i]) && d[i] != ':'
  {
    var rest := StripPrefix("ab_", d);
    ReplaceNAt(rest, '_', ':', 2);
    var t := DeviceToTarget(d);
    ReplaceAt(t, ':', '_');
    var back := TargetToDevice(t);
    assert back[3..] == Lower(Replace(t, ':', '_'));
    forall i | 0 <= i < |rest|
      ensures back[3..][i] == if IsSeparator(rest[i]) then '_' else LowerChar(rest[i])
    {
    }
    assert "ab_" <= back;
    if "ab_" <= d {
      assert d == "ab_" + rest && back == "ab_" + back[3..];
      assert back == d <==> back[3..] == rest;
      assert back[3..] == rest <==> forall i :: 0 <= i < |rest| ==> back[3..][i] == rest[i];
      assert forall i :: 3 <= i < |d| ==> d[i] == rest[i - 3];
      assert forall i :: 0 <= i < |rest| ==> rest[i] == d[i + 3];
    }
  }

  // ----- starting a task -------------------------------------------------------------------------

  datatype Payload = AliceBobFelis(humanQir: string, inputParams: string) | OtherVendor

  datatype ApiError = Response(status: nat) | Transport

  datatype ResourceKind = Backend | JobKind

  function Classify(e: ApiError, kind: ResourceKind): ErrorKind {
    match e
    case Transport => Other
    case Response(status) =>
      if status == 400 || status == 422 then InvalidInput
      else if status == 401 then AuthenticationFailed
      else if status == 404 then (if kind == Backend then ResourceNotFound else TaskNotFound)
      else Other
  }

  /** Which answers of the service stand for which kind of error; all others, and no answer, are Other. */
  lemma KindsOfStatus(e: ApiError, kind: ResourceKind)
    ensures Classify(e, kind) == InvalidInput <==> e in {Response(400), Response(422)}
    ensures Classify(e, kind) == AuthenticationFailed <==> e == Response(401)
    ensures Classify(e, kind) == ResourceNotFound <==> e == Response(404) && kind == Backend
    ensures Classify(e, kind) == ErrorKind.TaskNotFound <==> e == Response(404) && kind == JobKind
    ensures Classify(e, kind) == Other <==> e !in {Response(400), Response(422), Response(401), Response(404)}
  {
  }

  datatype Job<J> = Job(id: string, target: string, params: J, input: Option<string>)

  /** The vendor's service, as seen through the calls of this client. */
  class Api<J> {
    /** The jobs these calls brought into being. */
    var created: seq<Job<J>>
    var exchanges: nat
    /** How the last exchange failed, if it did. */
    var failure: Option<ApiError>

    /** A refusal by one of the classified codes creates nothing; any other failure may hide a new job. */
    method CreateJob(target: string, params: J) returns (r: Result<string, ApiError>)
      modifies this
      ensures exchanges == old(exchanges) + 1
      ensures failure == if r.Failure? then Some(r.error) else None
      ensures r.Success? ==> created == old(created) + [Job(r.value, target, params, None)]
      ensures r.Failure? && Classify(r.error, Backend) != Other ==> created == old(created)
      ensures created == old(created)
              || exists id :: created == old(created) + [Job(id, target, params, None)]
    {
      exchanges := exchanges + 1;
      var id: string, e: ApiError, ok: bool, made: bool := *, *, *, *;
      if ok || (made && Classify(e, Backend) == Other) {
        created := created + [Job(id, target, params, None)];
      }
      r := if ok then Success(id) else Failure(e);
      failure := if ok then None else Some(e);
    }

    /** The last created job is the one the input goes to. */
    method UploadInput(id: string, input: string) returns (r: Result<(), ApiError>)
      requires created != [] && created[|created| - 1].id == id
      modifies this
      ensures exchanges == old(exchanges) + 1 && |created| == |old(created)|
      ensures failure == if r.Failure? then Some(r.error) else None
      ensures created[..|created| - 1] == old(created[..|created| - 1])
      ensures var job := old(created[|created| - 1]);
              || created[|created| - 1] == job.(input := Some(input))
              || (r.Failure? && created[|created| - 1] == job)
    {
      exchanges := exchanges + 1;
      var e: ApiError, ok: bool, stored: bool := *, *, *;
      if ok || stored {
        var last := |created| - 1;
        created := created[last := created[last].(input := Some(input))];
      }
      r := if ok then Success(()) else Failure(e);
      failure := if ok then None else Some(e);
    }
  }

  class Resource<J(!new)> {
    const api: Api<J>
    const felisTarget: string
    const parse: string -> Option<J>

    constructor (api: Api<J>, backendName: string, parse: string -> Option<J>)
      ensures this.api == api && this.parse == parse
      ensures felisTarget == DeviceToTarget(backendName)
    {
      this.api := api;
      this.parse := parse;
      felisTarget := DeviceToTarget(backendName);
    }

    /** Every kind of error but `Other` means that this call created no job. */
    method TaskStart(payload: Payload) returns (r: Result<string, ErrorKind>)
      modifies api
      ensures r.Failure? && r.error != Other ==> api.created == old(api.created)
      ensures old(api.created) <= api.created && |api.created| <= |old(api.created)| + 1
      ensures r.Success? ==>
                && payload.AliceBobFelis? && parse(payload.inputParams).Some?
                && api.created == old(api.created)
                   + [Job(r.value, felisTarget, parse(payload.inputParams).value, Some(payload.humanQir))]
      ensures payload.OtherVendor? ==> r == Failure(UnsupportedPayload) && api.exchanges == old(api.exchanges)
      ensures payload.AliceBobFelis? && parse(payload.inputParams).None? ==>
                r == Failure(InvalidInput) && api.exchanges == old(api.exchanges)
      ensures r.Failure? && api.exchanges == old(api.exchanges) + 1 ==>
                api.failure.Some? && r.error == Classify(api.failure.value, Backend)
      ensures api.exchanges > old(api.exchanges) + 1 ==>
                && |api.created| == |old(api.created)| + 1
                && if api.failure.None? then r.Success? else r == Failure(Other)
      ensures api.exchanges <= old(api.exchanges) + 2
    {
      match payload
      case AliceBobFelis(humanQir, inputParams) =>
        match parse(inputParams) {
          case None =>
            return Failure(InvalidInput);
          case Some(params) =>
            var job := api.CreateJob(felisTarget, params);
            if job.Failure? {
              return Failure(Classify(job.error, Backend));
            }
            ghost var made := api.created;
            var upload := api.UploadInput(job.value, humanQir);
            assert api.created == made[..|made| - 1] + [api.created[|made| - 1]];
            if upload.Failure? {
              return Failure(Other);
            }
            return Success(job.value);
        }
      case OtherVendor =>
        return Failure(UnsupportedPayload);
    }
  }
}

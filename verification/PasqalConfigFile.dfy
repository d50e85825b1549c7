/** The configuration file of the Pasqal cloud client: `key = value` lines. */
module PasqalConfigFile {
  import opened Wrappers
  import Text

  datatype Field = Username | Password | ClientId | ClientSecret | Token | ProjectId | AuthEndpoint

  type Config = map<Field, string>

  function FieldOf(key: string): Option<Field> {
    match key
    case "username" => Some(Username)
    case "password" => Some(Password)
    case "client_id" => Some(ClientId)
    case "client_secret" => Some(ClientSecret)
    case "token" => Some(Token)
    case "project_id" => Some(ProjectId)
    case "auth_endpoint" => Some(AuthEndpoint)
    case _ => None
  }

  predicate Quoted(s: string, quote: char) {
    s != [] && s[0] == quote && s[|s| - 1] == quote
  }

  /** `None` is a panic: the slice `1..0` of a text that is a single quote character. */
  function StripQuotes(s: string): Option<string> {
    var t := Text.Trim(s);
    if Quoted(t, '"') || Quoted(t, '\'') then
      if |t| < 2 then None else Some(t[1..|t| - 1])
    else Some(t)
  }

  /** Quoting a value and stripping the quotes gives it back, white space at its ends included. */
  lemma StripQuoted(v: string, quote: char)
    requires quote == '"' || quote == '\''
    ensures StripQuotes([quote] + v + [quote]) == Some(v)
  {
    Text.TrimTrimmed([quote] + v + [quote]);
  }

  datatype Line = Skipped | Sets(field: Field, value: string) | Panics

  /** The value is unquoted before the key is looked at. */
  function ReadLine(raw: string): Line {
    var line := Text.Trim(raw);
    if line == [] || line[0] == '#' || line[0] == ';' then Skipped
    else
      match Text.SplitOnce(line, '=')
      case None => Skipped
      case Some((key, value)) =>
        match StripQuotes(value)
        case None => Panics
        case Some(v) =>
          match FieldOf(Text.Lower(Text.Trim(key)))
          case None => Skipped
          case Some(field) => Sets(field, Text.Trim(v))
  }

  /** A value that consists of one quote character, which the parser cannot survive. */
  predicate LoneQuote(raw: string) {
    var line := Text.Trim(raw);
    && line != [] && line[0] != '#' && line[0] != ';'
    && var pair := Text.SplitOnce(line, '=');
    pair.Some? && (Text.Trim(pair.value.1) == "\"" || Text.Trim(pair.value.1) == "'")
  }

  predicate AnyLoneQuote(lines: seq<string>) {
    exists i :: 0 <= i < |lines| && LoneQuote(lines[i])
  }

  /** The last value a file gives a field. */
  function LastValue(lines: seq<string>, field: Field): Option<string> {
    if lines == [] then None
    else
      match ReadLine(lines[|lines| - 1])
      case Sets(f, v) => if f == field then Some(v) else LastValue(lines[..|lines| - 1], field)
      case _ => LastValue(lines[..|lines| - 1], field)
  }

  lemma PanicLine(raw: string)
    ensures ReadLine(raw).Panics? <==> LoneQuote(raw)
  {
    var line := Text.Trim(raw);
    var pair := Text.SplitOnce(line, '=');
    if pair.Some? {
      var t := Text.Trim(pair.value.1);
      assert t == "\"" <==> |t| == 1 && t[0] == '"';
      assert t == "'" <==> |t| == 1 && t[0] == '\'';
    }
  }

  /** The keys, and the fields they set. */
  function FieldName(field: Field): string {
    match field
    case Username => "username"
    case Password => "password"
    case ClientId => "client_id"
    case ClientSecret => "client_secret"
    case Token => "token"
    case ProjectId => "project_id"
    case AuthEndpoint => "auth_endpoint"
  }

  lemma FieldOfName(key: string, field: Field)
    ensures FieldOf(key) == Some(field) <==> key == FieldName(field)
  {
  }

  /** A key, in any case, with a value sets its field; white space around both and quotes around the value go. */
  lemma LineSets(key: string, field: Field, v: string)
    requires Text.Lower(key) == FieldName(field) && Text.Trimmed(key) && key != [] && '=' !in key
    requires key[0] != '#' && key[0] != ';'
    requires Text.Trimmed(v) && v != [] && !Quoted(v, '"') && !Quoted(v, '\'')
    ensures ReadLine(key + ['='] + v) == Sets(field, v)
  {
    var line := key + ['='] + v;
    Text.TrimTrimmed(line);
    Text.SplitOnceAt(key, '=', v);
    Text.TrimTrimmed(key);
    Text.TrimTrimmed(v);
    FieldOfName(Text.Lower(key), field);
  }

  /** Comments and lines without `=` set nothing. */
  lemma OtherLinesSkipped(raw: string)
    requires var line := Text.Trim(raw); line == [] || line[0] == '#' || line[0] == ';' || '=' !in line
    ensures ReadLine(raw) == Skipped
  {
    NoSeparator(Text.Trim(raw));
  }

  /** And so do unknown keys. */
  lemma OnlyKnownKeysSet(raw: string)
    requires ReadLine(raw).Sets?
    ensures var pair := Text.SplitOnce(Text.Trim(raw), '=');
            pair.Some? && Text.Lower(Text.Trim(pair.value.0)) == FieldName(ReadLine(raw).field)
  {
    var pair := Text.SplitOnce(Text.Trim(raw), '=').value;
    FieldOfName(Text.Lower(Text.Trim(pair.0)), ReadLine(raw).field);
  }

  lemma {:induction false} NoSeparator(s: string)
    ensures '=' !in s ==> Text.SplitOnce(s, '=').None?
  {
    if s != [] {
      NoSeparator(s[1..]);
    }
  }

  /** A file that the parser does not survive. */
  lemma PanicExample()
    ensures ReadLine("token=\"") == Panics
  {
    var line := "token=\"";
    Text.TrimTrimmed(line);
    Text.SplitOnceAt("token", '=', "\"");
    assert line == "token" + ['='] + "\"";
    Text.TrimTrimmed("\"");
  }

  /** The value of every field is the last one that the lines give it. */
  ghost predicate Holds(config: Config, lines: seq<string>) {
    forall f :: LastValue(lines, f) == if f in config then Some(config[f]) else None
  }

  function Updated(config: Config, line: Line): Config {
    if line.Sets? then config[line.field := line.value] else config
  }

  lemma OneLineMore(config: Config, lines: seq<string>, i: nat)
    requires i < |lines| && Holds(config, lines[..i])
    ensures Holds(Updated(config, ReadLine(lines[i])), lines[..i + 1])
  {
    var more := lines[..i + 1];
    assert more[..i] == lines[..i] && more[i] == lines[i];
    forall f ensures LastValue(more, f) ==
                     var line := ReadLine(lines[i]);
                     if line.Sets? && line.field == f then Some(line.value) else LastValue(lines[..i], f)
    {
    }
  }

  /**
   * The parser fails exactly on a file with a lone quote as a value; otherwise every field has the
   * last value given for it, and other lines and keys have no effect.
   */
  method ParsePasqalConfigContent(content: string) returns (r: Option<Config>)
    ensures r.None? <==> AnyLoneQuote(Text.Split(content, '\n'))
    ensures r.Some? ==> Holds(r.value, Text.Split(content, '\n'))
  {
    var lines := Text.Split(content, '\n');
    var config: Config := map[];
    for i := 0 to |lines|
      invariant forall j :: 0 <= j < i ==> !LoneQuote(lines[j])
      invariant Holds(config, lines[..i])
    {
      var line := ReadLine(lines[i]);
      PanicLine(lines[i]);
      OneLineMore(config, lines, i);
      match line {
        case Skipped =>
        case Panics =>
          assert LoneQuote(lines[i]);
          return None;
        case Sets(field, value) => config := config[field := value];
      }
    }
    assert lines[..|lines|] == lines;
    return Some(config);
  }
}

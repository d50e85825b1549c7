/** Environment variables in the configuration paths of the Pasqal cloud client. */
module PathExpansion {
  import opened Wrappers
  import Text

  type Environment = map<string, string>

  predicate NameChar(c: char) {
    c == '_' || 'a' <= c <= 'z' || 'A' <= c <= 'Z' || '0' <= c <= '9'
  }

  /** The characters of names: underscore, digits and letters, one by one. */
  lemma NameCharExactly(c: char)
    ensures NameChar(c) <==> c == '_' || c in "0123456789" || c in "ABCDEFGHIJKLMNOPQRSTUVWXYZ"
                             || c in "abcdefghijklmnopqrstuvwxyz"
  {
    Digits(c);
    UpperLetters(c);
    LowerLetters(c);
  }

  lemma Digits(c: char)
    ensures '0' <= c <= '9' <==> c in "0123456789"
  {
    if '0' <= c <= '9' { assert "0123456789"[c as int - 48] == c; }
  }

  lemma UpperLetters(c: char)
    ensures 'A' <= c <= 'Z' <==> c in "ABCDEFGHIJKLMNOPQRSTUVWXYZ"
  {
    if 'A' <= c <= 'Z' { assert "ABCDEFGHIJKLMNOPQRSTUVWXYZ"[c as int - 65] == c; }
  }

  lemma LowerLetters(c: char)
    ensures 'a' <= c <= 'z' <==> c in "abcdefghijklmnopqrstuvwxyz"
  {
    if 'a' <= c <= 'z' { assert "abcdefghijklmnopqrstuvwxyz"[c as int - 97] == c; }
  }

  predicate AllNameChars(s: string) {
    forall i :: 0 <= i < |s| ==> NameChar(s[i])
  }

  // ----- the grammar ------------------------------------------------------------------------------

  datatype Token =
    | Literal(c: char)
    | Doubled                // $$
    | Braced(name: string)   // ${name}
    | Unclosed(rest: string) // ${ without a closing brace
    | Bare(name: string)     // $name
    | Lone                   // $ before anything else
  {
    predicate Malformed() {
      Unclosed? || (Braced? && (name == [] || !AllNameChars(name)))
    }

    function Spelled(): string {
      match this
      case Literal(c) => [c]
      case Doubled => "$$"
      case Braced(n) => "${" + n + "}"
      case Unclosed(rest) => "${" + rest
      case Bare(n) => "$" + n
      case Lone => "$"
    }

    /** A variable stands for its value, taken as it is, and for nothing if it is not set. */
    function Value(env: Environment): string {
      match this
      case Literal(c) => [c]
      case Braced(n) => if n in env then env[n] else ""
      case Bare(n) => if n in env then env[n] else ""
      case _ => "$"
    }
  }

  /** The longest prefix of name characters. */
  function NamePrefix(s: string): (n: string)
    ensures n <= s && AllNameChars(n) && (|n| < |s| ==> !NameChar(s[|n|]))
  {
    if s == [] || !NameChar(s[0]) then [] else [s[0]] + NamePrefix(s[1..])
  }

  function Head(s: string): (t: Token)
    requires s != []
    ensures t.Spelled() <= s && t.Spelled() != []
  {
    if s[0] != '$' then Literal(s[0])
    else if |s| > 1 && s[1] == '$' then Doubled
    else if |s| > 1 && s[1] == '{' then
      match Text.SplitOnce(s[2..], '}')
      case None => Unclosed(s[2..])
      case Some((name, rest)) =>
        SplitOnceSpells(s[2..], '}');
        Braced(name)
    else if NamePrefix(s[1..]) == [] then Lone
    else Bare(NamePrefix(s[1..]))
  }

  lemma {:induction false} SplitOnceSpells(s: string, sep: char)
    ensures match Text.SplitOnce(s, sep)
            case None => sep !in s
            case Some((k, v)) => s == k + [sep] + v && sep !in k
  {
    if s != [] && s[0] != sep {
      SplitOnceSpells(s[1..], sep);
    }
  }

  function Tokens(s: string): seq<Token> {
    if s == [] then [] else [Head(s)] + Tokens(s[|Head(s).Spelled()|..])
  }

  function Spell(tokens: seq<Token>): string {
    if tokens == [] then [] else tokens[0].Spelled() + Spell(tokens[1..])
  }

  lemma SpellCons(t: Token, tokens: seq<Token>)
    ensures Spell([t] + tokens) == t.Spelled() + Spell(tokens)
  {
    assert ([t] + tokens)[1..] == tokens;
  }

  /** The tokens are the string, cut into pieces. */
  lemma {:induction false} TokensSpell(s: string)
    ensures Spell(Tokens(s)) == s
    decreases |s|
  {
    if s != [] {
      var piece := Head(s).Spelled();
      var rest := s[|piece|..];
      TokensSpell(rest);
      SpellCons(Head(s), Tokens(rest));
      assert s == piece + rest;
    }
  }

  function Values(tokens: seq<Token>, env: Environment): string {
    if tokens == [] then [] else tokens[0].Value(env) + Values(tokens[1..], env)
  }

  predicate WellFormed(tokens: seq<Token>) {
    forall i :: 0 <= i < |tokens| ==> !tokens[i].Malformed()
  }

  /** Refused exactly when some token is malformed; otherwise the values of the tokens, one after the other. */
  function Expand(s: string, env: Environment): Result<string, ErrorKind> {
    if WellFormed(Tokens(s)) then Success(Values(Tokens(s), env)) else Failure(InvalidInput)
  }

  // ----- the scanner ------------------------------------------------------------------------------

  /** The value read so far, put before what the rest of the text expands to. */
  function Onto(prefix: string, r: Result<string, ErrorKind>): Result<string, ErrorKind> {
    match r case Success(s) => Success(prefix + s) case Failure(e) => Failure(e)
  }

  lemma ExpandHead(s: string, env: Environment)
    requires s != []
    ensures
      var t := Head(s);
      Expand(s, env) == if t.Malformed() then Failure(InvalidInput)
                        else Onto(t.Value(env), Expand(s[|t.Spelled()|..], env))
  {
    var rest := Tokens(s[|Head(s).Spelled()|..]);
    assert Tokens(s)[1..] == rest;
    assert forall i :: 0 <= i < |rest| ==> Tokens(s)[i + 1] == rest[i];
    assert WellFormed(Tokens(s)) <==> !Head(s).Malformed() && WellFormed(rest) by {
      if !Head(s).Malformed() && WellFormed(rest) {
        forall i | 0 <= i < |Tokens(s)| ensures !Tokens(s)[i].Malformed() {
          if i > 0 { assert Tokens(s)[i] == rest[i - 1]; }
        }
      }
    }
  }

  lemma OntoTwice(a: string, b: string, r: Result<string, ErrorKind>)
    ensures Onto(a, Onto(b, r)) == Onto(a + b, r)
  {
    if r.Success? {
      assert a + (b + r.value) == (a + b) + r.value;
    }
  }

  /** The loop over the characters after `${`, up to the closing brace. */
  method ReadBraced(value: string, start: nat) returns (key: string, closed: bool, next: nat)
    requires start <= |value|
    ensures closed ==> start < next <= |value| && Text.SplitOnce(value[start..], '}') == Some((key, value[next..]))
    ensures closed ==> |key| == next - start - 1
    ensures !closed ==> key == value[start..] && Text.SplitOnce(value[start..], '}').None?
  {
    key, closed, next := "", false, start;
    while next < |value|
      invariant start <= next <= |value| && key == value[start..next] && '}' !in key
    {
      var c := value[next];
      next := next + 1;
      if c == '}' {
        Text.SplitOnceAt(key, '}', value[next..]);
        assert value[start..] == key + [c] + value[next..];
        return key, true, next;
      }
      key := key + [c];
    }
    SplitOnceSpells(value[start..], '}');
  }

  /** The loop over the name characters after `$`. */
  method ReadBare(value: string, start: nat) returns (key: string)
    requires start <= |value|
    ensures key == NamePrefix(value[start..])
  {
    key := "";
    var next := start;
    while next < |value| && NameChar(value[next])
      invariant start <= next <= |value| && key == value[start..next] && AllNameChars(key)
    {
      key := key + [value[next]];
      next := next + 1;
    }
    NamePrefixIs(value[start..], key);
  }

  lemma {:induction false} NamePrefixIs(s: string, n: string)
    requires n <= s && AllNameChars(n) && (|n| < |s| ==> !NameChar(s[|n|]))
    ensures NamePrefix(s) == n
  {
    if n != [] {
      NamePrefixIs(s[1..], n[1..]);
    }
  }

  /** What reading one token at `i` must give: a refusal, or its value and the rest of the text. */
  predicate Reads(value: string, i: nat, env: Environment, r: Result<string, ErrorKind>, next: nat)
    requires i <= |value|
  {
    if r.Failure? then Expand(value[i..], env) == r
    else i < next <= |value| && Expand(value[i..], env) == Onto(r.value, Expand(value[next..], env))
  }

  lemma ReadsHead(value: string, i: nat, env: Environment, t: Token, next: nat)
    requires i < |value| && t == Head(value[i..]) && next == i + |t.Spelled()| <= |value|
    ensures Reads(value, i, env, if t.Malformed() then Failure(InvalidInput) else Success(t.Value(env)), next)
  {
    ExpandHead(value[i..], env);
    assert value[i..][|t.Spelled()|..] == value[next..];
  }

  /** The branches for a `$` at `i`: doubled, braced, and a bare or missing name. */
  method ReadDollar(value: string, i: nat, env: Environment) returns (r: Result<string, ErrorKind>, next: nat)
    requires i < |value| && value[i] == '$'
    ensures Reads(value, i, env, r, next)
  {
    ghost var s := value[i..];
    assert forall n :: 0 <= n <= |s| ==> s[n..] == value[i + n..];
    ghost var t := Head(s);
    if i + 1 < |value| && value[i + 1] == '$' {
      r, next := Success("$"), i + 2;
    } else if i + 1 < |value| && value[i + 1] == '{' {
      var key, closed, after := ReadBraced(value, i + 2);
      if !closed {
        r, next := Failure(InvalidInput), |value|;
      } else if key == "" || !AllNameChars(key) {
        r, next := Failure(InvalidInput), after;
      } else {
        r, next := Success(if key in env then env[key] else ""), after;
      }
    } else {
      var key := ReadBare(value, i + 1);
      if key == "" {
        r, next := Success("$"), i + 1;
      } else {
        r, next := Success(if key in env then env[key] else ""), i + 1 + |key|;
      }
    }
    assert next == i + |t.Spelled()|;
    assert r == if t.Malformed() then Failure(InvalidInput) else Success(t.Value(env));
    ReadsHead(value, i, env, t, next);
  }

  /** The scanner: character by character, with one character of look-ahead. */
  method ExpandEnvVars(value: string, env: Environment) returns (r: Result<string, ErrorKind>)
    ensures r == Expand(value, env)
  {
    var expanded := "";
    var i := 0;
    StartAndEnd(value, expanded, env);
    while i < |value|
      invariant i <= |value|
      invariant Expand(value, env) == Onto(expanded, Expand(value[i..], env))
      decreases |value| - i
    {
      if value[i] != '$' {
        LiteralAt(value, i, expanded, env);
        expanded := expanded + [value[i]];
        i := i + 1;
      } else {
        var piece, next := ReadDollar(value, i, env);
        if piece.Failure? {
          return piece;
        }
        OntoTwice(expanded, piece.value, Expand(value[next..], env));
        expanded := expanded + piece.value;
        i := next;
      }
    }
    StartAndEnd(value, expanded, env);
    return Success(expanded);
  }

  lemma StartAndEnd(value: string, expanded: string, env: Environment)
    ensures Expand(value, env) == Onto("", Expand(value[0..], env))
    ensures Onto(expanded, Expand(value[|value|..], env)) == Success(expanded)
  {
    assert value[0..] == value && value[|value|..] == [];
    if Expand(value, env).Success? {
      assert "" + Expand(value, env).value == Expand(value, env).value;
    }
    assert Values(Tokens([]), env) == [] && expanded + [] == expanded;
  }

  lemma LiteralAt(value: string, i: nat, expanded: string, env: Environment)
    requires i < |value| && value[i] != '$'
    ensures Onto(expanded, Expand(value[i..], env)) == Onto(expanded + [value[i]], Expand(value[i + 1..], env))
  {
    ExpandHead(value[i..], env);
    assert value[i..][1..] == value[i + 1..];
    OntoTwice(expanded, [value[i]], Expand(value[i + 1..], env));
  }

  // ----- what expansion promises --------------------------------------------------------------------

  function Double(s: string): string {
    if s == [] then [] else (if s[0] == '$' then "$$" else [s[0]]) + Double(s[1..])
  }

  /** Doubling every `$` protects a string from expansion, whatever the environment. */
  lemma {:induction false} DoubledIsLiteral(s: string, env: Environment)
    ensures Expand(Double(s), env) == Success(s)
  {
    if s != [] {
      var d := Double(s);
      DoubledIsLiteral(s[1..], env);
      ExpandHead(d, env);
      assert d[if s[0] == '$' then 2 else 1..] == Double(s[1..]);
      assert s == [s[0]] + s[1..];
    }
  }

  /** A text whose last token does not depend on what follows, if that begins with `$`. */
  predicate Complete(s: string) {
    forall i :: 0 <= i < |Tokens(s)| ==>
      !Tokens(s)[i].Unclosed? && (Tokens(s)[i].Lone? ==> i < |Tokens(s)| - 1)
  }

  lemma CompleteTail(a: string)
    requires Complete(a) && a != []
    ensures Complete(a[|Head(a).Spelled()|..])
    ensures !Head(a).Unclosed? && (Head(a).Lone? ==> a[1..] != [])
  {
    var rest := a[|Head(a).Spelled()|..];
    assert Tokens(a) == [Head(a)] + Tokens(rest);
    forall i | 0 <= i < |Tokens(rest)|
      ensures !Tokens(rest)[i].Unclosed? && (Tokens(rest)[i].Lone? ==> i < |Tokens(rest)| - 1)
    {
      assert Tokens(a)[i + 1] == Tokens(rest)[i];
    }
    assert Tokens(a)[0] == Head(a);
  }

  lemma HeadAppend(a: string, b: string)
    requires a != [] && b != [] && b[0] == '$'
    requires !Head(a).Unclosed? && (Head(a).Lone? ==> a[1..] != [])
    ensures Head(a + b) == Head(a)
  {
    if a[0] == '$' && |a| > 1 {
      if a[1] == '{' {
        SplitOnceSpells(a[2..], '}');
        var (name, rest) := Text.SplitOnce(a[2..], '}').value;
        assert (a + b)[2..] == name + ['}'] + (rest + b);
        Text.SplitOnceAt(name, '}', rest + b);
      } else if a[1] != '$' {
        assert (a + b)[1..] == a[1..] + b;
        var n := NamePrefix(a[1..]);
        NamePrefixIs(a[1..] + b, n);
      }
    }
  }

  lemma {:induction false} TokensAppend(a: string, b: string)
    requires Complete(a) && b != [] && b[0] == '$'
    ensures Tokens(a + b) == Tokens(a) + Tokens(b)
    decreases |a|
  {
    if a == [] {
      assert a + b == b;
    } else {
      CompleteTail(a);
      HeadAppend(a, b);
      var n := |Head(a).Spelled()|;
      assert (a + b)[n..] == a[n..] + b;
      TokensAppend(a[n..], b);
      assert [Head(a)] + (Tokens(a[n..]) + Tokens(b)) == ([Head(a)] + Tokens(a[n..])) + Tokens(b);
    }
  }

  lemma {:induction false} ValuesAppend(a: seq<Token>, b: seq<Token>, env: Environment)
    ensures Values(a + b, env) == Values(a, env) + Values(b, env)
  {
    if a == [] {
      assert a + b == b;
    } else {
      assert (a + b)[1..] == a[1..] + b;
      ValuesAppend(a[1..], b, env);
    }
  }

  lemma WellFormedAppend(a: seq<Token>, b: seq<Token>)
    ensures WellFormed(a + b) <==> WellFormed(a) && WellFormed(b)
  {
    if WellFormed(a + b) {
      forall i | 0 <= i < |a| ensures !a[i].Malformed() { assert a[i] == (a + b)[i]; }
      forall i | 0 <= i < |b| ensures !b[i].Malformed() { assert b[i] == (a + b)[|a| + i]; }
    }
  }

  /** A text that begins with a variable in braces. */
  lemma BracedFirst(name: string, b: string)
    requires name != [] && AllNameChars(name)
    ensures var v := "${" + name + "}" + b;
            Tokens(v) == [Braced(name)] + Tokens(b) && v[0] == '$'
  {
    var v := "${" + name + "}" + b;
    assert v[2..] == name + ['}'] + b;
    Text.SplitOnceAt(name, '}', b);
    assert Head(v) == Braced(name);
    assert v[|name| + 3..] == b;
  }

  /** A text that begins with a bare variable. */
  lemma BareFirst(name: string, b: string)
    requires name != [] && AllNameChars(name) && (b == [] || !NameChar(b[0]))
    ensures var v := "$" + name + b;
            Tokens(v) == [Bare(name)] + Tokens(b) && v[0] == '$'
  {
    var v := "$" + name + b;
    var tail := name + b;
    assert v == ['$'] + tail && v[0] == '$' && v[1..] == tail;
    assert v[1] == name[0] && NameChar(name[0]) && v[1] != '$' && v[1] != '{';
    NamePrefixIs(tail, name);
    assert NamePrefix(v[1..]) == name && Head(v) == Bare(name);
    assert tail[|name|..] == b;
    TokensCut(v, Bare(name), b);
  }

  /** The first token, and those of the rest. */
  lemma TokensCut(v: string, t: Token, rest: string)
    requires v != [] && t == Head(v) && v[|t.Spelled()|..] == rest
    ensures Tokens(v) == [t] + Tokens(rest)
  {
  }

  /** What a text expands to if a variable stands between two others. */
  function Between(a: Result<string, ErrorKind>, name: string, b: Result<string, ErrorKind>, env: Environment)
    : Result<string, ErrorKind>
  {
    match (a, b)
    case (Success(x), Success(y)) => Success(x + (if name in env then env[name] else "") + y)
    case _ => Failure(InvalidInput)
  }

  /** The value of a variable is inserted as it is and not expanded again, whatever it contains. */
  lemma ValueIsNotReexpanded(a: string, name: string, b: string, env: Environment)
    requires Complete(a) && name != [] && AllNameChars(name)
    ensures Expand(a + ("${" + name + "}" + b), env) == Between(Expand(a, env), name, Expand(b, env), env)
    ensures b == [] || !NameChar(b[0]) ==>
              Expand(a + ("$" + name + b), env) == Between(Expand(a, env), name, Expand(b, env), env)
  {
    BracedFirst(name, b);
    TokensAppend(a, "${" + name + "}" + b);
    TokenBetween(Tokens(a), Braced(name), Tokens(b), env);
    if b == [] || !NameChar(b[0]) {
      BareValue(a, name, b, env);
    }
  }

  lemma BareValue(a: string, name: string, b: string, env: Environment)
    requires Complete(a) && name != [] && AllNameChars(name) && (b == [] || !NameChar(b[0]))
    ensures Expand(a + ("$" + name + b), env) == Between(Expand(a, env), name, Expand(b, env), env)
  {
    BareFirst(name, b);
    TokensAppend(a, "$" + name + b);
    TokenBetween(Tokens(a), Bare(name), Tokens(b), env);
  }

  lemma ValuesCons(t: Token, tokens: seq<Token>, env: Environment)
    ensures Values([t] + tokens, env) == t.Value(env) + Values(tokens, env)
  {
    assert ([t] + tokens)[1..] == tokens;
  }

  lemma TokenBetween(a: seq<Token>, t: Token, b: seq<Token>, env: Environment)
    requires !t.Malformed()
    ensures WellFormed(a + ([t] + b)) <==> WellFormed(a) && WellFormed(b)
    ensures Values(a + ([t] + b), env) == Values(a, env) + t.Value(env) + Values(b, env)
  {
    var rest := [t] + b;
    WellFormedAppend([t], b);
    WellFormedAppend(a, rest);
    ValuesAppend(a, rest, env);
    ValuesCons(t, b, env);
  }

  /** A dollar sign before anything else stands for itself. */
  lemma LoneDollar(b: string, env: Environment)
    requires b == [] || (!NameChar(b[0]) && b[0] != '$' && b[0] != '{')
    ensures Expand("$" + b, env) ==
            match Expand(b, env) case Success(s) => Success("$" + s) case Failure(e) => Failure(e)
  {
    var v := "$" + b;
    assert v[1..] == b;
    assert NamePrefix(b) == [];
    assert Head(v) == Lone;
    ExpandHead(v, env);
  }

  /** An opening brace without a closing one, or with something else than a name between them, is refused. */
  lemma BadBracesRefused(name: string, b: string, env: Environment)
    requires '}' !in name && (name == [] || !AllNameChars(name))
    ensures Expand("${" + name + "}" + b, env) == Failure(InvalidInput)
    ensures Expand("${" + name, env) == Failure(InvalidInput)
  {
    var v := "${" + name + "}" + b;
    assert v[2..] == name + ['}'] + b;
    Text.SplitOnceAt(name, '}', b);
    assert Head(v) == Braced(name);
    ExpandHead(v, env);
    OpenBrace(name, env);
  }

  lemma OpenBrace(name: string, env: Environment)
    requires '}' !in name
    ensures Expand("${" + name, env) == Failure(InvalidInput)
  {
    var v := "${" + name;
    assert v[2..] == name;
    SplitOnceSpells(name, '}');
    assert Head(v) == Unclosed(name);
    ExpandHead(v, env);
  }
}

/**
  The `{{name}}` token: how a text is scanned for it, and when what was put into a text is
  found there again.
*/
module BindingTokens {
  import opened Common
  import opened Text

  predicate IsNameStart(c: char) {
    'A' <= c <= 'Z' || 'a' <= c <= 'z' || c == '_'
  }

  predicate IsNameChar(c: char) {
    IsNameStart(c) || IsDigit(c)
  }

  predicate AllNameChars(s: string) {
    forall k :: 0 <= k < |s| ==> IsNameChar(s[k])
  }

  /** A name the token pattern accepts: it may not begin with a digit. */
  predicate IsIdentifier(s: string) {
    s != [] && IsNameStart(s[0]) && AllNameChars(s)
  }

  function TokenText(name: string): string {
    "{{" + name + "}}"
  }

  // ---- matching at the start of a text ----

  function SpaceRun(t: string): (k: nat)
    ensures k <= |t|
  {
    if t != [] && IsSpace(t[0]) then 1 + SpaceRun(t[1..]) else 0
  }

  function NameRun(t: string): (k: nat)
    ensures k <= |t|
  {
    if t != [] && IsNameChar(t[0]) then 1 + NameRun(t[1..]) else 0
  }

  datatype Token = Token(name: string, length: nat)

  /** The token a text begins with: two braces, a name with optional space around it, two braces. */
  function TokenAt(t: string): (r: Option<Token>)
    ensures r.Some? ==> 4 <= r.value.length <= |t| && t[0] == '{' && t[1] == '{' && r.value.name != []
  {
    if |t| < 2 || t[0] != '{' || t[1] != '{' then None
    else
      var u := t[2 + SpaceRun(t[2..])..];
      var name := u[..NameRun(u)];
      var w := u[|name|..][SpaceRun(u[|name|..])..];
      if name == [] || !IsNameStart(name[0]) || |w| < 2 || w[0] != '}' || w[1] != '}' then None
      else Some(Token(name, |t| - |w| + 2))
  }

  lemma {:induction false} NameRunIs(name: string, rest: string)
    requires AllNameChars(name) && (rest != [] ==> !IsNameChar(rest[0]))
    ensures NameRun(name + rest) == |name|
  {
    if name == [] {
      assert name + rest == rest;
    } else {
      assert (name + rest)[1..] == name[1..] + rest;
      NameRunIs(name[1..], rest);
    }
  }

  /** A token is found where it was put, whatever follows; a name beginning with a digit is not. */
  lemma {:induction false} TokenFound(name: string, rest: string)
    requires name != [] && AllNameChars(name)
    ensures var t := TokenAt(TokenText(name) + rest);
            if IsIdentifier(name) then t == Some(Token(name, |TokenText(name)|)) else t.None?
  {
    var t := TokenText(name) + rest;
    var u := name + ("}}" + rest);
    assert t[2..] == u;
    assert u[0] == name[0] && !IsSpace(name[0]);
    NameRunIs(name, "}}" + rest);
    assert u[..|name|] == name && u[|name|..] == "}}" + rest;
    assert SpaceRun("}}" + rest) == 0;
  }

  // ---- scanning ----

  /** What scanning a text for tokens gives: the text, the names with no value, and the values unfit for a URL. */
  datatype Scan = Scan(text: string, missing: seq<string>, unfit: seq<string>)

  predicate UrlSafe(v: string) {
    v != [] && forall k :: 0 <= k < |v| ==> IsUrlSafeChar(v[k])
  }

  predicate IsUrlSafeChar(c: char) {
    'A' <= c <= 'Z' || 'a' <= c <= 'z' || IsDigit(c) || c == '.' || c == '_' || c == '~' || c == '-'
  }

  function Substitute(t: string, vars: map<string, string>, url: bool): Scan
    decreases |t|
  {
    if t == [] then Scan([], [], [])
    else
      var token := TokenAt(t);
      if token.None? then
        var rest := Substitute(t[1..], vars, url);
        Scan([t[0]] + rest.text, rest.missing, rest.unfit)
      else
        var name, rest := token.value.name, Substitute(t[token.value.length..], vars, url);
        if name !in vars then Scan(t[..token.value.length] + rest.text, [name] + rest.missing, rest.unfit)
        else Scan(vars[name] + rest.text, rest.missing, (if url && !UrlSafe(vars[name]) then [name] else []) + rest.unfit)
  }

  /** No two opening braces side by side. */
  predicate NoOpen(t: string) {
    forall k :: 0 <= k < |t| - 1 ==> !(t[k] == '{' && t[k + 1] == '{')
  }

  /** No token can begin inside a when b follows. */
  ghost predicate Quiet(a: string, b: string) {
    NoOpen(a) && (a != [] && b != [] ==> !(a[|a| - 1] == '{' && b[0] == '{'))
  }

  function Prefixed(a: string, s: Scan): Scan {
    Scan(a + s.text, s.missing, s.unfit)
  }

  lemma {:induction false} QuietStart(a: string, b: string)
    requires a != [] && Quiet(a, b)
    ensures TokenAt(a + b).None? && Quiet(a[1..], b)
  {
    hide SpaceRun, NameRun;
    var t := a + b;
    if |a| > 1 {
      assert t[0] == a[0] && t[1] == a[1];
    } else if b != [] {
      assert t[0] == a[|a| - 1] && t[1] == b[0];
    }
    forall k | 0 <= k < |a[1..]| - 1 ensures !(a[1..][k] == '{' && a[1..][k + 1] == '{') {
      assert a[1..][k] == a[k + 1] && a[1..][k + 1] == a[k + 2];
    }
  }

  lemma {:induction false} SkipQuiet(a: string, b: string, vars: map<string, string>, url: bool)
    requires Quiet(a, b)
    ensures Substitute(a + b, vars, url) == Prefixed(a, Substitute(b, vars, url))
    decreases |a|
  {
    hide Substitute, Quiet, TokenAt;
    if a == [] {
      assert a + b == b;
    } else {
      QuietStart(a, b);
      SkipQuiet(a[1..], b, vars, url);
      OneCharacter(a + b, vars, url);
      assert (a + b)[1..] == a[1..] + b;
      assert [a[0]] + (a[1..] + Substitute(b, vars, url).text) == a + Substitute(b, vars, url).text;
    }
  }

  lemma OneCharacter(t: string, vars: map<string, string>, url: bool)
    requires t != [] && TokenAt(t).None?
    ensures Substitute(t, vars, url) == Prefixed([t[0]], Substitute(t[1..], vars, url))
  {}

  lemma {:induction false} OneToken(t: string, name: string, b: string, vars: map<string, string>, url: bool)
    requires t == TokenText(name) + b && TokenAt(t) == Some(Token(name, |TokenText(name)|))
    requires name in vars && (url ==> UrlSafe(vars[name]))
    ensures Substitute(t, vars, url) == Prefixed(vars[name], Substitute(b, vars, url))
  {
    hide TokenAt;
    assert t[|TokenText(name)|..] == b;
  }

  lemma {:induction false} TokenTailQuiet(name: string, b: string)
    requires AllNameChars(name)
    ensures Quiet("{" + name + "}}", b)
  {
    var rest := "{" + name + "}}";
    forall k | 0 <= k < |rest| - 1 ensures !(rest[k] == '{' && rest[k + 1] == '{') {
      assert k < |name| ==> rest[k + 1] == name[k] && IsNameChar(name[k]);
    }
  }

  /** Scanning past a token: its value if it is one, itself if its name is no identifier. */
  lemma {:induction false} SkipToken(name: string, b: string, vars: map<string, string>, url: bool)
    requires name != [] && AllNameChars(name) && name in vars && (url ==> UrlSafe(vars[name]))
    ensures Substitute(TokenText(name) + b, vars, url)
         == Prefixed(if IsIdentifier(name) then vars[name] else TokenText(name), Substitute(b, vars, url))
  {
    hide Substitute, TokenAt, IsIdentifier, AllNameChars, Quiet;
    var t := TokenText(name) + b;
    TokenFound(name, b);
    if IsIdentifier(name) {
      OneToken(t, name, b, vars, url);
    } else {
      OneCharacter(t, vars, url);
      var rest := "{" + name + "}}";
      assert t[1..] == rest + b;
      TokenTailQuiet(name, b);
      SkipQuiet(rest, b, vars, url);
      assert TokenText(name) + Substitute(b, vars, url).text == ['{'] + (rest + Substitute(b, vars, url).text);
    }
  }

  lemma {:induction false} NothingToSubstitute(t: string, vars: map<string, string>, url: bool)
    requires NoOpen(t)
    ensures Substitute(t, vars, url) == Scan(t, [], [])
  {
    SkipQuiet(t, [], vars, url);
    assert t + [] == t;
  }
}

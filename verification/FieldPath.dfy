/**
  Field paths as text: `$.items[3].ref`. Reading a path's text back gives the path, for keys
  that need no quoting (the notation has none).
*/
module FieldPath {
  import opened Common
  import opened Text
  import opened Json

  // ---- reading a path ----

  /** The index steps a piece ends in: `[*]` and `[3]`; None when the text is anything else. */
  function ParseSteps(t: string): Option<seq<Segment>>
    decreases |t|
  {
    if t == [] then Some([])
    else if t[0] != '[' then None
    else
      var close := IndexOf(t, ']');
      if close == |t| then None
      else
        var inner, rest := t[1..close], ParseSteps(t[close + 1..]);
        if rest.None? then None
        else if inner == "*" then Some([Each] + rest.value)
        else if inner != [] && AllDigits(inner) then Some([Index(NatOf(inner))] + rest.value)
        else None
  }

  predicate AllDigits(t: string) {
    forall k :: 0 <= k < |t| ==> IsDigit(t[k])
  }

  predicate IsBracket(c: char) {
    c == '[' || c == ']'
  }

  function FirstBracket(t: string): (k: nat)
    ensures k <= |t|
    ensures k < |t| ==> IsBracket(t[k])
    ensures forall j :: 0 <= j < k ==> !IsBracket(t[j])
  {
    if t == [] || IsBracket(t[0]) then 0 else 1 + FirstBracket(t[1..])
  }

  /** The segments of one dot-separated piece; text that is not a key with index steps is a key as it stands. */
  function ParsePiece(raw: string): seq<Segment> {
    if raw == [] then []
    else
      var k := FirstBracket(raw);
      var steps := ParseSteps(raw[k..]);
      if steps.None? then [Key(raw)] else (if k > 0 then [Key(raw[..k])] else []) + steps.value
  }

  function ParsePieces(pieces: seq<string>): seq<Segment> {
    if pieces == [] then [] else ParsePiece(pieces[0]) + ParsePieces(pieces[1..])
  }

  /** The expression without its surrounding space, its `$` and a leading dot. */
  function Stripped(expr: string): string {
    var s := Trim(expr);
    var t := if s != [] && s[0] == '$' then s[1..] else s;
    if t != [] && t[0] == '.' then t[1..] else t
  }

  function PathSegments(expr: string): seq<Segment> {
    ParsePieces(Split(Stripped(expr), '.'))
  }

  lemma {:induction false} ParseMore(pieces: seq<string>, piece: string)
    ensures ParsePieces(pieces + [piece]) == ParsePieces(pieces) + ParsePiece(piece)
  {
    if pieces == [] {
      assert [piece][1..] == [];
    } else {
      assert (pieces + [piece])[1..] == pieces[1..] + [piece];
      ParseMore(pieces[1..], piece);
    }
  }

  lemma {:induction false} NothingToParse()
    ensures ParsePieces([]) == [] && ParsePiece([]) == [] && ParsePieces([""]) == []
  {
    assert [""][1..] == [];
  }

  method ReadSegments(expr: string) returns (segments: seq<Segment>)
    ensures segments == PathSegments(expr)
  {
    hide ParsePiece, ParsePieces, Split, Trim;
    var s := Trim(expr);
    if s != [] && s[0] == '$' { s := s[1..]; }
    if s != [] && s[0] == '.' { s := s[1..]; }
    var pieces := Split(s, '.');
    segments := [];
    NothingToParse();
    var i := 0;
    while i < |pieces|
      invariant 0 <= i <= |pieces|
      invariant segments == ParsePieces(pieces[..i])
    {
      assert pieces[..i + 1] == pieces[..i] + [pieces[i]];
      ParseMore(pieces[..i], pieces[i]);
      if pieces[i] != [] {
        segments := segments + ParsePiece(pieces[i]);
      }
      i := i + 1;
    }
    assert pieces[..i] == pieces;
  }

  /** Read the node at a path, one step at a time. */
  method Read(node: Option<Json>, path: seq<Segment>) returns (found: Option<Json>)
    ensures found == ReadAt(node, path)
    decreases |path|
  {
    var cur, i := node, 0;
    while i < |path|
      invariant 0 <= i <= |path|
      invariant ReadAt(node, path) == ReadAt(cur, path[i..])
    {
      var rest := path[i..];
      assert rest[1..] == path[i + 1..];
      if cur.None? { return None; }
      match rest[0] {
        case Each =>
          if !cur.value.Arr? { return None; }
          var items, j := cur.value.items, 0;
          while j < |items|
            invariant 0 <= j <= |items|
            invariant FirstAt(items, rest[1..]) == FirstAt(items[j..], rest[1..])
          {
            found := Read(Some(items[j]), path[i + 1..]);
            if found.Some? { return; }
            j := j + 1;
          }
          return None;
        case Index(index) => cur := Element(cur.value, index);
        case Key(key) => cur := Child(cur.value, key);
      }
      i := i + 1;
    }
    found := cur;
  }

  // ---- writing a path ----

  /** One step, as the engine writes it while it walks a document. */
  function StepText(step: Segment): string {
    match step
    case Key(key) => "." + key
    case Index(index) => "[" + NatText(index) + "]"
    case Each => "[*]"
  }

  function StepsText(path: seq<Segment>): string {
    if path == [] then "" else StepsText(path[..|path| - 1]) + StepText(path[|path| - 1])
  }

  function PathText(path: seq<Segment>): string {
    "$" + StepsText(path)
  }

  /** Can the notation carry this key: with an index step right behind it, or at the very end of the path? */
  predicate CarriedKey(key: string, indexed: bool, last: bool) {
    && key != "" && '.' !in key
    && (FirstBracket(key) < |key| ==> ParseSteps(key[FirstBracket(key)..]).None? && !indexed)
    && (last ==> !IsSpace(key[|key| - 1]))
  }

  predicate Carried(path: seq<Segment>, i: nat)
    requires i < |path|
  {
    path[i].Key? ==> CarriedKey(path[i].key, i + 1 < |path| && !path[i + 1].Key?, i + 1 == |path|)
  }

  /** Every key of the path is one the notation can carry where it stands. */
  predicate Legible(path: seq<Segment>) {
    forall i :: 0 <= i < |path| ==> Carried(path, i)
  }

  ghost predicate NoKeys(steps: seq<Segment>) {
    forall k :: 0 <= k < |steps| ==> !steps[k].Key?
  }

  /** Keys that reading any text may yield. */
  ghost predicate DotFree(path: seq<Segment>) {
    forall k :: 0 <= k < |path| && path[k].Key? ==> path[k].key != "" && '.' !in path[k].key
  }

  // ---- the pieces of a path's text ----

  /** How many index steps a path begins with. */
  function Lead(path: seq<Segment>): (k: nat)
    ensures k <= |path| && (forall j :: 0 <= j < k ==> !path[j].Key?) && (k < |path| ==> path[k].Key?)
  {
    if path == [] || path[0].Key? then 0 else 1 + Lead(path[1..])
  }

  /** One piece for each key, with the index steps behind it; reading trims the last. */
  function KeyPieces(path: seq<Segment>): (r: seq<string>)
    requires path == [] || path[0].Key?
    decreases |path|
  {
    if path == [] then []
    else
      var n := 1 + Lead(path[1..]);
      var piece := path[0].key + StepsText(path[1..n]);
      [if n == |path| then TrimEnd(piece) else piece] + KeyPieces(path[n..])
  }

  function Dotted(pieces: seq<string>): string {
    if pieces == [] then "" else "." + Join(pieces, '.')
  }

  lemma {:induction false} StepsConcat(a: seq<Segment>, b: seq<Segment>)
    ensures StepsText(a + b) == StepsText(a) + StepsText(b)
    decreases |b|
  {
    hide StepText;
    if b == [] {
      assert a + b == a;
    } else {
      var front := b[..|b| - 1];
      assert (a + b)[..|a + b| - 1] == a + front;
      StepsConcat(a, front);
      assert StepsText(a) + StepsText(front) + StepText(b[|b| - 1]) == StepsText(a) + (StepsText(front) + StepText(b[|b| - 1]));
    }
  }

  lemma {:induction false} OneStep(a: Segment)
    ensures StepsText([a]) == StepText(a)
  {
    assert [a][..0] == [];
  }

  lemma {:induction false} TrimEndAfter(a: string, b: string)
    requires TrimEnd(b) != "" || (a != "" && !IsSpace(a[|a| - 1]))
    ensures TrimEnd(a + b) == a + TrimEnd(b)
    decreases |b|
  {
    if b == "" {
      assert a + b == a;
    } else {
      assert (a + b)[..|a + b| - 1] == a + b[..|b| - 1];
      if IsSpace(b[|b| - 1]) { TrimEndAfter(a, b[..|b| - 1]); }
    }
  }

  lemma {:induction false} TrimEndPrefix(s: string)
    ensures TrimEnd(s) <= s && (TrimEnd(s) == s <==> s == "" || !IsSpace(s[|s| - 1]))
  {
    if s != "" && IsSpace(s[|s| - 1]) { TrimEndPrefix(s[..|s| - 1]); }
  }

  /** A path that begins with a key, split after that key and the index steps behind it. */
  lemma {:induction false} FirstKey(path: seq<Segment>)
    requires path != [] && path[0].Key?
    ensures var n := 1 + Lead(path[1..]);
            && n <= |path| && NoKeys(path[1..n]) && (n < |path| ==> path[n].Key?)
            && path == [path[0]] + path[1..n] + path[n..]
            && StepsText(path) == "." + (path[0].key + StepsText(path[1..n])) + StepsText(path[n..])
  {
    hide StepsText;
    var n := 1 + Lead(path[1..]);
    assert path[1..][..n - 1] == path[1..n];
    assert n < |path| ==> path[n] == path[1..][n - 1];
    StepsConcat([path[0]] + path[1..n], path[n..]);
    StepsConcat([path[0]], path[1..n]);
    OneStep(path[0]);
    assert "." + path[0].key + StepsText(path[1..n]) == "." + (path[0].key + StepsText(path[1..n]));
  }

  lemma KeyPiecesBegin(path: seq<Segment>)
    requires path != [] && path[0].Key?
    ensures var n := 1 + Lead(path[1..]);
            var piece := path[0].key + StepsText(path[1..n]);
            KeyPieces(path) == [if n == |path| then TrimEnd(piece) else piece] + KeyPieces(path[n..])
  {}

  lemma {:induction false} JoinFirst(part: string, parts: seq<string>)
    ensures Dotted([part] + parts) == "." + part + Dotted(parts)
  {
    assert ([part] + parts)[1..] == parts;
    if parts == [] {
      assert part + "" == part && "." + part + "" == "." + part;
    } else {
      assert "." + (part + ['.'] + Join(parts, '.')) == "." + part + ("." + Join(parts, '.'));
    }
  }

  lemma {:induction false} KeysTrimmed(path: seq<Segment>)
    requires path != [] && path[0].Key?
    ensures KeyPieces(path) != [] && TrimEnd(StepsText(path)) == Dotted(KeyPieces(path)) != ""
    decreases |path|
  {
    hide StepsText, TrimEnd, KeyPieces, Dotted, Lead;
    FirstKey(path);
    KeyPiecesBegin(path);
    var n := 1 + Lead(path[1..]);
    var piece, rest := path[0].key + StepsText(path[1..n]), path[n..];
    if rest == [] {
      NoSteps();
      NoKeyPieces();
      assert StepsText(path) == "." + piece;
      TrimEndAfter(".", piece);
      JoinFirst(TrimEnd(piece), []);
    } else {
      KeysTrimmed(rest);
      TrimEndAfter("." + piece, StepsText(rest));
      JoinFirst(piece, KeyPieces(rest));
    }
  }

  lemma NoSteps()
    ensures StepsText([]) == ""
  {}

  lemma {:induction false} StepsHaveNoDot(steps: seq<Segment>)
    requires NoKeys(steps)
    ensures '.' !in StepsText(steps)
    ensures steps != [] ==> StepsText(steps) != "" && StepsText(steps)[0] == '[' && StepsText(steps)[|StepsText(steps)| - 1] == ']'
  {
    if steps != [] {
      var front, last := steps[..|steps| - 1], steps[|steps| - 1];
      StepsHaveNoDot(front);
      StepHasNoDot(last);
    }
  }

  lemma StepHasNoDot(step: Segment)
    requires !step.Key?
    ensures '.' !in StepText(step)
  {}

  lemma {:induction false} KeyPiecesHaveNoDot(path: seq<Segment>)
    requires (path == [] || path[0].Key?) && DotFree(path)
    ensures forall k :: 0 <= k < |KeyPieces(path)| ==> '.' !in KeyPieces(path)[k]
    decreases |path|
  {
    hide StepsText, TrimEnd;
    if path != [] {
      FirstKey(path);
      var n := 1 + Lead(path[1..]);
      var piece := path[0].key + StepsText(path[1..n]);
      StepsHaveNoDot(path[1..n]);
      TrimEndPrefix(piece);
      assert '.' !in TrimEnd(piece) by {
        assert forall k :: 0 <= k < |TrimEnd(piece)| ==> TrimEnd(piece)[k] == piece[k];
      }
      KeyPiecesHaveNoDot(path[n..]);
    }
  }

  /** What is left to split once a path's text is trimmed and its `$` and leading dot are gone. */
  lemma {:induction false} StrippedText(path: seq<Segment>)
    ensures var n := Lead(path);
            Stripped(PathText(path)) == if n == 0 then Join(KeyPieces(path), '.')
                                        else StepsText(path[..n]) + Dotted(KeyPieces(path[n..]))
  {
    hide StepsText, TrimEnd, KeyPieces;
    var n := Lead(path);
    var lead, rest := StepsText(path[..n]), path[n..];
    assert path == path[..n] + rest;
    StepsConcat(path[..n], rest);
    StepsHaveNoDot(path[..n]);
    var text := PathText(path);
    assert text == "$" + lead + StepsText(rest);
    assert TrimStart(text) == text;
    if rest == [] {
      NoSteps();
      NoKeyPieces();
      TrimEndPrefix(text);
      assert n == 0 ==> path[..n] == [];
    } else {
      KeysTrimmed(rest);
      TrimEndAfter("$" + lead, StepsText(rest));
      assert n == 0 ==> path[..n] == [] && rest == path;
      if n == 0 { NoSteps(); }
    }
    assert Trim(text) == "$" + lead + Dotted(KeyPieces(rest));
    assert Trim(text)[1..] == lead + Dotted(KeyPieces(rest));
  }

  lemma NoKeyPieces()
    ensures KeyPieces([]) == [] && Dotted([]) == ""
  {}

  // ---- each piece parses to its own steps ----

  lemma {:induction false} ParseStep(step: Segment, rest: string)
    requires !step.Key?
    ensures ParseSteps(StepText(step) + rest) == if ParseSteps(rest).None? then None else Some([step] + ParseSteps(rest).value)
  {
    var t := StepText(step) + rest;
    var inner := if step.Each? then "*" else NatText(step.index);
    assert ']' !in inner;
    IndexOfSkips("[" + inner, "]" + rest, ']');
    assert t == "[" + inner + ("]" + rest);
    var close := IndexOf(t, ']');
    assert IndexOf("]" + rest, ']') == 0;
    assert t[1..close] == inner && t[close + 1..] == rest;
    if step.Index? {
      NatReadsBack(step.index);
      assert inner[0] != '*';
    }
  }

  lemma {:induction false} StepsParse(steps: seq<Segment>, rest: string)
    requires NoKeys(steps)
    ensures ParseSteps(StepsText(steps) + rest) == if ParseSteps(rest).None? then None else Some(steps + ParseSteps(rest).value)
    decreases |steps|
  {
    hide ParseSteps, StepText;
    if steps == [] {
      assert StepsText(steps) + rest == rest;
      assert forall v: seq<Segment> :: [] + v == v;
    } else {
      var front, last := steps[..|steps| - 1], steps[|steps| - 1];
      assert StepsText(steps) + rest == StepsText(front) + (StepText(last) + rest);
      StepsParse(front, StepText(last) + rest);
      ParseStep(last, rest);
      var after := ParseSteps(rest);
      assert steps == front + [last];
      assert after.Some? ==> front + ([last] + after.value) == steps + after.value;
    }
  }

  lemma {:induction false} BracketAfter(head: string, t: string)
    requires forall k :: 0 <= k < |head| ==> !IsBracket(head[k])
    requires t != [] ==> IsBracket(t[0])
    ensures FirstBracket(head + t) == |head|
  {
    if head == [] {
      assert head + t == t;
    } else {
      assert (head + t)[1..] == head[1..] + t;
      BracketAfter(head[1..], t);
    }
  }

  lemma {:induction false} PieceParses(head: string, steps: seq<Segment>)
    requires forall k :: 0 <= k < |head| ==> !IsBracket(head[k])
    requires NoKeys(steps)
    ensures ParsePiece(head + StepsText(steps)) == (if head != [] then [Key(head)] else []) + steps
  {
    var t := StepsText(steps);
    StepsParse(steps, []);
    assert t + [] == t;
    if steps != [] { StepsBegin(steps); }
    BracketAfter(head, t);
    assert (head + t)[|head|..] == t && (head + t)[..|head|] == head;
  }

  lemma {:induction false} StepsBegin(steps: seq<Segment>)
    requires steps != [] && NoKeys(steps)
    ensures StepsText(steps) != [] && StepsText(steps)[0] == '['
  {
    var front := steps[..|steps| - 1];
    if front != [] { StepsBegin(front); }
  }

  lemma {:induction false} StepsAreNoKeys(t: string)
    ensures ParseSteps(t).Some? ==> NoKeys(ParseSteps(t).value) && (t != [] ==> ParseSteps(t).value != [])
    decreases |t|
  {
    if t != [] && t[0] == '[' && IndexOf(t, ']') < |t| {
      StepsAreNoKeys(t[IndexOf(t, ']') + 1..]);
    }
  }

  lemma {:induction false} BracketBefore(t: string, more: string)
    requires FirstBracket(t) < |t|
    ensures FirstBracket(t + more) == FirstBracket(t)
  {
    assert (t + more)[0] == t[0];
    if !IsBracket(t[0]) {
      assert (t + more)[1..] == t[1..] + more;
      BracketBefore(t[1..], more);
    }
  }

  /** What a piece's segments begin with: its whole text as a key, the text before its first bracket, or an index step. */
  lemma {:induction false} PieceBegins(t: string)
    requires t != []
    ensures var k, s := FirstBracket(t), ParsePiece(t);
            if ParseSteps(t[k..]).None? then s == [Key(t)]
            else s != [] && if k > 0 then s[0] == Key(t[..k]) else !s[0].Key?
    ensures ParsePiece(t)[0].Key? ==> |ParsePiece(t)[0].key| <= |t|
  {
    hide ParseSteps;
    StepsAreNoKeys(t[FirstBracket(t)..]);
    assert t[0..] == t;
  }

  lemma {:induction false} KeyExact(key: string, steps: seq<Segment>)
    requires key != "" && NoKeys(steps)
    ensures var s := ParsePiece(key + StepsText(steps));
            if FirstBracket(key) == |key| || (ParseSteps(key[FirstBracket(key)..]).None? && steps == []) then s == [Key(key)] + steps
            else s != [] && s[0] != Key(key)
  {
    hide ParseSteps, ParsePiece;
    var p := key + StepsText(steps);
    PieceBegins(p);
    if FirstBracket(key) == |key| {
      PieceParses(key, steps);
    } else {
      BracketBefore(key, StepsText(steps));
      if steps == [] { NoSteps(); assert p == key; } else { StepsHaveNoDot(steps); assert |p| > |key|; }
    }
  }

  /** One piece gives back its key and steps exactly when the key can be carried; otherwise it begins with something else. */
  lemma {:induction false} PieceExact(key: string, steps: seq<Segment>, last: bool)
    requires key != "" && '.' !in key && NoKeys(steps)
    ensures var p := key + StepsText(steps);
            var s := ParsePiece(if last then TrimEnd(p) else p);
            if CarriedKey(key, steps != [], last && steps == []) then s == [Key(key)] + steps
            else if s == [] then last else s[0] != Key(key)
  {
    hide ParseSteps, ParsePiece, TrimEnd, StepsText, FirstBracket;
    var p := key + StepsText(steps);
    var t := if last then TrimEnd(p) else p;
    TrimEndPrefix(p);
    if steps != [] { StepsHaveNoDot(steps); assert p[|p| - 1] == ']'; } else { NoSteps(); assert p == key; }
    if t == p {
      KeyExact(key, steps);
    } else {
      assert p[..|p|] == p && |t| < |p|;
      NothingToParse();
      if t != "" { PieceBegins(t); }
    }
  }

  /** The pieces give back the path exactly when every key can be carried: at the first that cannot, something else is read. */
  lemma {:induction false} KeyPiecesParse(path: seq<Segment>)
    requires (path == [] || path[0].Key?) && DotFree(path)
    ensures ParsePieces(KeyPieces(path)) == path <==> Legible(path)
    decreases |path|
  {
    hide ParsePiece, StepsText, TrimEnd, CarriedKey;
    if path != [] {
      FirstKey(path);
      var n := 1 + Lead(path[1..]);
      var key, steps, rest := path[0].key, path[1..n], path[n..];
      var pieces := KeyPieces(path);
      assert pieces[1..] == KeyPieces(rest);
      PieceExact(key, steps, n == |path|);
      KeyPiecesParse(rest);
      LegibleFirst(path);
      var s, t := ParsePiece(pieces[0]), ParsePieces(KeyPieces(rest));
      assert ParsePieces(pieces) == s + t;
      if s == [Key(key)] + steps {
        assert (s + t)[n..] == t;
      } else if s != [] {
        assert (s + t)[0] == s[0];
      }
    }
  }

  lemma {:induction false} LegibleFirst(path: seq<Segment>)
    requires path != [] && path[0].Key?
    ensures var n := 1 + Lead(path[1..]);
            n <= |path| && (Legible(path) <==> CarriedKey(path[0].key, n > 1, n == |path| && n == 1) && Legible(path[n..]))
  {
    hide CarriedKey, StepsText, Lead;
    FirstKey(path);
    var n := 1 + Lead(path[1..]);
    assert n > 1 ==> path[1] == path[1..n][0];
    forall i | 1 <= i < n ensures Carried(path, i) { assert path[i] == path[1..n][i - 1]; }
    LegibleFrom(path, 1, n);
    assert Legible(path) <==> Carried(path, 0) && Legible(path[1..]) by { LegibleFrom(path, 0, 1); assert path[0..] == path; }
  }

  lemma {:induction false} LegibleFrom(path: seq<Segment>, a: nat, b: nat)
    requires a <= b <= |path|
    ensures Legible(path[a..]) <==> (forall i :: a <= i < b ==> Carried(path, i)) && Legible(path[b..])
  {
    hide CarriedKey;
    forall i | 0 <= i < |path[a..]| ensures Carried(path[a..], i) <==> Carried(path, a + i) {}
    forall i | 0 <= i < |path[b..]| ensures Carried(path[b..], i) <==> Carried(path, b + i) {}
    if Legible(path[a..]) {
      forall i | a <= i < |path| ensures Carried(path, i) { assert Carried(path[a..], i - a); }
    } else {
      var i :| 0 <= i < |path[a..]| && !Carried(path[a..], i);
      assert !Carried(path, a + i);
      if a + i >= b { assert !Carried(path[b..], a + i - b); }
    }
  }

  /** No text yields a key that is empty or holds a dot. */
  lemma {:induction false} PiecesAreDotFree(pieces: seq<string>)
    requires forall k :: 0 <= k < |pieces| ==> '.' !in pieces[k]
    ensures DotFree(ParsePieces(pieces))
  {
    hide ParsePiece;
    if pieces != [] {
      PiecesAreDotFree(pieces[1..]);
      PieceIsDotFree(pieces[0]);
      var s, t := ParsePiece(pieces[0]), ParsePieces(pieces[1..]);
      assert forall k :: |s| <= k < |s + t| ==> (s + t)[k] == t[k - |s|];
    }
  }

  lemma {:induction false} PieceIsDotFree(raw: string)
    requires '.' !in raw
    ensures DotFree(ParsePiece(raw))
  {
    hide ParseSteps;
    var k := FirstBracket(raw);
    StepsAreNoKeys(raw[k..]);
    assert forall j :: 0 <= j < k ==> raw[..k][j] == raw[j] != '.';
  }

  /** Reading the text of a path gives the path exactly when the notation can carry every key of it. */
  lemma {:induction false} PathReadsBack(path: seq<Segment>)
    ensures PathSegments(PathText(path)) == path <==> Legible(path)
  {
    hide StepsText, Stripped, Split, ParsePiece, KeyPieces, CarriedKey, PathText;
    if DotFree(path) {
      SegmentsAre(path);
      var n := Lead(path);
      KeyPiecesParse(path[n..]);
      LegibleRest(path);
      var read := ParsePieces(KeyPieces(path[n..]));
      assert path == path[..n] + path[n..] && (path[..n] + read)[n..] == read;
    } else {
      PiecesAreDotFree(Split(Stripped(PathText(path)), '.'));
      Unclean(path);
    }
  }

  lemma {:induction false} SegmentsAre(path: seq<Segment>)
    requires DotFree(path)
    ensures PathSegments(PathText(path)) == path[..Lead(path)] + ParsePieces(KeyPieces(path[Lead(path)..]))
  {
    hide StepsText, Stripped, Join, Split, ParsePiece, ParsePieces, KeyPieces, PathText;
    var n := Lead(path);
    var lead, rest := path[..n], path[n..];
    var pieces := KeyPieces(rest);
    StrippedText(path);
    KeyPiecesHaveNoDot(rest);
    if n > 0 {
      StepsHaveNoDot(lead);
      LeadJoins(StepsText(lead), pieces);
      SplitOfJoin([StepsText(lead)] + pieces, '.');
      FirstParsed(StepsText(lead), pieces);
      PieceParses("", lead);
      assert "" + StepsText(lead) == StepsText(lead);
    } else {
      assert rest == path && [] + ParsePieces(pieces) == ParsePieces(pieces);
      if path == [] {
        NoKeyPieces();
        NothingToParse();
        JoinsNothing();
      } else {
        KeysTrimmed(path);
        SplitOfJoin(pieces, '.');
      }
    }
  }

  lemma {:induction false} FirstParsed(piece: string, pieces: seq<string>)
    ensures ParsePieces([piece] + pieces) == ParsePiece(piece) + ParsePieces(pieces)
  {
    hide ParsePiece;
    assert ([piece] + pieces)[1..] == pieces;
  }

  lemma {:induction false} Unclean(path: seq<Segment>)
    requires !DotFree(path)
    ensures !Legible(path)
  {
    var k :| 0 <= k < |path| && path[k].Key? && !(path[k].key != "" && '.' !in path[k].key);
    assert !Carried(path, k);
  }

  lemma JoinsNothing()
    ensures Split(Join([], '.'), '.') == [""]
  {}

  lemma {:induction false} LeadJoins(lead: string, pieces: seq<string>)
    ensures Join([lead] + pieces, '.') == lead + Dotted(pieces)
  {
    assert ([lead] + pieces)[1..] == pieces;
    assert lead + "" == lead;
  }

  lemma {:induction false} LegibleRest(path: seq<Segment>)
    ensures Legible(path) <==> Legible(path[Lead(path)..])
  {
    hide CarriedKey;
    var n := Lead(path);
    forall i | 0 <= i < n ensures Carried(path, i) { assert path[i] == path[..n][i]; }
    LegibleFrom(path, 0, n);
    assert path[0..] == path;
  }

  /** A key with a dot in it is never read back, wherever it stands. */
  lemma {:induction false} DottedKeyIsLost(path: seq<Segment>, i: nat)
    requires i < |path| && path[i].Key? && '.' in path[i].key
    ensures PathSegments(PathText(path)) != path
  {
    hide PathSegments, PathText;
    PathReadsBack(path);
    assert !Carried(path, i);
  }
}

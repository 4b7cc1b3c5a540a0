/**
  Substituting values through what inference wrote: each part of the request comes back
  exactly when every token in it can be found again.
*/
module BindingBack {
  import opened Text
  import opened Json
  import opened BindingProducers
  import opened BindingTokens
  import opened BindingTemplates
  import opened BindingMaps

  // ---- substituting back ----

  /** Every recorded producer's name stands for the value it produced. */
  ghost predicate Supplies(st: Names, producers: map<string, Producer>, vars: map<string, string>) {
    forall v :: v in producers && Recorded(st, producers, v) ==> st.names[producers[v]] in vars && vars[st.names[producers[v]]] == v
  }

  ghost predicate WellNamed(st: Names) {
    forall p :: p in st.names ==> NamedAfter(st.names[p], p)
  }

  lemma {:induction false} NameOf(st: Names, p: Producer)
    requires WellNamed(st) && p in st.names
    ensures var name := st.names[p]; name != [] && AllNameChars(name) && (IsIdentifier(name) <==> !DigitFirst(p))
  {
    hide Candidate, Base, AllNameChars, IsIdentifier, DigitFirst;
    var n :| n >= 1 && st.names[p] == Candidate(Base(p), n);
    NameShape(p, n);
  }

  lemma {:induction false} TokenIsNoValue(name: string)
    ensures !NoOpen(TokenText(name))
  {
    assert TokenText(name)[0] == '{' && TokenText(name)[1] == '{';
  }

  /** One token alone: its value comes back unless its name begins with a digit. */
  lemma {:induction false} TokenBack(st: Names, producers: map<string, Producer>, v: string, vars: map<string, string>, url: bool)
    requires WellNamed(st) && Supplies(st, producers, vars) && v in producers && Recorded(st, producers, v) && NoOpen(v)
    requires url ==> UrlSafe(v)
    ensures var s := Substitute(TokenText(st.names[producers[v]]), vars, url);
            && s.missing == [] && s.unfit == []
            && (s.text == v <==> !DigitFirst(producers[v]))
  {
    hide WellNamed, DigitFirst, UrlSafe, AllNameChars, IsIdentifier, Substitute;
    var name := st.names[producers[v]];
    NameOf(st, producers[v]);
    SkipToken(name, [], vars, url);
    NothingToSubstitute([], vars, url);
    assert TokenText(name) + [] == TokenText(name) && vars[name] + [] == vars[name];
    TokenIsNoValue(name);
  }

  /** Every bound string of the document has a name the token pattern accepts. */
  predicate Readable(node: Json, producers: map<string, Producer>)
    decreases node
  {
    match node
    case Str(text) => text in producers ==> !DigitFirst(producers[text])
    case Arr(items) => forall i :: 0 <= i < |items| ==> Readable(items[i], producers)
    case Obj(members) => IsSecretRef(node) || forall i :: 0 <= i < |members| ==> Readable(members[i].value, producers)
    case _ => true
  }

  lemma {:induction false} StillNoSecret(members: seq<Member>, mapped: seq<Member>, key: string)
    requires |mapped| == |members|
    requires forall i :: 0 <= i < |members| ==> mapped[i].key == members[i].key && (mapped[i].value.Str? <==> members[i].value.Str?)
    ensures KeyAt(mapped, key) == KeyAt(members, key)
    ensures IsSecretRef(Obj(mapped)) <==> IsSecretRef(Obj(members))
  {
    KeysAlike(members, mapped, key);
    KeysAlike(members, mapped, "$secret");
  }

  lemma {:induction false} KeysAlike(members: seq<Member>, mapped: seq<Member>, key: string)
    requires |mapped| == |members| && forall i :: 0 <= i < |members| ==> mapped[i].key == members[i].key
    ensures KeyAt(mapped, key) == KeyAt(members, key)
  {
    var a, b := KeyAt(members, key), KeyAt(mapped, key);
    if a != b { assert false; }
  }

  lemma {:induction false} MembersAlike(node: Json, producers: map<string, Producer>, names: map<Producer, string>)
    requires node.Obj? && !IsSecretRef(node)
    ensures MapBody(node, producers, names).Obj? && !IsSecretRef(MapBody(node, producers, names))
    ensures |MapBody(node, producers, names).members| == |node.members|
    ensures forall i :: 0 <= i < |node.members| ==>
              MapBody(node, producers, names).members[i] == Member(node.members[i].key, MapBody(node.members[i].value, producers, names))
  {
    var mapped := MapBody(node, producers, names).members;
    forall i | 0 <= i < |mapped| ensures mapped[i].value.Str? <==> node.members[i].value.Str? {
      assert mapped[i].value == MapBody(node.members[i].value, producers, names);
    }
    StillNoSecret(node.members, mapped, "");
  }

  /** Substituting through a rewritten document: nothing is missing, and it is the original exactly when every bound name is readable. */
  lemma {:induction false} BodyBack(st: Names, producers: map<string, Producer>, node: Json, vars: map<string, string>)
    requires WellNamed(st) && Supplies(st, producers, vars) && Covers(st, producers, node) && Untokened(node)
    ensures var out := MapBody(node, producers, st.names);
            && MissingIn(out, vars) == []
            && (Deep(out, vars) == node <==> Readable(node, producers))
    decreases node
  {
    hide WellNamed, Supplies, DigitFirst, Substitute;
    match node
    case Str(text) =>
      if text in producers {
        TokenBack(st, producers, text, vars, false);
        TokenIsNoValue(st.names[producers[text]]);
      }
    case Arr(items) => ItemsBack(st, producers, node, vars);
    case Obj(members) => if !IsSecretRef(node) { MembersBack(st, producers, node, vars); }
    case _ =>
  }

  lemma {:induction false} ItemsBack(st: Names, producers: map<string, Producer>, node: Json, vars: map<string, string>)
    requires node.Arr? && WellNamed(st) && Supplies(st, producers, vars) && Covers(st, producers, node) && Untokened(node)
    ensures var out := MapBody(node, producers, st.names);
            && MissingIn(out, vars) == []
            && (Deep(out, vars) == node <==> Readable(node, producers))
    decreases node, 0
  {
    hide WellNamed, Supplies, DigitFirst, Substitute;
    var items, out := node.items, MapBody(node, producers, st.names);
    forall i | 0 <= i < |items|
      ensures MissingIn(out.items[i], vars) == [] && (Deep(out.items[i], vars) == items[i] <==> Readable(items[i], producers))
    {
      BodyBack(st, producers, items[i], vars);
    }
    NoneMissingInItems(out, vars, 0);
    var back := Deep(out, vars);
    assert forall i :: 0 <= i < |items| ==> back.items[i] == Deep(out.items[i], vars);
    if Readable(node, producers) { assert back.items == items; }
  }

  lemma {:induction false} NoneMissingInItems(node: Json, vars: map<string, string>, i: nat)
    requires node.Arr? && i <= |node.items| && forall k :: 0 <= k < |node.items| ==> MissingIn(node.items[k], vars) == []
    ensures MissingInItems(node, vars, i) == []
    decreases |node.items| - i
  {
    if i < |node.items| { NoneMissingInItems(node, vars, i + 1); }
  }

  lemma {:induction false} NoneMissingInMembers(node: Json, vars: map<string, string>, i: nat)
    requires node.Obj? && i <= |node.members| && forall k :: 0 <= k < |node.members| ==> MissingIn(node.members[k].value, vars) == []
    ensures MissingInMembers(node, vars, i) == []
    decreases |node.members| - i
  {
    if i < |node.members| { NoneMissingInMembers(node, vars, i + 1); }
  }

  lemma {:induction false} MembersBack(st: Names, producers: map<string, Producer>, node: Json, vars: map<string, string>)
    requires node.Obj? && !IsSecretRef(node)
    requires WellNamed(st) && Supplies(st, producers, vars) && Covers(st, producers, node) && Untokened(node)
    ensures var out := MapBody(node, producers, st.names);
            && MissingIn(out, vars) == []
            && (Deep(out, vars) == node <==> Readable(node, producers))
    decreases node, 0
  {
    hide WellNamed, Supplies, DigitFirst, Substitute, IsSecretRef;
    var members, out := node.members, MapBody(node, producers, st.names);
    MembersAlike(node, producers, st.names);
    forall i | 0 <= i < |members|
      ensures MissingIn(out.members[i].value, vars) == []
      ensures Deep(out.members[i].value, vars) == members[i].value <==> Readable(members[i].value, producers)
    {
      BodyBack(st, producers, members[i].value, vars);
    }
    NoneMissingInMembers(out, vars, 0);
    var back := Deep(out, vars);
    assert forall i :: 0 <= i < |members| ==> back.members[i] == Member(members[i].key, Deep(out.members[i].value, vars));
    if Readable(node, producers) { assert back.members == members; }
  }

  // ---- substituting back: headers ----

  lemma {:induction false} PlainBack(node: Json, vars: map<string, string>)
    requires Untokened(node)
    ensures Deep(node, vars) == node && MissingIn(node, vars) == []
    decreases node
  {
    match node
    case Arr(items) =>
      forall i | 0 <= i < |items| ensures Deep(items[i], vars) == items[i] && MissingIn(items[i], vars) == [] { PlainBack(items[i], vars); }
      NoneMissingInItems(node, vars, 0);
      assert Deep(node, vars).items == items;
    case Obj(members) =>
      if !IsSecretRef(node) {
        forall i | 0 <= i < |members| ensures Deep(members[i].value, vars) == members[i].value && MissingIn(members[i].value, vars) == [] {
          PlainBack(members[i].value, vars);
        }
        NoneMissingInMembers(node, vars, 0);
        assert Deep(node, vars).members == members;
      }
    case _ =>
  }

  predicate BoundHeader(producers: map<string, Producer>, m: Member) {
    m.value.Str? && m.value.text in producers
  }

  /**
    When the headers come back: every bound header's name is readable; and headers that are themselves a
    secret reference, which substitution leaves alone, have nothing bound.
  */
  predicate HeadersReadable(headers: Json, producers: map<string, Producer>) {
    headers.Obj? ==>
      forall i :: 0 <= i < |headers.members| && BoundHeader(producers, headers.members[i]) ==>
        !IsSecretRef(headers) && !DigitFirst(producers[headers.members[i].value.text])
  }

  predicate UntokenedHeaders(headers: Json) {
    if headers.Obj? then forall i :: 0 <= i < |headers.members| ==> Untokened(headers.members[i].value) else Untokened(headers)
  }

  lemma {:induction false} HeadersBack(st: Names, producers: map<string, Producer>, headers: Json, vars: map<string, string>)
    requires WellNamed(st) && Supplies(st, producers, vars) && headers.Obj? && UntokenedHeaders(headers)
    requires CoversHeaders(st, producers, headers.members)
    ensures var out := Obj(MapHeaders(headers.members, producers, st.names));
            && MissingIn(out, vars) == []
            && (Deep(out, vars) == headers <==> HeadersReadable(headers, producers))
  {
    hide WellNamed, Supplies, DigitFirst, Substitute, IsSecretRef;
    var members, mapped := headers.members, MapHeaders(headers.members, producers, st.names);
    var out := Obj(mapped);
    forall i | 0 <= i < |members|
      ensures MissingIn(mapped[i].value, vars) == [] && mapped[i].key == members[i].key
      ensures mapped[i].value.Str? <==> members[i].value.Str?
      ensures BoundHeader(producers, members[i]) ==> mapped[i] != members[i]
      ensures !BoundHeader(producers, members[i]) ==> mapped[i] == members[i]
      ensures Deep(mapped[i].value, vars) == members[i].value
         <==> (BoundHeader(producers, members[i]) ==> !DigitFirst(producers[members[i].value.text]))
    {
      OneHeaderBack(st, producers, members[i], vars);
    }
    StillNoSecret(members, mapped, "");
    NoneMissingInMembers(out, vars, 0);
    if IsSecretRef(headers) {
      if forall i :: 0 <= i < |members| ==> !BoundHeader(producers, members[i]) { assert mapped == members; }
    } else {
      var back := Deep(out, vars);
      assert forall i :: 0 <= i < |members| ==> back.members[i] == Member(members[i].key, Deep(mapped[i].value, vars));
      if HeadersReadable(headers, producers) { assert back.members == members; }
    }
  }

  lemma {:induction false} OneHeaderBack(st: Names, producers: map<string, Producer>, m: Member, vars: map<string, string>)
    requires WellNamed(st) && Supplies(st, producers, vars) && Untokened(m.value) && (m.value.Str? ==> Covers(st, producers, m.value))
    ensures var mapped := MapHeaders([m], producers, st.names)[0];
            && MissingIn(mapped.value, vars) == [] && mapped.key == m.key && (mapped.value.Str? <==> m.value.Str?)
            && (BoundHeader(producers, m) ==> mapped != m) && (!BoundHeader(producers, m) ==> mapped == m)
            && (Deep(mapped.value, vars) == m.value <==> (BoundHeader(producers, m) ==> !DigitFirst(producers[m.value.text])))
  {
    hide WellNamed, Supplies, DigitFirst, Substitute;
    if m.value.Str? {
      BodyBack(st, producers, m.value, vars);
      if m.value.text in producers { TokenIsNoValue(st.names[producers[m.value.text]]); }
    } else {
      PlainBack(m.value, vars);
    }
  }

  // ---- substituting back: the path ----

  /** No two texts stand side by side: a separator is between any two of them. */
  predicate Separated(pieces: seq<Piece>) {
    forall i :: 0 <= i < |pieces| - 1 ==> pieces[i].Sep? || pieces[i + 1].Sep?
  }

  /** What a part becomes when it is scanned. */
  function Back(part: Part, vars: map<string, string>): string {
    if part.Plain? then PieceText(part.piece)
    else if IsIdentifier(part.name) && part.name in vars then vars[part.name]
    else TokenText(part.name)
  }

  function Backs(parts: seq<Part>, vars: map<string, string>): string {
    if parts == [] then "" else Back(parts[0], vars) + Backs(parts[1..], vars)
  }

  predicate ReadyPart(part: Part, vars: map<string, string>) {
    match part
    case Plain(piece) => if piece.Sep? then piece.c != '{' else NoOpen(piece.text)
    case Tok(name, _) => name != [] && AllNameChars(name) && name in vars && UrlSafe(vars[name])
  }

  predicate ReadyParts(parts: seq<Part>, vars: map<string, string>) {
    && (forall i :: 0 <= i < |parts| ==> ReadyPart(parts[i], vars))
    && (forall i :: 0 <= i < |parts| - 1 ==> IsSepPart(parts[i]) || IsSepPart(parts[i + 1]))
  }

  predicate IsSepPart(part: Part) {
    part.Plain? && part.piece.Sep?
  }

  lemma {:induction false} PartsBack(parts: seq<Part>, vars: map<string, string>)
    requires ReadyParts(parts, vars)
    ensures Substitute(Rendered(parts), vars, true) == Scan(Backs(parts, vars), [], [])
  {
    hide Substitute, AllNameChars, UrlSafe, IsIdentifier, NoOpen;
    if parts == [] {
      NothingToSubstitute([], vars, true);
    } else {
      var rest := Rendered(parts[1..]);
      assert ReadyParts(parts[1..], vars);
      PartsBack(parts[1..], vars);
      match parts[0]
      case Tok(name, _) => SkipToken(name, rest, vars, true);
      case Plain(piece) =>
        PlainQuiet(parts, vars);
        SkipQuiet(PieceText(piece), rest, vars, true);
    }
  }

  lemma {:induction false} PlainQuiet(parts: seq<Part>, vars: map<string, string>)
    requires parts != [] && ReadyParts(parts, vars) && parts[0].Plain?
    ensures Quiet(PieceText(parts[0].piece), Rendered(parts[1..]))
  {
    var piece := parts[0].piece;
    if piece.Sep? {
      assert NoOpen(PieceText(piece));
    } else if |parts| > 1 {
      assert IsSepPart(parts[1]) && ReadyPart(parts[1], vars);
      assert Rendered(parts[1..])[0] == parts[1].piece.c;
    }
  }

  /** The parts rebuild the text of the pieces, or leave a token in it. */
  lemma {:induction false} BacksAre(st: Names, producers: map<string, Producer>, pieces: seq<Piece>, vars: map<string, string>)
    requires WellNamed(st) && Supplies(st, producers, vars) && CoversPieces(st, producers, pieces)
    ensures var back := Backs(MapPieces(pieces, producers, st.names), vars);
            if ReadablePieces(pieces, producers) then back == Texts(pieces) else !NoOpen(back)
  {
    hide WellNamed, Supplies, NoOpen, AllNameChars, IsIdentifier, UrlSafe, DigitFirst;
    if pieces != [] {
      var parts := MapPieces(pieces, producers, st.names);
      assert parts[1..] == MapPieces(pieces[1..], producers, st.names);
      BacksAre(st, producers, pieces[1..], vars);
      OneBack(st, producers, pieces[0], vars);
      var first, rest := Back(parts[0], vars), Backs(parts[1..], vars);
      OpenStays(first, rest);
      ReadableSplits(pieces, producers);
    }
  }

  predicate ReadablePieces(pieces: seq<Piece>, producers: map<string, Producer>) {
    forall i :: 0 <= i < |pieces| && BoundPiece(producers, pieces[i]) ==> !DigitFirst(producers[pieces[i].text])
  }

  lemma {:induction false} ReadableSplits(pieces: seq<Piece>, producers: map<string, Producer>)
    requires pieces != []
    ensures ReadablePieces(pieces, producers) <==>
            (BoundPiece(producers, pieces[0]) ==> !DigitFirst(producers[pieces[0].text])) && ReadablePieces(pieces[1..], producers)
  {
    hide DigitFirst;
    if ReadablePieces(pieces, producers) {
      forall i | 0 <= i < |pieces[1..]| && BoundPiece(producers, pieces[1..][i]) ensures !DigitFirst(producers[pieces[1..][i].text]) {
        assert pieces[1..][i] == pieces[i + 1];
      }
    }
  }

  lemma {:induction false} OneBack(st: Names, producers: map<string, Producer>, piece: Piece, vars: map<string, string>)
    requires WellNamed(st) && Supplies(st, producers, vars)
    requires BoundPiece(producers, piece) ==> Recorded(st, producers, piece.text)
    ensures var back := Back(MapPiece(piece, producers, st.names), vars);
            if BoundPiece(producers, piece) && DigitFirst(producers[piece.text]) then !NoOpen(back) else back == PieceText(piece)
  {
    hide WellNamed, AllNameChars, IsIdentifier, DigitFirst;
    if BoundPiece(producers, piece) {
      var name := st.names[producers[piece.text]];
      NameOf(st, producers[piece.text]);
      TokenIsNoValue(name);
    }
  }

  lemma {:induction false} OpenStays(a: string, b: string)
    ensures !NoOpen(a) || !NoOpen(b) ==> !NoOpen(a + b)
  {
    if !NoOpen(a) {
      var k :| 0 <= k < |a| - 1 && a[k] == '{' && a[k + 1] == '{';
      assert (a + b)[k] == '{' && (a + b)[k + 1] == '{';
    } else if !NoOpen(b) {
      var k :| 0 <= k < |b| - 1 && b[k] == '{' && b[k + 1] == '{';
      assert (a + b)[|a| + k] == '{' && (a + b)[|a| + k + 1] == '{';
    }
  }

  // ---- the path, taken apart and put together ----

  lemma {:induction false} TextsAppend(a: seq<Piece>, b: seq<Piece>)
    ensures Texts(a + b) == Texts(a) + Texts(b)
  {
    if a == [] {
      assert a + b == b;
    } else {
      assert (a + b)[1..] == a[1..] + b;
      TextsAppend(a[1..], b);
      assert PieceText(a[0]) + (Texts(a[1..]) + Texts(b)) == Texts(a) + Texts(b);
    }
  }

  lemma {:induction false} TextsOne(p: Piece)
    ensures Texts([p]) == PieceText(p)
  {
    assert [p][1..] == [] && Texts([p]) == PieceText(p) + Texts([p][1..]);
  }

  lemma {:induction false} SegmentTexts(segs: seq<string>)
    ensures Texts(SegmentPieces(segs)) == Join(segs, '/')
  {
    if |segs| == 1 {
      TextsOne(Slot(segs[0], "path"));
    } else if |segs| > 1 {
      SegmentTexts(segs[1..]);
      TextsAppend([Slot(segs[0], "path"), Sep('/')], SegmentPieces(segs[1..]));
      TextsAppend([Slot(segs[0], "path")], [Sep('/')]);
      TextsOne(Slot(segs[0], "path"));
      TextsOne(Sep('/'));
      assert [Slot(segs[0], "path")] + [Sep('/')] == [Slot(segs[0], "path"), Sep('/')];
    }
  }

  lemma {:induction false} PairText(pair: string)
    ensures Texts(PairPiece(pair)) == pair
  {
    var eq := IndexOf(pair, '=');
    if eq == |pair| {
      TextsOne(Lit(pair));
    } else {
      var key, value := Lit(pair[..eq]), Slot(pair[eq + 1..], "query." + pair[..eq]);
      assert PairPiece(pair) == [key] + ([Sep('=')] + [value]);
      TextsAppend([key], [Sep('=')] + [value]);
      TextsAppend([Sep('=')], [value]);
      TextsOne(key);
      TextsOne(Sep('='));
      TextsOne(value);
    }
  }

  lemma {:induction false} PairTexts(pairs: seq<string>)
    ensures Texts(PairPieces(pairs)) == Join(pairs, '&')
  {
    hide PairPiece;
    if |pairs| == 1 {
      PairText(pairs[0]);
    } else if |pairs| > 1 {
      PairText(pairs[0]);
      PairTexts(pairs[1..]);
      TextsAppend(PairPiece(pairs[0]) + [Sep('&')], PairPieces(pairs[1..]));
      TextsAppend(PairPiece(pairs[0]), [Sep('&')]);
      TextsOne(Sep('&'));
    }
  }

  /** The pieces of a path spell the path, but for a question mark with no query behind it. */
  lemma {:induction false} PiecesSpell(raw: string)
    ensures Texts(PathPieces(raw)) == raw <==> !Dangling(raw)
  {
    hide Texts, SegmentPieces, PairPieces, Join, Split;
    var head, path, query := Head(raw), Pathname(raw), Query(raw);
    var a := SegmentPieces(Split(path, '/'));
    var b := if query == "" then [] else [Sep('?')] + PairPieces(Split(query, '&'));
    var c := if |head| == |raw| then [] else [Sep('#'), Lit(raw[|head| + 1..])];
    TextsAppend(a + b, c);
    TextsAppend(a, b);
    SegmentTexts(Split(path, '/'));
    JoinOfSplit(path, '/');
    QueryTexts(query);
    TailTexts(raw);
    var q := IndexOf(head, '?');
    assert raw == head + raw[|head|..];
    assert q < |head| ==> head == path + ["?"[0]] + head[q + 1..];
    assert q == |head| ==> head == path;
    if Dangling(raw) {
      assert |Texts(a + b + c)| == |raw| - 1;
    }
  }

  lemma {:induction false} QueryTexts(query: string)
    ensures Texts(if query == "" then [] else [Sep('?')] + PairPieces(Split(query, '&'))) == if query == "" then "" else "?" + query
  {
    hide PairPieces, Join, Split;
    if query != "" {
      TextsAppend([Sep('?')], PairPieces(Split(query, '&')));
      TextsOne(Sep('?'));
      PairTexts(Split(query, '&'));
      JoinOfSplit(query, '&');
    }
  }

  lemma {:induction false} TailTexts(raw: string)
    ensures Texts(if |Head(raw)| == |raw| then [] else [Sep('#'), Lit(raw[|Head(raw)| + 1..])]) == raw[|Head(raw)|..]
  {
    if |Head(raw)| < |raw| {
      var tail := Lit(raw[|Head(raw)| + 1..]);
      TextsAppend([Sep('#')], [tail]);
      TextsOne(Sep('#'));
      TextsOne(tail);
      assert [Sep('#')] + [tail] == [Sep('#'), tail];
    }
  }

  // ---- the pieces are separated and untokened ----

  lemma {:induction false} NoOpenSlice(s: string, a: nat, b: nat)
    requires NoOpen(s) && a <= b <= |s|
    ensures NoOpen(s[a..b])
  {
    forall k | 0 <= k < |s[a..b]| - 1 ensures !(s[a..b][k] == '{' && s[a..b][k + 1] == '{') {
      assert s[a..b][k] == s[a + k] && s[a..b][k + 1] == s[a + k + 1];
    }
  }

  lemma {:induction false} NoOpenSplit(s: string, c: char)
    requires NoOpen(s)
    ensures forall k :: 0 <= k < |Split(s, c)| ==> NoOpen(Split(s, c)[k])
    decreases |s|
  {
    var k := IndexOf(s, c);
    if k < |s| {
      NoOpenSlice(s, 0, k);
      NoOpenSlice(s, k + 1, |s|);
      NoOpenSplit(s[k + 1..], c);
    }
  }

  /** Separated pieces that begin and end with a text, and, when the text is plain, hold no token's opening. */
  predicate Framed(pieces: seq<Piece>, plain: bool) {
    && pieces != [] && !pieces[0].Sep? && !pieces[|pieces| - 1].Sep? && Separated(pieces)
    && (forall i :: 0 <= i < |pieces| && pieces[i].Sep? ==> pieces[i].c != '{')
    && (plain ==> UntokenedPieces(pieces))
  }

  lemma {:induction false} FramedJoin(a: seq<Piece>, c: char, b: seq<Piece>, plain: bool)
    requires Framed(a, plain) && Framed(b, plain) && c != '{'
    ensures Framed(a + [Sep(c)] + b, plain)
  {
    hide NoOpen;
  }

  lemma {:induction false} SegmentsFramed(segs: seq<string>, plain: bool)
    requires segs != [] && (plain ==> forall k :: 0 <= k < |segs| ==> NoOpen(segs[k]))
    ensures Framed(SegmentPieces(segs), plain)
  {
    hide NoOpen;
    if |segs| > 1 {
      SegmentsFramed(segs[1..], plain);
      var first := [Slot(segs[0], "path")];
      FramedJoin(first, '/', SegmentPieces(segs[1..]), plain);
      assert SegmentPieces(segs) == first + [Sep('/')] + SegmentPieces(segs[1..]);
    }
  }

  lemma {:induction false} PairFramed(pair: string, plain: bool)
    requires plain ==> NoOpen(pair)
    ensures Framed(PairPiece(pair), plain)
  {
    var eq := IndexOf(pair, '=');
    if plain {
      NoOpenSlice(pair, 0, eq);
      if eq < |pair| { NoOpenSlice(pair, eq + 1, |pair|); }
    }
    hide NoOpen;
  }

  lemma {:induction false} PairsFramed(pairs: seq<string>, plain: bool)
    requires pairs != [] && (plain ==> forall k :: 0 <= k < |pairs| ==> NoOpen(pairs[k]))
    ensures Framed(PairPieces(pairs), plain)
  {
    hide NoOpen, Framed, PairPiece;
    PairFramed(pairs[0], plain);
    if |pairs| > 1 {
      PairsFramed(pairs[1..], plain);
      FramedJoin(PairPiece(pairs[0]), '&', PairPieces(pairs[1..]), plain);
    }
  }

  lemma {:induction false} PathFramed(raw: string, plain: bool)
    requires plain ==> NoOpen(raw)
    ensures Framed(PathPieces(raw), plain)
  {
    hide NoOpen, Framed, SegmentPieces, PairPieces, Split;
    var head, path, query := Head(raw), Pathname(raw), Query(raw);
    if plain {
      PathTextsUntokened(raw);
      NoOpenSplit(path, '/');
    }
    SegmentsFramed(Split(path, '/'), plain);
    var a := SegmentPieces(Split(path, '/'));
    var b := if query == "" then [] else [Sep('?')] + PairPieces(Split(query, '&'));
    var c := if |head| == |raw| then [] else [Sep('#'), Lit(raw[|head| + 1..])];
    if query != "" {
      if plain { NoOpenSplit(query, '&'); }
      PairsFramed(Split(query, '&'), plain);
      FramedJoin(a, '?', PairPieces(Split(query, '&')), plain);
      assert a + b == a + [Sep('?')] + PairPieces(Split(query, '&'));
    } else {
      assert a + b == a;
    }
    if |head| < |raw| {
      LitFramed(raw[|head| + 1..], plain);
      FramedJoin(a + b, '#', [Lit(raw[|head| + 1..])], plain);
      assert a + b + c == a + b + [Sep('#')] + [Lit(raw[|head| + 1..])];
    } else {
      assert a + b + c == a + b;
    }
    assert PathPieces(raw) == a + b + c;
  }

  lemma LitFramed(t: string, plain: bool)
    requires plain ==> NoOpen(t)
    ensures Framed([Lit(t)], plain)
  {}

  lemma {:induction false} PathTextsUntokened(raw: string)
    requires NoOpen(raw)
    ensures NoOpen(Pathname(raw)) && NoOpen(Query(raw)) && (|Head(raw)| < |raw| ==> NoOpen(raw[|Head(raw)| + 1..]))
  {
    var head := Head(raw);
    NoOpenSlice(raw, 0, |head|);
    var q := IndexOf(head, '?');
    NoOpenSlice(head, 0, q);
    if q < |head| { NoOpenSlice(head, q + 1, |head|); }
    if |head| < |raw| { NoOpenSlice(raw, |head| + 1, |raw|); }
  }

  lemma {:induction false} PartsReady(st: Names, producers: map<string, Producer>, pieces: seq<Piece>, vars: map<string, string>)
    requires WellNamed(st) && Supplies(st, producers, vars) && CoversPieces(st, producers, pieces)
    requires Separated(pieces) && UntokenedPieces(pieces)
    ensures ReadyParts(MapPieces(pieces, producers, st.names), vars)
  {
    hide WellNamed, UrlSafe, NoOpen, AllNameChars, IsIdentifier, DigitFirst;
    var parts := MapPieces(pieces, producers, st.names);
    forall i | 0 <= i < |parts| ensures ReadyPart(parts[i], vars) && (IsSepPart(parts[i]) <==> pieces[i].Sep?) {
      if parts[i].Tok? { NameOf(st, producers[pieces[i].text]); }
    }
  }

  predicate BindsPath(raw: string, producers: map<string, Producer>) {
    exists k :: 0 <= k < |PathPieces(raw)| && BoundPiece(producers, PathPieces(raw)[k])
  }

  /** Substituting through a rewritten path: no problem is reported, and when it is the original path. */
  lemma {:induction false} PathBack(st: Names, producers: map<string, Producer>, raw: string, vars: map<string, string>)
    requires WellNamed(st) && Supplies(st, producers, vars) && CoversPieces(st, producers, PathPieces(raw)) && NoOpen(raw)
    ensures var parts := MapPieces(PathPieces(raw), producers, st.names);
            var s := Substitute(if AnyToken(parts) then Rendered(parts) else raw, vars, true);
            && (AnyToken(parts) <==> BindsPath(raw, producers))
            && s.missing == [] && s.unfit == []
            && (s.text == raw <==> (BindsPath(raw, producers) ==> ReadablePieces(PathPieces(raw), producers) && !Dangling(raw)))
  {
    hide WellNamed, Supplies, Substitute, NoOpen, PathPieces, Texts, Rendered, Backs, ReadablePieces, Dangling, BoundPiece, ReadyParts;
    var pieces := PathPieces(raw);
    var parts := MapPieces(pieces, producers, st.names);
    TokensAreBound(st, producers, pieces);
    if AnyToken(parts) {
      PathFramed(raw, true);
      PartsReady(st, producers, pieces, vars);
      PartsBack(parts, vars);
      BacksAre(st, producers, pieces, vars);
      PiecesSpell(raw);
    } else {
      NothingToSubstitute(raw, vars, true);
    }
  }

  lemma {:induction false} TokensAreBound(st: Names, producers: map<string, Producer>, pieces: seq<Piece>)
    requires CoversPieces(st, producers, pieces)
    ensures AnyToken(MapPieces(pieces, producers, st.names)) <==> exists k :: 0 <= k < |pieces| && BoundPiece(producers, pieces[k])
  {
    hide BoundPiece;
    var parts := MapPieces(pieces, producers, st.names);
    forall k | 0 <= k < |pieces| ensures parts[k].Tok? <==> BoundPiece(producers, pieces[k]) {}
  }
}

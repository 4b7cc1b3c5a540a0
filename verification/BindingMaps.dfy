/**
  Inference threads its names from literal to literal; seen from the names it ends with, it is
  one map over the request: each bound literal becomes its producer's token, nothing else moves.
*/
module BindingMaps {
  import opened Common
  import opened Text
  import opened Json
  import opened Trajectory
  import opened BindingProducers
  import opened BindingTokens
  import opened BindingTemplates

  // ---- binding one literal ----

  predicate HasRecord(st: Names, name: string) {
    FoundAt(st.found, name) < |st.found|
  }

  /** Every name assigned back then is still its producer's. */
  ghost predicate Since(byName: map<string, Producer>, st: Names) {
    forall x :: x in byName ==> x in st.byName && st.byName[x] == byName[x]
  }

  /** Later names keep earlier ones, and their records. */
  ghost predicate Extends(a: Names, b: Names) {
    && (forall p :: p in a.names ==> p in b.names && b.names[p] == a.names[p])
    && Since(a.byName, b)
    && (forall x :: HasRecord(a, x) ==> HasRecord(b, x))
  }

  ghost predicate IsProducer(producers: map<string, Producer>, p: Producer) {
    exists v :: v in producers && producers[v] == p
  }

  ghost predicate FromProducers(st: Names, producers: map<string, Producer>) {
    forall k :: 0 <= k < |st.found| ==> IsProducer(producers, Producer(st.found[k].fromStep, st.found[k].from))
  }

  ghost predicate Good(st: Names, producers: map<string, Producer>) {
    Consistent(st) && FromProducers(st, producers)
  }

  lemma SinceLater(byName: map<string, Producer>, a: Names, b: Names)
    requires Since(byName, a) && Extends(a, b)
    ensures Since(byName, b)
  {}

  lemma ExtendsTransitive(a: Names, b: Names, c: Names)
    requires Extends(a, b) && Extends(b, c)
    ensures Extends(a, c)
  {}

  /** A literal that takes a token's place: a produced value, in the path one fit for a URL, or a token reused. */
  predicate IsBound(known: map<string, Producer>, v: string, urlSafe: bool) {
    v in known && (urlSafe ==> UrlSafe(v) || !NoOpen(v))
  }

  /**
    What a request is templated from: the values responses produced, the names assigned before it, and for every
    literal of the request that is a produced value or a reused token the producer it stands for.
  */
  datatype Source = Source(producers: map<string, Producer>, byName: map<string, Producer>, known: map<string, Producer>)

  /** A literal without a token's opening, known as it is produced; or one whole token of a name assigned before. */
  predicate Allowed(src: Source, v: string) {
    if NoOpen(v) then (v in src.known <==> v in src.producers) && (v in src.known ==> src.known[v] == src.producers[v])
    else
      var token := WholeToken(v);
      token.Some? && token.value in src.byName && v in src.known && src.known[v] == src.byName[token.value]
  }

  /** A value's producer is named, and a record cites it. */
  predicate Recorded(st: Names, producers: map<string, Producer>, v: string)
    requires v in producers
  {
    producers[v] in st.names && HasRecord(st, st.names[producers[v]])
  }

  lemma {:induction false} NewName(st: Names, p: Producer)
    requires p !in st.names
    ensures var name := NameFor(st, p).1;
            && NameFor(st, p).0 == st.(names := st.names[p := name], byName := st.byName[name := p])
            && name !in st.byName && NamedAfter(name, p)
  {}

  lemma {:induction false} PairedMore(names: map<Producer, string>, byName: map<string, Producer>, p: Producer, name: string)
    requires Paired(names, byName) && p !in names && name !in byName
    ensures Paired(names[p := name], byName[name := p])
  {}

  lemma {:induction false} NameForKeeps(st: Names, p: Producer)
    requires Consistent(st)
    ensures var (st', name) := NameFor(st, p);
            && Consistent(st') && st'.found == st.found && p in st'.names && st'.names[p] == name
            && (forall q :: q in st.names ==> q in st'.names && st'.names[q] == st.names[q])
            && Since(st.byName, st')
            && name in st'.byName && st'.byName[name] == p
  {
    if p in st.names {
    } else {
      NewName(st, p);
      NewNameKeeps(st, p, NameFor(st, p).1);
    }
  }

  lemma {:induction false} NewNameKeeps(st: Names, p: Producer, name: string)
    requires Consistent(st) && p !in st.names && name !in st.byName && NamedAfter(name, p)
    ensures Consistent(st.(names := st.names[p := name], byName := st.byName[name := p]))
  {
    hide NamedAfter, Paired, DifferentNames;
    PairedMore(st.names, st.byName, p, name);
  }

  /** A record more, or a site more in the record there is. */
  lemma {:induction false} AddSiteIs(found: seq<Binding>, name: string, p: Producer, into: string)
    requires DifferentNames(found)
    requires forall k :: 0 <= k < |found| && found[k].name == name ==> Producer(found[k].fromStep, found[k].from) == p
    ensures var more := AddSite(found, name, p, into);
            && DifferentNames(more) && |found| <= |more|
            && (forall k :: 0 <= k < |found| ==> more[k] == found[k].(into := more[k].into))
            && (forall k :: |found| <= k < |more| ==> more[k].name == name && Producer(more[k].fromStep, more[k].from) == p)
            && FoundAt(more, name) < |more|
            && (forall x :: FoundAt(found, x) < |found| ==> FoundAt(more, x) < |more|)
  {
    var more := AddSite(found, name, p, into);
    var k := FoundAt(found, name);
    assert k < |more| && more[k].name == name;
    forall x | FoundAt(found, x) < |found| ensures FoundAt(more, x) < |more| {
      assert more[FoundAt(found, x)].name == x;
    }
  }

  lemma {:induction false} AddSiteKeeps(st: Names, producers: map<string, Producer>, name: string, p: Producer, into: string)
    requires Good(st, producers) && name in st.byName && st.byName[name] == p && IsProducer(producers, p)
    ensures var st' := st.(found := AddSite(st.found, name, p, into));
            Good(st', producers) && Extends(st, st') && HasRecord(st', name)
  {
    hide AddSite, Paired, NamedAfter, FoundAt, IsProducer;
    AddSiteIs(st.found, name, p, into);
    var st' := st.(found := AddSite(st.found, name, p, into));
    forall i | 0 <= i < |st'.found| ensures Cites(st', st'.found[i]) && IsProducer(producers, Producer(st'.found[i].fromStep, st'.found[i].from)) {
      if i < |st.found| { assert Cites(st, st.found[i]); }
    }
  }

  lemma {:induction false} BindKeeps(st: Names, src: Source, value: string, into: string, urlSafe: bool)
    requires Good(st, src.known) && Since(src.byName, st) && Allowed(src, value)
    ensures var (st', name) := Bind(st, src.producers, value, into, urlSafe);
            && Good(st', src.known) && Extends(st, st')
            && (name.Some? <==> IsBound(src.known, value, urlSafe))
            && (name.None? ==> st' == st)
            && (name.Some? ==> Recorded(st', src.known, value) && name.value == st'.names[src.known[value]])
  {
    hide Consistent, FromProducers, UrlSafe, NameFor, WholeToken, NoOpen;
    if !NoOpen(value) {
      var name := WholeToken(value).value;
      NameIs(st, name);
      AddSiteKeeps(st, src.known, name, src.known[value], into);
    } else {
      NoTokenInside(value);
      if IsBound(src.known, value, urlSafe) {
        NameForKeeps(st, src.known[value]);
        var (named, name) := NameFor(st, src.known[value]);
        StillFrom(st, named, src.known);
        AddSiteKeeps(named, src.known, name, src.known[value], into);
      }
    }
  }

  lemma NameIs(st: Names, name: string)
    requires Consistent(st) && name in st.byName
    ensures st.byName[name] in st.names && st.names[st.byName[name]] == name
  {}

  lemma StillFrom(st: Names, named: Names, producers: map<string, Producer>)
    requires FromProducers(st, producers) && named.found == st.found
    ensures FromProducers(named, producers)
    ensures forall x :: HasRecord(st, x) <==> HasRecord(named, x)
  {}

  lemma NoTokenInside(value: string)
    requires NoOpen(value)
    ensures WholeToken(value).None?
  {}

  // ---- the body, as one map over its leaves ----

  /** No string of the document, outside secret references, contains a token's opening. */
  predicate Untokened(node: Json)
    decreases node
  {
    match node
    case Str(text) => NoOpen(text)
    case Arr(items) => forall i :: 0 <= i < |items| ==> Untokened(items[i])
    case Obj(members) => IsSecretRef(node) || forall i :: 0 <= i < |members| ==> Untokened(members[i].value)
    case _ => true
  }

  predicate AllowedBody(src: Source, node: Json)
    decreases node
  {
    match node
    case Str(text) => Allowed(src, text)
    case Arr(items) => forall i :: 0 <= i < |items| ==> AllowedBody(src, items[i])
    case Obj(members) => IsSecretRef(node) || forall i :: 0 <= i < |members| ==> AllowedBody(src, members[i].value)
    case _ => true
  }

  predicate AllowedHeaders(src: Source, headers: Json) {
    if headers.Obj? then
      forall i :: 0 <= i < |headers.members| ==>
        if headers.members[i].value.Str? then Allowed(src, headers.members[i].value.text) else Untokened(headers.members[i].value)
    else Untokened(headers)
  }

  predicate AllowedPieces(src: Source, pieces: seq<Piece>) {
    forall i :: 0 <= i < |pieces| ==>
      if pieces[i].Sep? then pieces[i].c != '{'
      else if pieces[i].Slot? then Allowed(src, pieces[i].text)
      else NoOpen(pieces[i].text)
  }

  /** Literals without a token's opening are templated from the producers alone. */
  predicate FromProducersOnly(src: Source) {
    src.known == src.producers
  }

  lemma {:induction false} UntokenedAllowed(src: Source, node: Json)
    requires FromProducersOnly(src) && Untokened(node)
    ensures AllowedBody(src, node)
    decreases node
  {
    match node
    case Arr(items) => forall i | 0 <= i < |items| ensures AllowedBody(src, items[i]) { UntokenedAllowed(src, items[i]); }
    case Obj(members) =>
      if !IsSecretRef(node) {
        forall i | 0 <= i < |members| ensures AllowedBody(src, members[i].value) { UntokenedAllowed(src, members[i].value); }
      }
    case _ =>
  }

  predicate Covers(st: Names, producers: map<string, Producer>, node: Json)
    decreases node
  {
    match node
    case Str(text) => text in producers ==> Recorded(st, producers, text)
    case Arr(items) => forall i :: 0 <= i < |items| ==> Covers(st, producers, items[i])
    case Obj(members) => IsSecretRef(node) || forall i :: 0 <= i < |members| ==> Covers(st, producers, members[i].value)
    case _ => true
  }

  function MapBody(node: Json, producers: map<string, Producer>, names: map<Producer, string>): Json
    decreases node
  {
    match node
    case Str(text) => if text in producers && producers[text] in names then Str(TokenText(names[producers[text]])) else node
    case Arr(items) => Arr(seq(|items|, i requires 0 <= i < |items| => MapBody(items[i], producers, names)))
    case Obj(members) =>
      if IsSecretRef(node) then node
      else Obj(seq(|members|, i requires 0 <= i < |members| => Member(members[i].key, MapBody(members[i].value, producers, names))))
    case _ => node
  }

  lemma RecordedLater(a: Names, b: Names, producers: map<string, Producer>, v: string)
    requires Extends(a, b) && v in producers && Recorded(a, producers, v)
    ensures Recorded(b, producers, v) && producers[v] in a.names && b.names[producers[v]] == a.names[producers[v]]
  {}

  lemma {:induction false} MapStable(a: Names, b: Names, producers: map<string, Producer>, node: Json)
    requires Extends(a, b) && Covers(a, producers, node)
    ensures Covers(b, producers, node) && MapBody(node, producers, a.names) == MapBody(node, producers, b.names)
    decreases node
  {
    hide Extends, Recorded, IsSecretRef, TokenText, NoOpen;
    match node
    case Str(text) => if text in producers { RecordedLater(a, b, producers, text); }
    case Arr(items) =>
      forall i | 0 <= i < |items|
        ensures Covers(b, producers, items[i]) && MapBody(items[i], producers, a.names) == MapBody(items[i], producers, b.names)
      {
        MapStable(a, b, producers, items[i]);
      }
    case Obj(members) => if !IsSecretRef(node) { MembersStable(a, b, producers, node); }
    case _ =>
  }

  lemma {:induction false} MembersStable(a: Names, b: Names, producers: map<string, Producer>, node: Json)
    requires node.Obj? && !IsSecretRef(node) && Extends(a, b) && Covers(a, producers, node)
    ensures Covers(b, producers, node) && MapBody(node, producers, a.names) == MapBody(node, producers, b.names)
    decreases node, 0
  {
    hide Extends, Recorded, IsSecretRef, TokenText;
    forall i | 0 <= i < |node.members|
      ensures Covers(b, producers, node.members[i].value)
      ensures MapBody(node.members[i].value, producers, a.names) == MapBody(node.members[i].value, producers, b.names)
    {
      MapStable(a, b, producers, node.members[i].value);
    }
  }

  lemma {:induction false} TemplateIsMap(st: Names, src: Source, node: Json, path: string)
    requires Good(st, src.known) && Since(src.byName, st) && AllowedBody(src, node)
    ensures var (st', out) := TemplateBody(st, src.producers, node, path);
            Good(st', src.known) && Extends(st, st') && Covers(st', src.known, node) && out == MapBody(node, src.known, st'.names)
    decreases node, if node.Arr? then |node.items| + 1 else if node.Obj? then |node.members| + 1 else 0
  {
    hide Good, Extends, Bind;
    match node
    case Str(text) => TextIsMap(st, src, text, path);
    case Arr(items) =>
      ItemsAreMapped(st, src, node, path, 0);
      assert items[0..] == items;
    case Obj(members) =>
      SameState(st);
      if !IsSecretRef(node) {
        MembersAreMapped(st, src, node, path, 0);
        assert members[0..] == members;
      }
    case _ => SameState(st);
  }

  lemma SameState(st: Names)
    ensures Extends(st, st)
  {}

  lemma {:induction false} TextIsMap(st: Names, src: Source, text: string, into: string)
    requires Good(st, src.known) && Since(src.byName, st) && Allowed(src, text)
    ensures var (st', out) := BindText(st, src.producers, text, into);
            && Good(st', src.known) && Extends(st, st')
            && (text in src.known ==> Recorded(st', src.known, text) && out == TokenText(st'.names[src.known[text]]))
            && (text !in src.known ==> out == text)
  {
    hide Good, Bind, Extends;
    BindKeeps(st, src, text, into, false);
    var (st', name) := Bind(st, src.producers, text, into, false);
    assert BindText(st, src.producers, text, into) == (st', if name.None? then text else TokenText(name.value));
  }

  lemma {:induction false} ItemsAreMapped(st: Names, src: Source, node: Json, path: string, i: nat)
    requires node.Arr? && i <= |node.items| && Good(st, src.known) && Since(src.byName, st) && AllowedBody(src, node)
    ensures var (st', items) := TemplateItems(st, src.producers, node, path, i);
            && Good(st', src.known) && Extends(st, st') && |items| == |node.items| - i
            && (forall k :: i <= k < |node.items| ==>
                  Covers(st', src.known, node.items[k]) && items[k - i] == MapBody(node.items[k], src.known, st'.names))
    decreases node, |node.items| - i
  {
    hide Good, Extends, Bind, Covers, MapBody;
    if i == |node.items| {
      SameState(st);
    } else {
      var at := path + "[" + NatText(i) + "]";
      TemplateIsMap(st, src, node.items[i], at);
      var (st', item) := TemplateBody(st, src.producers, node.items[i], at);
      SinceLater(src.byName, st, st');
      ItemsAreMapped(st', src, node, path, i + 1);
      var (st'', rest) := TemplateItems(st', src.producers, node, path, i + 1);
      ExtendsTransitive(st, st', st'');
      MapStable(st', st'', src.known, node.items[i]);
    }
  }

  lemma {:induction false} MembersAreMapped(st: Names, src: Source, node: Json, path: string, i: nat)
    requires node.Obj? && !IsSecretRef(node) && i <= |node.members| && Good(st, src.known) && Since(src.byName, st) && AllowedBody(src, node)
    ensures var (st', members) := TemplateMembers(st, src.producers, node, path, i);
            && Good(st', src.known) && Extends(st, st') && |members| == |node.members| - i
            && (forall k :: i <= k < |node.members| ==>
                  Covers(st', src.known, node.members[k].value)
                  && members[k - i] == Member(node.members[k].key, MapBody(node.members[k].value, src.known, st'.names)))
    decreases node, |node.members| - i
  {
    hide Good, Extends, Bind, Covers, MapBody;
    if i == |node.members| {
      SameState(st);
    } else {
      var m := node.members[i];
      var at := path + "." + m.key;
      TemplateIsMap(st, src, m.value, at);
      var (st', value) := TemplateBody(st, src.producers, m.value, at);
      SinceLater(src.byName, st, st');
      MembersAreMapped(st', src, node, path, i + 1);
      var (st'', rest) := TemplateMembers(st', src.producers, node, path, i + 1);
      ExtendsTransitive(st, st', st'');
      MapStable(st', st'', src.known, m.value);
    }
  }

  // ---- the headers ----

  function MapHeaders(members: seq<Member>, producers: map<string, Producer>, names: map<Producer, string>): (r: seq<Member>)
    ensures |r| == |members|
  {
    seq(|members|, i requires 0 <= i < |members| =>
      if members[i].value.Str? then Member(members[i].key, MapBody(members[i].value, producers, names)) else members[i])
  }

  predicate CoversHeaders(st: Names, producers: map<string, Producer>, members: seq<Member>) {
    forall i :: 0 <= i < |members| && members[i].value.Str? ==> Covers(st, producers, members[i].value)
  }

  lemma {:induction false} HeadersAreMapped(st: Names, src: Source, members: seq<Member>)
    requires Good(st, src.known) && Since(src.byName, st) && AllowedHeaders(src, Obj(members))
    ensures var (st', out) := TemplateHeaderMembers(st, src.producers, members);
            && Good(st', src.known) && Extends(st, st') && CoversHeaders(st', src.known, members)
            && out == MapHeaders(members, src.known, st'.names)
    decreases |members|
  {
    hide Good, Extends, Since, Bind, BindText, Allowed, Untokened;
    if members == [] {
      SameState(st);
    } else {
      var m := members[0];
      if m.value.Str? {
        TextIsMap(st, src, m.value.text, "headers." + m.key);
        var (st', text) := BindText(st, src.producers, m.value.text, "headers." + m.key);
        SinceLater(src.byName, st, st');
        HeadersAreMapped(st', src, members[1..]);
        var (st'', rest) := TemplateHeaderMembers(st', src.producers, members[1..]);
        ExtendsTransitive(st, st', st'');
        MapStable(st', st'', src.known, m.value);
      } else {
        HeadersAreMapped(st, src, members[1..]);
      }
    }
  }

  lemma {:induction false} HeadersStable(a: Names, b: Names, producers: map<string, Producer>, members: seq<Member>)
    requires Extends(a, b) && CoversHeaders(a, producers, members)
    ensures CoversHeaders(b, producers, members) && MapHeaders(members, producers, a.names) == MapHeaders(members, producers, b.names)
  {
    hide Extends, Covers, MapBody;
    forall i | 0 <= i < |members| && members[i].value.Str?
      ensures Covers(b, producers, members[i].value)
      ensures MapBody(members[i].value, producers, a.names) == MapBody(members[i].value, producers, b.names)
    {
      MapStable(a, b, producers, members[i].value);
    }
  }

  // ---- the path ----

  predicate BoundPiece(producers: map<string, Producer>, p: Piece) {
    p.Slot? && p.text != [] && IsBound(producers, p.text, true)
  }

  function MapPiece(p: Piece, producers: map<string, Producer>, names: map<Producer, string>): Part {
    if BoundPiece(producers, p) && producers[p.text] in names then Tok(names[producers[p.text]], p.text) else Plain(p)
  }

  function MapPieces(pieces: seq<Piece>, producers: map<string, Producer>, names: map<Producer, string>): (r: seq<Part>)
    ensures |r| == |pieces| && forall i :: 0 <= i < |pieces| ==> r[i] == MapPiece(pieces[i], producers, names)
  {
    seq(|pieces|, i requires 0 <= i < |pieces| => MapPiece(pieces[i], producers, names))
  }

  predicate CoversPieces(st: Names, producers: map<string, Producer>, pieces: seq<Piece>) {
    forall i :: 0 <= i < |pieces| && BoundPiece(producers, pieces[i]) ==> Recorded(st, producers, pieces[i].text)
  }

  predicate UntokenedPieces(pieces: seq<Piece>) {
    forall i :: 0 <= i < |pieces| ==> if pieces[i].Sep? then pieces[i].c != '{' else NoOpen(pieces[i].text)
  }

  lemma {:induction false} PieceIsMapped(st: Names, src: Source, piece: Piece)
    requires Good(st, src.known) && Since(src.byName, st) && (piece.Slot? ==> Allowed(src, piece.text))
    ensures var (st', part) := BindPiece(st, src.producers, piece);
            && Good(st', src.known) && Extends(st, st') && part == MapPiece(piece, src.known, st'.names)
            && (BoundPiece(src.known, piece) ==> Recorded(st', src.known, piece.text))
  {
    hide Good, Extends, Bind;
    SameState(st);
    if piece.Slot? && piece.text != [] {
      BindKeeps(st, src, piece.text, piece.into, true);
      var (st', name) := Bind(st, src.producers, piece.text, piece.into, true);
      assert BindPiece(st, src.producers, piece) == (st', if name.None? then Plain(piece) else Tok(name.value, piece.text));
    }
  }

  lemma {:induction false} PiecesAreMapped(st: Names, src: Source, pieces: seq<Piece>)
    requires Good(st, src.known) && Since(src.byName, st) && AllowedPieces(src, pieces)
    ensures var (st', parts) := BindPieces(st, src.producers, pieces);
            && Good(st', src.known) && Extends(st, st') && CoversPieces(st', src.known, pieces)
            && parts == MapPieces(pieces, src.known, st'.names)
    decreases |pieces|
  {
    hide Good, Bind, BindPiece;
    if pieces == [] {
      SameState(st);
    } else {
      PieceIsMapped(st, src, pieces[0]);
      var (st', part) := BindPiece(st, src.producers, pieces[0]);
      PiecesAreMapped(st', src, pieces[1..]);
      var (st'', parts) := BindPieces(st', src.producers, pieces[1..]);
      ExtendsTransitive(st, st', st'');
    }
  }
}

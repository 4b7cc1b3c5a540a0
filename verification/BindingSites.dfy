/**
  Which literals of a request are looked up, in what order and under what label, and which values of a response are
  walked: the two enumerations behind the binding records.
*/
module BindingSites {
  import opened Common
  import opened Json
  import opened Text
  import opened FieldPath
  import opened Trajectory
  import opened BindingProducers
  import opened BindingTemplates

  // ---- the literals of a request ----

  datatype Site = Site(text: string, into: string, urlSafe: bool)

  /** Whole path segments that are not empty. */
  function SegmentSites(segs: seq<string>): seq<Site> {
    if segs == [] then []
    else (if segs[0] == "" then [] else [Site(segs[0], "path", true)]) + SegmentSites(segs[1..])
  }

  /** Whole query values that are not empty, under their keys. */
  function PairSites(pairs: seq<string>): seq<Site> {
    if pairs == [] then []
    else
      var eq := IndexOf(pairs[0], '=');
      (if eq >= |pairs[0]| - 1 then [] else [Site(pairs[0][eq + 1..], "query." + pairs[0][..eq], true)]) + PairSites(pairs[1..])
  }

  function PathSites(raw: string): seq<Site> {
    SegmentSites(Split(Pathname(raw), '/')) + if Query(raw) == "" then [] else PairSites(Split(Query(raw), '&'))
  }

  function HeaderSites(members: seq<Member>): seq<Site> {
    if members == [] then []
    else (if members[0].value.Str? then [Site(members[0].value.text, "headers." + members[0].key, false)] else []) + HeaderSites(members[1..])
  }

  function BodySites(node: Json, path: string): seq<Site>
    decreases node, if node.Arr? then |node.items| + 1 else if node.Obj? then |node.members| + 1 else 0
  {
    match node
    case Str(text) => [Site(text, path, false)]
    case Arr(_) => ItemSites(node, path, 0)
    case Obj(_) => if IsSecretRef(node) then [] else MemberSites(node, path, 0)
    case _ => []
  }

  function ItemSites(node: Json, path: string, i: nat): seq<Site>
    requires node.Arr? && i <= |node.items|
    decreases node, |node.items| - i
  {
    if i == |node.items| then []
    else BodySites(node.items[i], path + "[" + NatText(i) + "]") + ItemSites(node, path, i + 1)
  }

  function MemberSites(node: Json, path: string, i: nat): seq<Site>
    requires node.Obj? && i <= |node.members|
    decreases node, |node.members| - i
  {
    if i == |node.members| then []
    else BodySites(node.members[i].value, path + "." + node.members[i].key) + MemberSites(node, path, i + 1)
  }

  /** Every literal a request offers for binding: path, then headers, then body. */
  function Sites(r: Request): seq<Site> {
    (if r.path.Some? then PathSites(r.path.value) else [])
    + (if r.headers.Some? && r.headers.value.Obj? then HeaderSites(r.headers.value.members) else [])
    + (if r.body.Some? then BodySites(r.body.value, "body") else [])
  }

  /** A path is cut at its first question mark and its first hash, whichever of them it has. */
  lemma {:induction false} PathIsCut(path: string, query: string, fragment: string)
    requires '?' !in path && '#' !in path && '#' !in query
    ensures Pathname(path) == path && Query(path) == ""
    ensures Pathname(path + "?" + query) == path && Query(path + "?" + query) == query
    ensures Pathname(path + "#" + fragment) == path && Query(path + "#" + fragment) == ""
    ensures Pathname(path + "?" + query + "#" + fragment) == path && Query(path + "?" + query + "#" + fragment) == query
  {
    hide IndexOf;
    var asked := path + "?" + query;
    Cut(path, "", '?');
    Cut(path, "", '#');
    Cut(path, "?" + query, '?');
    Cut(asked, "", '#');
    Cut(path, "#" + fragment, '#');
    Cut(asked, "#" + fragment, '#');
    assert path + "" == path && asked + "" == asked;
    assert path + ("?" + query) == asked;
    assert (path + ("#" + fragment)) == path + "#" + fragment && asked + ("#" + fragment) == path + "?" + query + "#" + fragment;
  }

  lemma {:induction false} Cut(a: string, b: string, c: char)
    requires c !in a && (b == "" || b[0] == c)
    ensures IndexOf(a + b, c) == |a| && (a + b)[..|a|] == a && (b != "" ==> (a + b)[|a| + 1..] == b[1..])
  {
    IndexOfSkips(a, b, c);
  }

  // ---- binding them one after the other ----

  function BindSite(st: Names, producers: map<string, Producer>, s: Site): (Names, Option<string>) {
    Bind(st, producers, s.text, s.into, s.urlSafe)
  }

  function BindSites(st: Names, producers: map<string, Producer>, sites: seq<Site>): Names
    decreases |sites|
  {
    if sites == [] then st else BindSites(BindSite(st, producers, sites[0]).0, producers, sites[1..])
  }

  lemma {:induction false} BindAppend(st: Names, producers: map<string, Producer>, a: seq<Site>, b: seq<Site>)
    ensures BindSites(st, producers, a + b) == BindSites(BindSites(st, producers, a), producers, b)
    decreases |a|
  {
    hide Bind;
    if a == [] {
      assert a + b == b;
    } else {
      assert (a + b)[1..] == a[1..] + b;
      BindAppend(BindSite(st, producers, a[0]).0, producers, a[1..], b);
    }
  }

  lemma BindOne(st: Names, producers: map<string, Producer>, s: Site)
    ensures BindSites(st, producers, [s]) == BindSite(st, producers, s).0
  {}

  function SlotSites(pieces: seq<Piece>): seq<Site> {
    if pieces == [] then []
    else (if pieces[0].Slot? && pieces[0].text != "" then [Site(pieces[0].text, pieces[0].into, true)] else []) + SlotSites(pieces[1..])
  }

  lemma {:induction false} SlotAppend(a: seq<Piece>, b: seq<Piece>)
    ensures SlotSites(a + b) == SlotSites(a) + SlotSites(b)
    decreases |a|
  {
    if a == [] {
      assert a + b == b;
    } else {
      assert (a + b)[1..] == a[1..] + b;
      SlotAppend(a[1..], b);
    }
  }

  lemma {:induction false} PiecesBindSlots(st: Names, producers: map<string, Producer>, pieces: seq<Piece>)
    ensures BindPieces(st, producers, pieces).0 == BindSites(st, producers, SlotSites(pieces))
    decreases |pieces|
  {
    hide Bind;
    if pieces != [] {
      var st' := BindPiece(st, producers, pieces[0]).0;
      PiecesBindSlots(st', producers, pieces[1..]);
      if pieces[0].Slot? && pieces[0].text != "" {
        var s := Site(pieces[0].text, pieces[0].into, true);
        BindAppend(st, producers, [s], SlotSites(pieces[1..]));
        BindOne(st, producers, s);
      } else {
        assert [] + SlotSites(pieces[1..]) == SlotSites(pieces[1..]);
      }
    }
  }

  lemma OneSlot(p: Piece)
    ensures SlotSites([p]) == if p.Slot? && p.text != "" then [Site(p.text, p.into, true)] else []
  {}

  lemma {:induction false} SegmentSlots(segs: seq<string>)
    ensures SlotSites(SegmentPieces(segs)) == SegmentSites(segs)
    decreases |segs|
  {
    hide SlotSites;
    if segs == [] {
      assert SlotSites([]) == [] by { NoSlot(); }
    } else {
      OneSlot(Slot(segs[0], "path"));
      if |segs| == 1 {
        assert segs[1..] == [] && SegmentPieces(segs) == [Slot(segs[0], "path")];
        assert SegmentSites(segs[1..]) == [];
      } else {
        SegmentSlots(segs[1..]);
        OneSlot(Sep('/'));
        SlotAppend([Slot(segs[0], "path")], [Sep('/')]);
        SlotAppend([Slot(segs[0], "path")] + [Sep('/')], SegmentPieces(segs[1..]));
        assert SegmentPieces(segs) == [Slot(segs[0], "path")] + [Sep('/')] + SegmentPieces(segs[1..]);
      }
    }
  }

  lemma NoSlot()
    ensures SlotSites([]) == []
  {}

  lemma {:induction false} PairSlots(pair: string)
    ensures SlotSites(PairPiece(pair)) == PairSites([pair])
  {
    hide SlotSites, IndexOf;
    var eq := IndexOf(pair, '=');
    assert [pair][1..] == [];
    assert PairSites([]) == [];
    OneSlot(Lit(pair));
    if eq < |pair| {
      var value := Slot(pair[eq + 1..], "query." + pair[..eq]);
      OneSlot(Lit(pair[..eq]));
      OneSlot(Sep('='));
      OneSlot(value);
      SlotAppend([Lit(pair[..eq])], [Sep('=')]);
      SlotAppend([Lit(pair[..eq])] + [Sep('=')], [value]);
      assert PairPiece(pair) == [Lit(pair[..eq])] + [Sep('=')] + [value];
      assert pair[eq + 1..] == "" <==> eq == |pair| - 1;
    }
  }

  lemma {:induction false} PairsHead(pairs: seq<string>)
    requires pairs != []
    ensures PairSites(pairs) == PairSites([pairs[0]]) + PairSites(pairs[1..])
  {
    assert [pairs[0]][1..] == [];
    assert PairSites([]) == [];
  }

  lemma {:induction false} PairsSlots(pairs: seq<string>)
    ensures SlotSites(PairPieces(pairs)) == PairSites(pairs)
    decreases |pairs|
  {
    hide SlotSites, PairPiece;
    if pairs == [] {
      NoSlot();
    } else {
      PairSlots(pairs[0]);
      if |pairs| == 1 {
        assert pairs == [pairs[0]];
      } else {
        PairsSlots(pairs[1..]);
        PairsHead(pairs);
        OneSlot(Sep('&'));
        SlotAppend(PairPiece(pairs[0]) + [Sep('&')], PairPieces(pairs[1..]));
        SlotAppend(PairPiece(pairs[0]), [Sep('&')]);
      }
    }
  }

  lemma {:induction false} PathSlots(raw: string)
    ensures SlotSites(PathPieces(raw)) == PathSites(raw)
  {
    hide SegmentPieces, PairPieces, SegmentSites, PairSites, Split, SlotSites, IndexOf;
    var a := SegmentPieces(Split(Pathname(raw), '/'));
    var pairs := PairPieces(Split(Query(raw), '&'));
    var b := if Query(raw) == "" then [] else [Sep('?')] + pairs;
    var c := if |Head(raw)| == |raw| then [] else [Sep('#'), Lit(raw[|Head(raw)| + 1..])];
    SlotAppend(a + b, c);
    SlotAppend(a, b);
    SlotAppend([Sep('?')], pairs);
    SegmentSlots(Split(Pathname(raw), '/'));
    PairsSlots(Split(Query(raw), '&'));
    OneSlot(Sep('?'));
    NoSlot();
    if c != [] {
      OneSlot(c[0]);
      OneSlot(c[1]);
      SlotAppend([c[0]], [c[1]]);
      assert c == [c[0]] + [c[1]];
    }
  }

  lemma {:induction false} HeadersBindSites(st: Names, producers: map<string, Producer>, members: seq<Member>)
    ensures TemplateHeaderMembers(st, producers, members).0 == BindSites(st, producers, HeaderSites(members))
    decreases |members|
  {
    hide Bind;
    if members != [] {
      var m := members[0];
      if m.value.Str? {
        var s := Site(m.value.text, "headers." + m.key, false);
        HeadersBindSites(BindSite(st, producers, s).0, producers, members[1..]);
        BindAppend(st, producers, [s], HeaderSites(members[1..]));
        BindOne(st, producers, s);
      } else {
        HeadersBindSites(st, producers, members[1..]);
        assert [] + HeaderSites(members[1..]) == HeaderSites(members[1..]);
      }
    }
  }

  lemma {:induction false} BodyBindsSites(st: Names, producers: map<string, Producer>, node: Json, path: string)
    ensures TemplateBody(st, producers, node, path).0 == BindSites(st, producers, BodySites(node, path))
    decreases node, if node.Arr? then |node.items| + 1 else if node.Obj? then |node.members| + 1 else 0
  {
    hide Bind;
    match node
    case Str(text) => BindOne(st, producers, Site(text, path, false));
    case Arr(_) => ItemsBindSites(st, producers, node, path, 0);
    case Obj(_) => if !IsSecretRef(node) { MembersBindSites(st, producers, node, path, 0); }
    case _ =>
  }

  lemma {:induction false} ItemsBindSites(st: Names, producers: map<string, Producer>, node: Json, path: string, i: nat)
    requires node.Arr? && i <= |node.items|
    ensures TemplateItems(st, producers, node, path, i).0 == BindSites(st, producers, ItemSites(node, path, i))
    decreases node, |node.items| - i
  {
    hide Bind;
    if i < |node.items| {
      var below := path + "[" + NatText(i) + "]";
      var st' := TemplateBody(st, producers, node.items[i], below).0;
      BodyBindsSites(st, producers, node.items[i], below);
      ItemsBindSites(st', producers, node, path, i + 1);
      BindAppend(st, producers, BodySites(node.items[i], below), ItemSites(node, path, i + 1));
    }
  }

  lemma {:induction false} MembersBindSites(st: Names, producers: map<string, Producer>, node: Json, path: string, i: nat)
    requires node.Obj? && i <= |node.members|
    ensures TemplateMembers(st, producers, node, path, i).0 == BindSites(st, producers, MemberSites(node, path, i))
    decreases node, |node.members| - i
  {
    hide Bind;
    if i < |node.members| {
      var m := node.members[i];
      var st' := TemplateBody(st, producers, m.value, path + "." + m.key).0;
      BodyBindsSites(st, producers, m.value, path + "." + m.key);
      MembersBindSites(st', producers, node, path, i + 1);
      BindAppend(st, producers, BodySites(m.value, path + "." + m.key), MemberSites(node, path, i + 1));
    }
  }

  lemma {:induction false} NothingToBind(st: Names, producers: map<string, Producer>, sites: seq<Site>)
    requires |producers| == 0 && |st.byName| == 0
    ensures BindSites(st, producers, sites) == st
    decreases |sites|
  {
    if sites != [] {
      assert producers == map[] && st.byName == map[];
      NothingToBind(st, producers, sites[1..]);
    }
  }

  /** Inference looks every literal of the request up once, in order, and nothing else. */
  lemma {:induction false} InferenceVisitsSites(r: Request, producers: map<string, Producer>, st: Names)
    ensures InferBindings(r, producers, st).1 == BindSites(st.(found := []), producers, Sites(r))
  {
    hide Bind, BindSites, PathSites, HeaderSites, BodySites, BindPieces, TemplateHeaderMembers, TemplateBody, PathPieces;
    var s0 := st.(found := []);
    if |producers| == 0 && |st.byName| == 0 {
      NothingToBind(s0, producers, Sites(r));
    } else {
      var a := if r.path.Some? then PathSites(r.path.value) else [];
      var b := if r.headers.Some? && r.headers.value.Obj? then HeaderSites(r.headers.value.members) else [];
      var c := if r.body.Some? then BodySites(r.body.value, "body") else [];
      BindAppend(s0, producers, a + b, c);
      BindAppend(s0, producers, a, b);
      NoSites(s0, producers);
      var s1 := BindSites(s0, producers, a);
      if r.path.Some? {
        PiecesBindSlots(s0, producers, PathPieces(r.path.value));
        PathSlots(r.path.value);
      }
      NoSites(s1, producers);
      var s2 := BindSites(s1, producers, b);
      if r.headers.Some? && r.headers.value.Obj? { HeadersBindSites(s1, producers, r.headers.value.members); }
      NoSites(s2, producers);
      if r.body.Some? { BodyBindsSites(s2, producers, r.body.value, "body"); }
    }
  }

  lemma NoSites(st: Names, producers: map<string, Producer>)
    ensures BindSites(st, producers, []) == st
  {}

  // ---- what the records say ----

  /** The k-th literal was given this name. */
  ghost predicate GivenAt(st: Names, producers: map<string, Producer>, sites: seq<Site>, k: nat, name: string) {
    k < |sites| && BindSite(BindSites(st, producers, sites[..k]), producers, sites[k]).1 == Some(name)
  }

  /** The name went into a place of this label. */
  ghost predicate WentInto(st: Names, producers: map<string, Producer>, sites: seq<Site>, name: string, into: string) {
    exists k: nat :: GivenAt(st, producers, sites, k, name) && sites[k].into == into
  }

  ghost predicate Lists(found: seq<Binding>, name: string, into: string) {
    exists k :: 0 <= k < |found| && found[k].name == name && into in found[k].into
  }

  lemma {:induction false} GivenLater(st: Names, producers: map<string, Producer>, sites: seq<Site>, s: Site, name: string, into: string)
    ensures WentInto(st, producers, sites + [s], name, into) <==>
            || WentInto(st, producers, sites, name, into)
            || (BindSite(BindSites(st, producers, sites), producers, s).1 == Some(name) && s.into == into)
  {
    hide BindSite, BindSites;
    var more := sites + [s];
    assert more[..|sites|] == sites && more[|sites|] == s;
    forall k: nat | k < |sites| ensures GivenAt(st, producers, more, k, name) <==> GivenAt(st, producers, sites, k, name) {
      assert more[..k] == sites[..k] && more[k] == sites[k];
    }
    if k: nat :| GivenAt(st, producers, sites, k, name) && sites[k].into == into {
      assert GivenAt(st, producers, more, k, name) && more[k].into == into;
    }
    if BindSite(BindSites(st, producers, sites), producers, s).1 == Some(name) && s.into == into {
      assert GivenAt(st, producers, more, |sites|, name) && more[|sites|].into == into;
    }
  }

  lemma {:induction false} AddSiteLists(found: seq<Binding>, name: string, p: Producer, into: string)
    requires forall i, j :: 0 <= i < j < |found| ==> found[i].name != found[j].name
    ensures var after := AddSite(found, name, p, into);
            && (forall i, j :: 0 <= i < j < |after| ==> after[i].name != after[j].name)
            && forall n, l :: Lists(after, n, l) <==> Lists(found, n, l) || (n == name && l == into)
  {
    var after, k := AddSite(found, name, p, into), FoundAt(found, name);
    forall n, l ensures Lists(after, n, l) <==> Lists(found, n, l) || (n == name && l == into) {
      if i :| 0 <= i < |found| && found[i].name == n && l in found[i].into {
        assert after[i].name == n && l in after[i].into;
      }
      if i :| 0 <= i < |after| && after[i].name == n && l in after[i].into {
        if !(n == name && l == into) { assert i < |found| && found[i].name == n && l in found[i].into; }
      }
      if n == name && l == into {
        assert k < |after| && after[k].name == n && l in after[k].into;
      }
    }
  }

  lemma {:induction false} SiteListed(st: Names, producers: map<string, Producer>, s: Site)
    requires forall i, j :: 0 <= i < j < |st.found| ==> st.found[i].name != st.found[j].name
    ensures var (after, name) := BindSite(st, producers, s);
            && (forall i, j :: 0 <= i < j < |after.found| ==> after.found[i].name != after.found[j].name)
            && forall n, l :: Lists(after.found, n, l) <==> Lists(st.found, n, l) || (name == Some(n) && l == s.into)
  {
    hide AddSite, Lists;
    var (after, name) := BindSite(st, producers, s);
    if name.Some? {
      var reused := WholeToken(s.text);
      var p := if reused.Some? then st.byName[reused.value] else producers[s.text];
      AddSiteLists(st.found, name.value, p, s.into);
      NameForFound(st, p);
    }
  }

  lemma NameForFound(st: Names, p: Producer)
    ensures NameFor(st, p).0.found == st.found
  {}

  lemma {:induction false} SitesListed(st: Names, producers: map<string, Producer>, sites: seq<Site>)
    requires st.found == []
    ensures var end := BindSites(st, producers, sites);
            && (forall i, j :: 0 <= i < j < |end.found| ==> end.found[i].name != end.found[j].name)
            && forall n, l :: Lists(end.found, n, l) <==> WentInto(st, producers, sites, n, l)
    decreases |sites|
  {
    hide Bind, Lists, WentInto;
    if sites == [] {
      forall n, l ensures !Lists(st.found, n, l) && !WentInto(st, producers, sites, n, l) { NothingListed(st, producers, n, l); }
    } else {
      var front, last := sites[..|sites| - 1], sites[|sites| - 1];
      assert sites == front + [last];
      SitesListed(st, producers, front);
      BindAppend(st, producers, front, [last]);
      BindOne(BindSites(st, producers, front), producers, last);
      SiteListed(BindSites(st, producers, front), producers, last);
      forall n, l ensures Lists(BindSites(st, producers, sites).found, n, l) <==> WentInto(st, producers, sites, n, l) {
        GivenLater(st, producers, front, last, n, l);
      }
    }
  }

  lemma NothingListed(st: Names, producers: map<string, Producer>, n: string, l: string)
    ensures !Lists([], n, l) && !WentInto(st, producers, [], n, l)
  {}

  /** One record a name, and a record lists exactly the places its name went into. */
  lemma {:induction false} RecordsListSites(r: Request, producers: map<string, Producer>, st: Names, name: string, into: string)
    ensures var found := InferBindings(r, producers, st).1.found;
            && (forall i, j :: 0 <= i < j < |found| ==> found[i].name != found[j].name)
            && (Lists(found, name, into) <==> WentInto(st.(found := []), producers, Sites(r), name, into))
  {
    hide InferBindings, BindSites, Sites, Lists, WentInto;
    InferenceVisitsSites(r, producers, st);
    SitesListed(st.(found := []), producers, Sites(r));
  }

  // ---- what names are made of ----

  lemma {:induction false} LastPiece(prefix: string, key: string)
    requires '.' !in key
    ensures Split(prefix + "." + key, '.')[|Split(prefix + "." + key, '.')| - 1] == key
    decreases |prefix|
  {
    hide IndexOf, Split;
    var whole := prefix + "." + key;
    var k := IndexOf(whole, '.');
    assert whole[|prefix|] == '.';
    SplitStep(whole);
    if k < |prefix| {
      LastPiece(prefix[k + 1..], key);
      assert whole[k + 1..] == prefix[k + 1..] + "." + key;
    } else {
      assert whole[k + 1..] == key;
      Cut(key, "", '.');
      assert key + "" == key;
      SplitStep(key);
    }
  }

  lemma {:induction false} SplitStep(s: string)
    ensures var k := IndexOf(s, '.'); Split(s, '.') == if k == |s| then [s] else [s[..k]] + Split(s[k + 1..], '.')
  {}

  predicate IsSnake(key: string) {
    forall i :: 0 <= i < |key| ==> IsLowerOrDigit(key[i]) || key[i] == '_'
  }

  lemma {:induction false} SnakeStays(key: string)
    requires IsSnake(key)
    ensures Snake(key) == key && Sanitize(key) == key
  {
    if key != [] {
      SnakeStays(key[..|key| - 1]);
      assert IsLowerOrDigit(key[|key| - 1]) || key[|key| - 1] == '_';
    }
  }

  /** A snake_case response key names its producer with the step; a closing list index does not enter the name. */
  lemma {:induction false} NameIsKeyAndStep(prefix: string, key: string, step: nat, index: nat)
    requires key != "" && IsSnake(key)
    ensures Base(Producer(step, prefix + "." + key)) == key + "_" + NatText(step)
    ensures Base(Producer(step, prefix + "." + key + "[" + NatText(index) + "]")) == key + "_" + NatText(step)
  {
    hide Split, Snake, Sanitize, NatText;
    SnakeStays(key);
    var digits := NatText(index);
    var indexed := key + "[" + digits + "]";
    assert forall i :: 0 <= i < |key| ==> key[i] != '.' && key[i] != ']';
    assert forall i :: 0 <= i < |digits| ==> IsDigit(digits[i]) && digits[i] != '.';
    LastPiece(prefix, key);
    LastPiece(prefix, indexed);
    assert prefix + "." + indexed == prefix + "." + key + "[" + digits + "]";
    assert indexed[..|indexed| - 1] == (key + "[") + digits;
    AllDigits(key + "[", digits);
    assert indexed[..|key|] == key;
  }

  lemma {:induction false} AllDigits(front: string, digits: string)
    requires front != "" && !IsDigit(front[|front| - 1]) && forall i :: 0 <= i < |digits| ==> IsDigit(digits[i])
    ensures DigitTail(front + digits) == |digits|
  {
    if digits == "" {
      assert front + digits == front;
    } else {
      assert (front + digits)[..|front + digits| - 1] == front + digits[..|digits| - 1];
      AllDigits(front, digits[..|digits| - 1]);
    }
  }

  lemma {:induction false} SnakeMore(s: string, c: char)
    ensures Snake(s + [c]) == Snake(s) + (if s != [] && IsLowerOrDigit(s[|s| - 1]) && IsUpper(c) then "_" else "") + [Lower(c)]
  {
    assert (s + [c])[..|s|] == s;
  }

  /** `accountId` and `account_id` agree. */
  lemma {:induction false} CamelAgrees(front: string, rest: string)
    requires front != "" && IsSnake(front) && IsLowerOrDigit(front[|front| - 1]) && IsSnake(rest)
    ensures Snake(front + "I" + rest) == front + "_i" + rest && Snake(front + "_i" + rest) == front + "_i" + rest
    decreases |rest|
  {
    hide Snake;
    if rest == "" {
      SnakeStays(front);
      SnakeMore(front, 'I');
      assert front + "I" + rest == front + ['I'] && front + "_i" + rest == front + "_" + ['i'];
    } else {
      var c := rest[|rest| - 1];
      CamelAgrees(front, rest[..|rest| - 1]);
      SnakeMore(front + "I" + rest[..|rest| - 1], c);
      assert IsLowerOrDigit(c) || c == '_';
      assert front + "I" + rest == front + "I" + rest[..|rest| - 1] + [c];
      assert front + "_i" + rest == front + "_i" + rest[..|rest| - 1] + [c];
    }
    SnakeStays(front + "_i" + rest);
  }

  // ---- the values of a response ----

  predicate Concrete(steps: seq<Segment>) {
    forall k :: 0 <= k < |steps| ==> !steps[k].Each?
  }

  lemma {:induction false} WithinItems(node: Json, path: seq<Segment>, depth: nat, from: nat, i: nat, v: Visit)
    requires node.Arr? && from <= i < |node.items| && v in Visits(node.items[i], path + [Index(i)], depth + 1)
    ensures v in VisitItems(node, path, depth, from)
    decreases i - from
  {
    hide Visits;
    if from < i { WithinItems(node, path, depth, from + 1, i, v); }
  }

  lemma {:induction false} WithinMembers(node: Json, path: seq<Segment>, depth: nat, from: nat, i: nat, v: Visit)
    requires node.Obj? && from <= i < |node.members|
    requires var m := node.members[i];
             if m.value.Arr? || m.value.Obj? then v in Visits(m.value, path + [Key(m.key)], depth + 1)
             else v == Visit(path + [Key(m.key)], m.key, m.value)
    ensures v in VisitMembers(node, path, depth, from)
    decreases i - from
  {
    hide Visits;
    if from < i { WithinMembers(node, path, depth, from + 1, i, v); }
  }

  /** Every member that is neither list nor object is walked, unless its object lies deeper than the limit. */
  lemma {:induction false} AllVisited(node: Json, path: seq<Segment>, depth: nat, steps: seq<Segment>, key: string)
    requires Concrete(steps) && depth + |steps| <= MAX_DEPTH
    requires var at := ReadAt(Some(node), steps);
             at.Some? && Child(at.value, key).Some? && !Child(at.value, key).value.Arr? && !Child(at.value, key).value.Obj?
    ensures Visit(path + steps + [Key(key)], key, Child(ReadAt(Some(node), steps).value, key).value) in Visits(node, path, depth)
    decreases |steps|
  {
    hide Visits;
    var value := Child(ReadAt(Some(node), steps).value, key).value;
    VisitsOf(node, path, depth);
    if steps == [] {
      assert path + steps == path;
      WithinMembers(node, path, depth, 0, KeyAt(node.members, key), Visit(path + [Key(key)], key, value));
    } else {
      var below := path + [steps[0]];
      assert path + steps + [Key(key)] == below + steps[1..] + [Key(key)];
      var v := Visit(path + steps + [Key(key)], key, value);
      if steps[0].Index? {
        AllVisited(node.items[steps[0].index], below, depth + 1, steps[1..], key);
        WithinItems(node, path, depth, 0, steps[0].index, v);
      } else {
        var i := KeyAt(node.members, steps[0].key);
        AllVisited(node.members[i].value, below, depth + 1, steps[1..], key);
        HoldsMembers(node.members[i].value, steps[1..], key);
        WithinMembers(node, path, depth, 0, i, v);
      }
    }
  }

  lemma VisitsOf(node: Json, path: seq<Segment>, depth: nat)
    ensures depth <= MAX_DEPTH && node.Arr? ==> Visits(node, path, depth) == VisitItems(node, path, depth, 0)
    ensures depth <= MAX_DEPTH && node.Obj? ==> Visits(node, path, depth) == VisitMembers(node, path, depth, 0)
  {}

  lemma HoldsMembers(node: Json, steps: seq<Segment>, key: string)
    requires Concrete(steps) && var at := ReadAt(Some(node), steps); at.Some? && Child(at.value, key).Some?
    ensures node.Arr? || node.Obj?
  {}

  /** A response's text that may be bound and was not sent is indexed, wherever it stands within the depth of the walk. */
  lemma {:induction false} ProductIsIndexed(producers: map<string, Producer>, step: nat, body: Json, sent: set<string>,
                                            eligible: (string, string, string) -> bool, steps: seq<Segment>, key: string, text: string)
    requires Concrete(steps) && |steps| <= MAX_DEPTH
    requires var at := ReadAt(Some(body), steps); at.Some? && Child(at.value, key) == Some(Str(text))
    requires |text| >= 4 && eligible(key, text, PathText(steps + [Key(key)])) && text !in sent
    ensures text in IndexVisits(producers, Visits(body, [], 0), step, sent, eligible)
  {
    hide Visits, IndexVisits, PathText, Concrete;
    var visits := Visits(body, [], 0);
    AllVisited(body, [], 0, steps, key);
    assert [] + steps + [Key(key)] == steps + [Key(key)];
    var v := Visit(steps + [Key(key)], key, Str(text));
    var k :| 0 <= k < |visits| && visits[k] == v;
    ProductsAreIndexed(producers, visits, step, sent, eligible);
  }
}

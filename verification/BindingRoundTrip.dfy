/**
  Replaying a templated request against the responses it was inferred from rebuilds the
  request: exactly when it does, and what the engine reports when it does not.
*/
module BindingRoundTrip {
  import opened Common
  import opened Text
  import opened Json
  import opened FieldPath
  import opened Trajectory
  import opened BindingProducers
  import opened BindingTokens
  import opened BindingTemplates
  import opened BindingMaps
  import opened BindingBack

  // ---- resolving ----

  function ScalarText(value: Json): Option<string> {
    match value
    case Str(text) => Some(text)
    case Num(n) => Some(if n < 0 then "-" + NatText(-n) else NatText(n))
    case Bool(flag) => Some(if flag then "true" else "false")
    case _ => None
  }

  /** What a record reads now, or None when its step has no body or no value is there. */
  function Resolved(b: Binding, ledger: map<nat, Json>): Option<string> {
    if b.fromStep !in ledger then None
    else
      var value := ReadAt(Some(ledger[b.fromStep]), PathSegments(b.from));
      if value.None? then None else ScalarText(value.value)
  }

  predicate Fails(bindings: seq<Binding>, ledger: map<nat, Json>, k: nat) {
    k < |bindings| && Resolved(bindings[k], ledger).None?
  }

  method ResolveBindings(bindings: seq<Binding>, ledger: map<nat, Json>) returns (vars: map<string, string>, problems: seq<nat>)
    ensures vars == Vars(bindings, ledger)
    ensures forall k: nat :: k in problems <==> Fails(bindings, ledger, k)
  {
    hide ReadAt, PathSegments, ScalarText;
    vars, problems := map[], [];
    var i := 0;
    while i < |bindings|
      invariant 0 <= i <= |bindings|
      invariant vars == Vars(bindings[..i], ledger)
      invariant forall k: nat :: k in problems <==> k < i && Fails(bindings, ledger, k)
    {
      var b := bindings[i];
      assert bindings[..i + 1][..i] == bindings[..i];
      if b.fromStep !in ledger {
        problems := problems + [i];
      } else {
        var value := Read(Some(ledger[b.fromStep]), PathSegments(b.from));
        if value.None? || ScalarText(value.value).None? {
          problems := problems + [i];
        } else {
          vars := vars[b.name := ScalarText(value.value).value];
        }
      }
      i := i + 1;
    }
    assert bindings[..i] == bindings;
  }

  function Vars(bindings: seq<Binding>, ledger: map<nat, Json>): map<string, string> {
    if bindings == [] then map[]
    else
      var before, b := Vars(bindings[..|bindings| - 1], ledger), bindings[|bindings| - 1];
      var value := Resolved(b, ledger);
      if value.None? then before else before[b.name := value.value]
  }

  lemma {:induction false} VarsAt(bindings: seq<Binding>, ledger: map<nat, Json>, k: nat)
    requires forall i, j :: 0 <= i < j < |bindings| ==> bindings[i].name != bindings[j].name
    requires k < |bindings| && Resolved(bindings[k], ledger).Some?
    ensures bindings[k].name in Vars(bindings, ledger) && Vars(bindings, ledger)[bindings[k].name] == Resolved(bindings[k], ledger).value
  {
    hide Resolved;
    if k < |bindings| - 1 { VarsAt(bindings[..|bindings| - 1], ledger, k); }
  }

  // ---- the theorem ----

  ghost predicate UntokenedRequest(r: Request) {
    && (r.path.Some? ==> NoOpen(r.path.value))
    && (r.headers.Some? ==> UntokenedHeaders(r.headers.value))
    && (r.body.Some? ==> Untokened(r.body.value))
  }

  /** Every literal is one Allowed; a path that holds a token's opening has a token in one of its slots. */
  ghost predicate AllowedRequest(src: Source, r: Request) {
    && (r.path.Some? ==> AllowedPieces(src, PathPieces(r.path.value)) && (NoOpen(r.path.value) || BindsPath(r.path.value, src.known)))
    && (r.headers.Some? ==> AllowedHeaders(src, r.headers.value))
    && (r.body.Some? ==> AllowedBody(src, r.body.value))
  }

  lemma {:induction false} UntokenedRequestAllowed(src: Source, r: Request)
    requires FromProducersOnly(src) && UntokenedRequest(r)
    ensures AllowedRequest(src, r)
  {
    hide PathPieces, NoOpen, AllowedBody;
    if r.path.Some? {
      PathFramed(r.path.value, true);
      FramedIs(PathPieces(r.path.value));
    }
    if r.body.Some? { UntokenedAllowed(src, r.body.value); }
  }

  /**
    What a caller can look at before replaying: no bound value sits under a response key that begins with a
    digit; nothing is bound in headers that are a secret reference; no bound path has a question mark with
    nothing behind it.
  */
  ghost predicate Replayable(r: Request, producers: map<string, Producer>) {
    && (r.path.Some? && BindsPath(r.path.value, producers) ==>
          ReadablePieces(PathPieces(r.path.value), producers) && !Dangling(r.path.value))
    && (r.headers.Some? ==> HeadersReadable(r.headers.value, producers))
    && (r.body.Some? ==> Readable(r.body.value, producers))
  }

  /** The whole request, rewritten by the names it ends with. */
  function MapRequest(r: Request, producers: map<string, Producer>, names: map<Producer, string>): Request {
    Request(
      if r.path.None? then None
      else
        var parts := MapPieces(PathPieces(r.path.value), producers, names);
        Some(if AnyToken(parts) then Rendered(parts) else r.path.value),
      if r.headers.None? then None
      else if r.headers.value.Obj? then Some(Obj(MapHeaders(r.headers.value.members, producers, names)))
      else r.headers,
      if r.body.None? then None else Some(MapBody(r.body.value, producers, names)))
  }

  ghost predicate CoversRequest(st: Names, producers: map<string, Producer>, r: Request) {
    && (r.path.Some? ==> CoversPieces(st, producers, PathPieces(r.path.value)))
    && (r.headers.Some? && r.headers.value.Obj? ==> CoversHeaders(st, producers, r.headers.value.members))
    && (r.body.Some? ==> Covers(st, producers, r.body.value))
  }

  lemma {:induction false} PiecesStable(a: Names, b: Names, producers: map<string, Producer>, pieces: seq<Piece>)
    requires Extends(a, b) && CoversPieces(a, producers, pieces)
    ensures CoversPieces(b, producers, pieces) && MapPieces(pieces, producers, a.names) == MapPieces(pieces, producers, b.names)
  {
    hide UrlSafe;
    forall i | 0 <= i < |pieces| ensures MapPiece(pieces[i], producers, a.names) == MapPiece(pieces[i], producers, b.names) {}
  }

  function PathStep(r: Request, producers: map<string, Producer>, st: Names): (Names, Option<string>) {
    if r.path.None? then (st, None) else var (s, t) := TemplatePath(st, producers, r.path.value); (s, Some(t))
  }

  function HeadersStep(r: Request, producers: map<string, Producer>, st: Names): (Names, Option<Json>) {
    if r.headers.None? then (st, None) else var (s, h) := TemplateHeaders(st, producers, r.headers.value); (s, Some(h))
  }

  function BodyStep(r: Request, producers: map<string, Producer>, st: Names): (Names, Option<Json>) {
    if r.body.None? then (st, None) else var (s, b) := TemplateBody(st, producers, r.body.value, "body"); (s, Some(b))
  }

  lemma {:induction false} PathStepIs(r: Request, src: Source, st: Names)
    requires Good(st, src.known) && Since(src.byName, st) && (r.path.Some? ==> AllowedPieces(src, PathPieces(r.path.value)))
    ensures var (st', path) := PathStep(r, src.producers, st);
            && Good(st', src.known) && Extends(st, st') && path == MapRequest(r, src.known, st'.names).path
            && (r.path.Some? ==> CoversPieces(st', src.known, PathPieces(r.path.value)))
  {
    hide Good, Extends, BindPieces, PathPieces, CoversPieces, Framed, AnyToken, Rendered, NoOpen, MapBody, MapHeaders;
    SameState(st);
    if r.path.Some? {
      PiecesAreMapped(st, src, PathPieces(r.path.value));
    }
  }

  lemma FramedIs(pieces: seq<Piece>)
    requires Framed(pieces, true)
    ensures UntokenedPieces(pieces) && Separated(pieces)
  {}

  lemma {:induction false} HeadersStepIs(r: Request, src: Source, st: Names)
    requires Good(st, src.known) && Since(src.byName, st) && (r.headers.Some? ==> AllowedHeaders(src, r.headers.value))
    ensures var (st', headers) := HeadersStep(r, src.producers, st);
            && Good(st', src.known) && Extends(st, st') && headers == MapRequest(r, src.known, st'.names).headers
            && (r.headers.Some? && r.headers.value.Obj? ==> CoversHeaders(st', src.known, r.headers.value.members))
  {
    hide Good, Extends, TemplateHeaderMembers, CoversHeaders, Untokened, MapPieces, MapBody, MapHeaders, AnyToken, Rendered;
    SameState(st);
    if r.headers.Some? && r.headers.value.Obj? { HeadersAreMapped(st, src, r.headers.value.members); }
  }

  lemma {:induction false} BodyStepIs(r: Request, src: Source, st: Names)
    requires Good(st, src.known) && Since(src.byName, st) && (r.body.Some? ==> AllowedBody(src, r.body.value))
    ensures var (st', body) := BodyStep(r, src.producers, st);
            && Good(st', src.known) && Extends(st, st') && body == MapRequest(r, src.known, st'.names).body
            && (r.body.Some? ==> Covers(st', src.known, r.body.value))
  {
    hide Good, Extends, TemplateBody, Covers, Untokened, MapPieces, MapBody, MapHeaders, AnyToken, Rendered;
    SameState(st);
    if r.body.Some? { TemplateIsMap(st, src, r.body.value, "body"); }
  }

  lemma NothingKept(st: Names, known: map<string, Producer>)
    requires Consistent(st)
    ensures Good(st.(found := []), known) && Extends(st.(found := []), st.(found := [])) && Since(st.byName, st.(found := []))
  {}

  /** Inference is the map, over the names it ends with, for requests of produced values and reused tokens. */
  lemma {:induction false} InferenceIsMap(r: Request, src: Source, st: Names)
    requires Consistent(st) && src.byName == st.byName && AllowedRequest(src, r) && (|src.producers| > 0 || |src.byName| > 0)
    ensures var (out, end) := InferBindings(r, src.producers, st);
            && Good(end, src.known) && CoversRequest(end, src.known, r)
            && out == (if end.found == [] then r else MapRequest(r, src.known, end.names))
  {
    hide Good, Consistent, Extends, TemplatePath, TemplateHeaders, TemplateBody, CoversPieces, CoversHeaders, Covers, AllowedPieces, AllowedHeaders, AllowedBody, Since,
         NoOpen, BindsPath, MapPieces, MapHeaders, MapBody, PathPieces, AnyToken, Rendered;
    var start := st.(found := []);
    NothingKept(st, src.known);
    PathStepIs(r, src, start);
    var (s1, path) := PathStep(r, src.producers, start);
    SinceLater(src.byName, start, s1);
    HeadersStepIs(r, src, s1);
    var (s2, headers) := HeadersStep(r, src.producers, s1);
    SinceLater(src.byName, s1, s2);
    BodyStepIs(r, src, s2);
    var (s3, body) := BodyStep(r, src.producers, s2);
    ExtendsTransitive(s1, s2, s3);
    if r.path.Some? { PiecesStable(s1, s3, src.known, PathPieces(r.path.value)); }
    if r.headers.Some? && r.headers.value.Obj? { HeadersStable(s2, s3, src.known, r.headers.value.members); }
  }

  /** With nothing known there is nothing to record. */
  lemma {:induction false} NothingKnown(st: Names, known: map<string, Producer>, r: Request)
    requires |known| == 0
    ensures CoversRequest(st, known, r)
  {
    assert known == map[];
    if r.body.Some? { NothingKnownIn(st, r.body.value); }
    if r.headers.Some? && r.headers.value.Obj? {
      var members := r.headers.value.members;
      forall i | 0 <= i < |members| ensures Covers(st, known, members[i].value) { NothingKnownIn(st, members[i].value); }
    }
  }

  lemma {:induction false} NothingKnownIn(st: Names, node: Json)
    ensures Covers(st, map[], node)
    decreases node
  {
    match node
    case Arr(items) => forall i | 0 <= i < |items| ensures Covers(st, map[], items[i]) { NothingKnownIn(st, items[i]); }
    case Obj(members) => forall i | 0 <= i < |members| ensures Covers(st, map[], members[i].value) { NothingKnownIn(st, members[i].value); }
    case _ =>
  }

  lemma {:induction false} NothingFound(st: Names, producers: map<string, Producer>, r: Request)
    requires CoversRequest(st, producers, r) && st.found == []
    ensures Replayable(r, producers)
  {
    hide BoundPiece, PathPieces, DigitFirst;
    forall v | v in producers ensures !Recorded(st, producers, v) {}
    if r.path.Some? { NoPieceBound(st, producers, PathPieces(r.path.value)); }
    if r.body.Some? { NoLeafBound(st, producers, r.body.value); }
    if r.headers.Some? && r.headers.value.Obj? {
      var members := r.headers.value.members;
      forall i | 0 <= i < |members| ensures !BoundHeader(producers, members[i]) {
        if members[i].value.Str? { assert Covers(st, producers, members[i].value); }
      }
    }
  }

  lemma NoPieceBound(st: Names, producers: map<string, Producer>, pieces: seq<Piece>)
    requires CoversPieces(st, producers, pieces) && st.found == []
    ensures forall k :: 0 <= k < |pieces| ==> !BoundPiece(producers, pieces[k])
  {}

  lemma {:induction false} NoLeafBound(st: Names, producers: map<string, Producer>, node: Json)
    requires Covers(st, producers, node) && st.found == []
    ensures Readable(node, producers)
    decreases node
  {
    match node
    case Arr(items) => forall i | 0 <= i < |items| ensures Readable(items[i], producers) { NoLeafBound(st, producers, items[i]); }
    case Obj(members) =>
      if !IsSecretRef(node) {
        forall i | 0 <= i < |members| ensures Readable(members[i].value, producers) { NoLeafBound(st, producers, members[i].value); }
      }
    case _ =>
  }

  /** Resolving the records of an inference against the responses it was made from. */
  lemma {:induction false} ResolvesAll(st: Names, producers: map<string, Producer>, ledger: map<nat, Json>)
    requires Good(st, producers) && Faithful(producers, ledger)
    ensures forall k :: 0 <= k < |st.found| ==> Resolved(st.found[k], ledger).Some?
    ensures Supplies(st, producers, Vars(st.found, ledger))
  {
    hide Paired, NamedAfter, ReadAt, PathSegments;
    forall k | 0 <= k < |st.found| ensures Resolved(st.found[k], ledger).Some? {
      var p := Producer(st.found[k].fromStep, st.found[k].from);
      assert IsProducer(producers, p);
      var v :| v in producers && producers[v] == p;
      assert ReadsValue(ledger, producers[v], v);
    }
    forall v | v in producers && Recorded(st, producers, v)
      ensures var name := st.names[producers[v]]; name in Vars(st.found, ledger) && Vars(st.found, ledger)[name] == v
    {
      var name := st.names[producers[v]];
      var k := FoundAt(st.found, name);
      assert Cites(st, st.found[k]);
      PairedAt(st, producers[v]);
      assert ReadsValue(ledger, producers[v], v);
      VarsAt(st.found, ledger, k);
    }
  }

  lemma PairedAt(st: Names, p: Producer)
    requires Paired(st.names, st.byName) && p in st.names
    ensures st.names[p] in st.byName && st.byName[st.names[p]] == p
  {}

  /**
    Infer bindings from responses, resolve them against the same responses and apply them: every binding
    resolves, nothing is reported missing or unfit, and the path, headers and body are the original ones
    exactly when the request is Replayable. When it is not, a request goes out changed without a report.
  */
  lemma {:induction false} RoundTrip(r: Request, producers: map<string, Producer>, st: Names, ledger: map<nat, Json>)
    requires Consistent(st) && Faithful(producers, ledger) && UntokenedRequest(r)
    ensures var (out, end) := InferBindings(r, producers, st);
            && (forall k :: 0 <= k < |end.found| ==> Resolved(end.found[k], ledger).Some?)
            && var back := ApplyBindings(out, Vars(end.found, ledger));
               && back.missing == [] && back.unfit == []
               && (back.request == r <==> Replayable(r, producers))
  {
    hide MapRequest, Vars, Resolved, CoversRequest, Good, Consistent, UntokenedRequest, Replayable, TemplatePath, TemplateHeaders, TemplateBody;
    var (out, end) := InferBindings(r, producers, st);
    var src := Source(producers, st.byName, producers);
    if |producers| == 0 && |st.byName| == 0 {
      NothingKept(st, src.known);
      NothingKnown(end, producers, r);
    } else {
      UntokenedRequestAllowed(src, r);
      InferenceIsMap(r, src, st);
    }
    ResolvesAll(end, producers, ledger);
    GoodNames(end, producers);
    if end.found == [] {
      NothingFound(end, producers, r);
      PlainRequestBack(r, Vars(end.found, ledger));
    } else {
      RequestBack(end, producers, r, Vars(end.found, ledger));
    }
  }

  lemma GoodNames(st: Names, producers: map<string, Producer>)
    requires Good(st, producers)
    ensures WellNamed(st)
  {}

  lemma {:induction false} PlainRequestBack(r: Request, vars: map<string, string>)
    requires UntokenedRequest(r)
    ensures ApplyBindings(r, vars) == Applied(r, [], [])
  {
    hide Substitute, Deep, MissingIn, NoOpen;
    if r.path.Some? { NothingToSubstitute(r.path.value, vars, true); }
    if r.headers.Some? { PlainHeadersBack(r.headers.value, vars); }
    if r.body.Some? { PlainBack(r.body.value, vars); }
  }

  lemma {:induction false} PlainHeadersBack(headers: Json, vars: map<string, string>)
    requires UntokenedHeaders(headers)
    ensures Deep(headers, vars) == headers && MissingIn(headers, vars) == []
  {
    assert Untokened(headers);
    PlainBack(headers, vars);
  }

  lemma {:induction false} RequestBack(st: Names, producers: map<string, Producer>, r: Request, vars: map<string, string>)
    requires WellNamed(st) && Supplies(st, producers, vars) && CoversRequest(st, producers, r) && UntokenedRequest(r)
    ensures var back := ApplyBindings(MapRequest(r, producers, st.names), vars);
            && back.missing == [] && back.unfit == [] && (back.request == r <==> Replayable(r, producers))
  {
    hide WellNamed, Supplies, Substitute, Deep, MissingIn, NoOpen, MapPieces, MapHeaders, MapBody, PathPieces, AnyToken, Rendered,
         BindsPath, ReadablePieces, Dangling, Readable, HeadersReadable, Untokened, UntokenedHeaders, Covers, CoversHeaders, CoversPieces;
    if r.path.Some? { PathBack(st, producers, r.path.value, vars); }
    if r.headers.Some? {
      if r.headers.value.Obj? {
        HeadersBack(st, producers, r.headers.value, vars);
      } else {
        PlainHeadersBack(r.headers.value, vars);
        OddHeadersReadable(r.headers.value, producers);
      }
    }
    if r.body.Some? { BodyBack(st, producers, r.body.value, vars); }
  }

  lemma OddHeadersReadable(headers: Json, producers: map<string, Producer>)
    requires !headers.Obj?
    ensures HeadersReadable(headers, producers)
  {}

  // ---- the two ways a request changes ----

  lemma FreshNames()
    ensures Consistent(Names(map[], map[], []))
  {}

  /** A value under a key such as `2fa_token` is bound to a name the token pattern does not accept: the token itself is sent. */
  lemma {:induction false} DigitKeyIsSentLiterally(key: string, v: string)
    requires key != "" && Legible([Key(key)]) && IsDigit(key[0]) && key[|key| - 1] != ']' && NoOpen(v)
    ensures var producers, ledger := map[v := Producer(1, "$." + key)], map[1 := Obj([Member(key, Str(v))])];
            var r := Request(None, None, Some(Str(v)));
            var (out, end) := InferBindings(r, producers, Names(map[], map[], []));
            var back := ApplyBindings(out, Vars(end.found, ledger));
            Faithful(producers, ledger) && back.missing == [] && back.unfit == [] && back.request != r
  {
    hide InferBindings, ApplyBindings, Vars, PathSegments, ReadAt, Leaf, NoOpen, Consistent;
    var producers, ledger := map[v := Producer(1, "$." + key)], map[1 := Obj([Member(key, Str(v))])];
    PathOfKey(key);
    ReadsMember(ledger[1], key);
    LeafOfKey(key);
    FreshNames();
    assert DigitFirst(producers[v]) && !Readable(Str(v), producers);
    RoundTrip(Request(None, None, Some(Str(v))), producers, Names(map[], map[], []), ledger);
  }

  lemma {:induction false} PlainText(t: string)
    requires '{' !in t
    ensures NoOpen(t)
  {
    assert forall k :: 0 <= k < |t| ==> t[k] != '{';
  }

  lemma {:induction false} PathOfKey(key: string)
    requires Legible([Key(key)])
    ensures PathSegments("$." + key) == [Key(key)]
  {
    hide PathSegments, Legible;
    PathReadsBack([Key(key)]);
    OneStep(Key(key));
    assert "$" + ("." + key) == "$." + key;
  }

  lemma {:induction false} ReadsMember(node: Json, key: string)
    requires node.Obj? && |node.members| == 1 && node.members[0].key == key
    ensures ReadAt(Some(node), [Key(key)]) == Some(node.members[0].value)
  {
    assert [Key(key)][1..] == [];
  }

  lemma {:induction false} LeafOfKey(key: string)
    requires Legible([Key(key)]) && key != "" && key[|key| - 1] != ']'
    ensures Leaf("$." + key) == key
  {
    hide Split;
    assert Carried([Key(key)], 0) && '.' !in "$";
    SplitOfJoin(["$", key], '.');
    assert ["$", key][1..] == [key];
    assert Join(["$", key], '.') == "$" + ['.'] + key == "$." + key;
  }

  /** A question mark with nothing behind it is dropped once a segment of the path is bound. */
  lemma {:induction false} EmptyQueryIsDropped(r: Request, producers: map<string, Producer>, st: Names, ledger: map<nat, Json>, id: string)
    requires Consistent(st) && Faithful(producers, ledger) && id in producers && UrlSafe(id)
    requires r == Request(Some(id + "?"), None, None)
    ensures var (out, end) := InferBindings(r, producers, st);
            var back := ApplyBindings(out, Vars(end.found, ledger));
            back.missing == [] && back.unfit == [] && back.request != r
  {
    hide InferBindings, ApplyBindings, Vars, Consistent, Faithful, DigitFirst;
    var raw := id + "?";
    forall k | 0 <= k < |id| ensures id[k] != '#' && id[k] != '?' && id[k] != '/' && id[k] != '{' { assert IsUrlSafeChar(id[k]); }
    PlainText(raw);
    NoneOf(raw, '#');
    IndexOfSkips(id, "?", '?');
    assert Pathname(raw) == id && Query(raw) == "";
    NoneOf(id, '/');
    assert Split(id, '/') == [id];
    assert PathPieces(raw)[0] == Slot(id, "path");
    assert BindsPath(raw, producers);
    RoundTrip(r, producers, st, ledger);
  }

  lemma {:induction false} NoneOf(s: string, c: char)
    requires c !in s
    ensures IndexOf(s, c) == |s|
  {
    IndexOfSkips(s, [], c);
    assert s + [] == s;
  }
}

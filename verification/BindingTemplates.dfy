/**
  Rewriting a request's literals into tokens: naming producers, binding a literal, and the
  path, header and body rewriting that decides which literals are looked at.
*/
module BindingTemplates {
  import opened Common
  import opened Text
  import opened Json
  import opened Trajectory
  import opened BindingProducers
  import opened BindingTokens

  // ---- names ----

  predicate IsUpper(c: char) {
    'A' <= c <= 'Z'
  }

  predicate IsLowerOrDigit(c: char) {
    'a' <= c <= 'z' || IsDigit(c)
  }

  function Lower(c: char): char {
    if IsUpper(c) then ((c as int) + 32) as char else c
  }

  /** camelCase as snake_case. */
  function Snake(s: string): string {
    if s == [] then []
    else
      var n := |s|;
      Snake(s[..n - 1]) + (if n > 1 && IsLowerOrDigit(s[n - 2]) && IsUpper(s[n - 1]) then "_" else "") + [Lower(s[n - 1])]
  }

  /** How many digits a text ends in. */
  function DigitTail(t: string): (k: nat)
    ensures k <= |t|
  {
    if t != [] && IsDigit(t[|t| - 1]) then 1 + DigitTail(t[..|t| - 1]) else 0
  }

  /** The text without one closing index step. */
  function DropIndex(t: string): string {
    if t == [] || t[|t| - 1] != ']' then t
    else
      var d := DigitTail(t[..|t| - 1]);
      if d > 0 && |t| >= d + 2 && t[|t| - d - 2] == '[' then t[..|t| - d - 2] else t
  }

  /** The response key a producer's path ends in. */
  function Leaf(path: string): string {
    var pieces := Split(path, '.');
    DropIndex(pieces[|pieces| - 1])
  }

  function Sanitize(s: string): (r: string)
    ensures |r| == |s|
  {
    seq(|s|, i requires 0 <= i < |s| => if IsLowerOrDigit(s[i]) || s[i] == '_' then s[i] else '_')
  }

  function Base(p: Producer): string {
    var leaf := Snake(Leaf(p.path));
    Sanitize(if leaf == [] then "value" else leaf) + "_" + NatText(p.step)
  }

  /** A producer whose response key begins with a digit. */
  predicate DigitFirst(p: Producer) {
    Leaf(p.path) != [] && IsDigit(Leaf(p.path)[0])
  }

  function Candidate(base: string, n: nat): string {
    if n <= 1 then base else base + "_" + NatText(n)
  }

  lemma {:induction false} SnakeFirst(s: string)
    ensures s == [] <==> Snake(s) == []
    ensures s != [] ==> (IsDigit(Snake(s)[0]) <==> IsDigit(s[0]))
  {
    if |s| > 1 { SnakeFirst(s[..|s| - 1]); }
    if |s| == 1 { assert Snake(s[..0]) == []; }
  }

  /** A name is made of name characters, and is an identifier exactly when the response key begins with no digit. */
  lemma {:induction false} NameShape(p: Producer, n: nat)
    ensures var name := Candidate(Base(p), n); name != [] && AllNameChars(name) && (IsIdentifier(name) <==> !DigitFirst(p))
  {
    SnakeFirst(Leaf(p.path));
    hide Snake, Leaf;
    var leaf := Snake(Leaf(p.path));
    var body := Sanitize(if leaf == [] then "value" else leaf);
    assert forall k :: 0 <= k < |body| ==> IsNameChar(body[k]);
    assert forall c :: IsDigit(c) ==> IsNameChar(c);
    var name := Candidate(Base(p), n);
    assert name[0] == body[0];
  }

  lemma {:induction false} CandidatesDiffer(base: string, m: nat, n: nat)
    requires 1 <= m < n
    ensures Candidate(base, m) != Candidate(base, n)
  {
    if m > 1 && Candidate(base, m) == Candidate(base, n) {
      assert Candidate(base, m)[|base| + 1..] == NatText(m) && Candidate(base, n)[|base| + 1..] == NatText(n);
      NatReadsBack(m);
      NatReadsBack(n);
    }
  }

  function Candidates(base: string, n: nat): (r: set<string>)
    ensures forall m :: 1 <= m <= n ==> Candidate(base, m) in r
    ensures forall x :: x in r ==> exists m :: 1 <= m <= n && Candidate(base, m) == x
  {
    if n == 0 then {} else Candidates(base, n - 1) + {Candidate(base, n)}
  }

  lemma {:induction false} CandidatesCount(base: string, n: nat)
    ensures |Candidates(base, n)| == n
  {
    if n > 0 {
      CandidatesCount(base, n - 1);
      forall m | 1 <= m < n ensures Candidate(base, m) != Candidate(base, n) { CandidatesDiffer(base, m, n); }
    }
  }

  lemma {:induction false} SubsetSize<T>(a: set<T>, b: set<T>)
    requires a <= b
    ensures |a| <= |b|
    decreases |a|
  {
    if a != {} {
      var x :| x in a;
      SubsetSize(a - {x}, b - {x});
    }
  }

  /** Only so many candidates can be taken. */
  lemma {:induction false} TakenFit(base: string, byName: map<string, Producer>, n: nat)
    requires forall m :: 1 <= m <= n ==> Candidate(base, m) in byName
    ensures n <= |byName|
  {
    CandidatesCount(base, n);
    assert Candidates(base, n) <= byName.Keys by {
      forall x | x in Candidates(base, n) ensures x in byName.Keys {}
    }
    SubsetSize(Candidates(base, n), byName.Keys);
  }

  /** The first candidate number from n on that is not taken. */
  function FreshNumber(base: string, byName: map<string, Producer>, n: nat): (r: nat)
    requires n >= 1 && forall m :: 1 <= m < n ==> Candidate(base, m) in byName
    ensures r >= 1 && Candidate(base, r) !in byName
    decreases |byName| + 1 - n
  {
    if Candidate(base, n) !in byName then n
    else
      TakenFit(base, byName, n);
      FreshNumber(base, byName, n + 1)
  }

  // ---- the state a trajectory carries from step to step ----

  /** The names assigned so far, both ways, and the records of the current action. */
  datatype Names = Names(names: map<Producer, string>, byName: map<string, Producer>, found: seq<Binding>)

  /** Names and producers correspond one to one. */
  ghost predicate Paired(names: map<Producer, string>, byName: map<string, Producer>) {
    && (forall p :: p in names ==> names[p] in byName && byName[names[p]] == p)
    && (forall x :: x in byName ==> byName[x] in names && names[byName[x]] == x)
  }

  ghost predicate NamedAfter(name: string, p: Producer) {
    exists n :: n >= 1 && name == Candidate(Base(p), n)
  }

  ghost predicate DifferentNames(found: seq<Binding>) {
    forall i, j :: 0 <= i < j < |found| ==> found[i].name != found[j].name
  }

  /** Every name is its producer's, and every record is of a named producer. */
  ghost predicate Consistent(st: Names) {
    && Paired(st.names, st.byName)
    && (forall p :: p in st.names ==> NamedAfter(st.names[p], p))
    && DifferentNames(st.found)
    && (forall i :: 0 <= i < |st.found| ==> Cites(st, st.found[i]))
  }

  predicate Cites(st: Names, b: Binding) {
    b.name in st.byName && st.byName[b.name] == Producer(b.fromStep, b.from)
  }

  function NameFor(st: Names, p: Producer): (Names, string) {
    if p in st.names then (st, st.names[p])
    else
      var name := Candidate(Base(p), FreshNumber(Base(p), st.byName, 1));
      (st.(names := st.names[p := name], byName := st.byName[name := p]), name)
  }

  function FoundAt(found: seq<Binding>, name: string): (k: nat)
    ensures k <= |found|
    ensures k < |found| ==> found[k].name == name
    ensures forall j :: 0 <= j < k ==> found[j].name != name
  {
    if found == [] || found[0].name == name then 0 else 1 + FoundAt(found[1..], name)
  }

  /** Record one more site a name goes into; a name keeps its first record. */
  function AddSite(found: seq<Binding>, name: string, p: Producer, into: string): seq<Binding> {
    var k := FoundAt(found, name);
    if k == |found| then found + [Binding(name, p.step, p.path, [into])]
    else if into in found[k].into then found
    else found[k := found[k].(into := found[k].into + [into])]
  }

  /** The name of a token that is the whole text. */
  function WholeToken(t: string): Option<string> {
    var token := TokenAt(t);
    if token.Some? && token.value.length == |t| then Some(token.value.name) else None
  }

  /** Bind one literal: the name whose token takes its place, or None when it stays as it is. */
  function Bind(st: Names, producers: map<string, Producer>, value: string, into: string, urlSafe: bool): (Names, Option<string>) {
    var reused := WholeToken(value);
    if reused.Some? then
      if reused.value !in st.byName then (st, None)
      else
        var p := st.byName[reused.value];
        (st.(found := AddSite(st.found, reused.value, p, into)), reused)
    else if value !in producers || (urlSafe && !UrlSafe(value)) then (st, None)
    else
      var (named, name) := NameFor(st, producers[value]);
      (named.(found := AddSite(named.found, name, producers[value], into)), Some(name))
  }

  // ---- the request path ----

  datatype Piece = Sep(c: char) | Lit(text: string) | Slot(text: string, into: string)

  function PieceText(p: Piece): string {
    if p.Sep? then [p.c] else p.text
  }

  function Texts(pieces: seq<Piece>): string {
    if pieces == [] then "" else PieceText(pieces[0]) + Texts(pieces[1..])
  }

  function SegmentPieces(segs: seq<string>): seq<Piece> {
    if segs == [] then []
    else if |segs| == 1 then [Slot(segs[0], "path")]
    else [Slot(segs[0], "path"), Sep('/')] + SegmentPieces(segs[1..])
  }

  function PairPiece(pair: string): seq<Piece> {
    var eq := IndexOf(pair, '=');
    if eq == |pair| then [Lit(pair)]
    else [Lit(pair[..eq]), Sep('='), Slot(pair[eq + 1..], "query." + pair[..eq])]
  }

  function PairPieces(pairs: seq<string>): seq<Piece> {
    if pairs == [] then []
    else if |pairs| == 1 then PairPiece(pairs[0])
    else PairPiece(pairs[0]) + [Sep('&')] + PairPieces(pairs[1..])
  }

  function Head(raw: string): string {
    raw[..IndexOf(raw, '#')]
  }

  function Pathname(raw: string): string {
    Head(raw)[..IndexOf(Head(raw), '?')]
  }

  function Query(raw: string): string {
    var q := IndexOf(Head(raw), '?');
    if q == |Head(raw)| then "" else Head(raw)[q + 1..]
  }

  /** A question mark with no query behind it. */
  predicate Dangling(raw: string) {
    IndexOf(Head(raw), '?') < |Head(raw)| && Query(raw) == ""
  }

  /** The path taken apart: whole segments and whole query values are slots. */
  function PathPieces(raw: string): seq<Piece> {
    SegmentPieces(Split(Pathname(raw), '/'))
    + (if Query(raw) == "" then [] else [Sep('?')] + PairPieces(Split(Query(raw), '&')))
    + (if |Head(raw)| == |raw| then [] else [Sep('#'), Lit(raw[|Head(raw)| + 1..])])
  }

  /** What a piece becomes: itself, or a token in place of its text. */
  datatype Part = Plain(piece: Piece) | Tok(name: string, text: string)

  function PartText(p: Part): string {
    if p.Plain? then PieceText(p.piece) else TokenText(p.name)
  }

  function Rendered(parts: seq<Part>): string {
    if parts == [] then "" else PartText(parts[0]) + Rendered(parts[1..])
  }

  predicate AnyToken(parts: seq<Part>) {
    exists k :: 0 <= k < |parts| && parts[k].Tok?
  }

  function BindPiece(st: Names, producers: map<string, Producer>, piece: Piece): (Names, Part) {
    if !piece.Slot? || piece.text == [] then (st, Plain(piece))
    else
      var (st', name) := Bind(st, producers, piece.text, piece.into, true);
      (st', if name.None? then Plain(piece) else Tok(name.value, piece.text))
  }

  function BindPieces(st: Names, producers: map<string, Producer>, pieces: seq<Piece>): (Names, seq<Part>)
    decreases |pieces|
  {
    if pieces == [] then (st, [])
    else
      var (st', part) := BindPiece(st, producers, pieces[0]);
      var (st'', parts) := BindPieces(st', producers, pieces[1..]);
      (st'', [part] + parts)
  }

  function TemplatePath(st: Names, producers: map<string, Producer>, raw: string): (Names, string) {
    var (st', parts) := BindPieces(st, producers, PathPieces(raw));
    (st', if AnyToken(parts) then Rendered(parts) else raw)
  }

  // ---- headers and body ----

  predicate IsSecretRef(node: Json) {
    var k := if node.Obj? then KeyAt(node.members, "$secret") else 0;
    node.Obj? && k < |node.members| && node.members[k].value.Str?
  }

  function BindText(st: Names, producers: map<string, Producer>, value: string, into: string): (Names, string) {
    var (st', name) := Bind(st, producers, value, into, false);
    (st', if name.None? then value else TokenText(name.value))
  }

  function TemplateHeaders(st: Names, producers: map<string, Producer>, headers: Json): (Names, Json) {
    if !headers.Obj? then (st, headers)
    else
      var (st', members) := TemplateHeaderMembers(st, producers, headers.members);
      (st', Obj(members))
  }

  function TemplateHeaderMembers(st: Names, producers: map<string, Producer>, members: seq<Member>): (Names, seq<Member>)
    decreases |members|
  {
    if members == [] then (st, [])
    else
      var m := members[0];
      if m.value.Str? then
        var (st', text) := BindText(st, producers, m.value.text, "headers." + m.key);
        var (st'', rest) := TemplateHeaderMembers(st', producers, members[1..]);
        (st'', [Member(m.key, Str(text))] + rest)
      else
        var (st', rest) := TemplateHeaderMembers(st, producers, members[1..]);
        (st', [m] + rest)
  }

  function TemplateBody(st: Names, producers: map<string, Producer>, node: Json, path: string): (Names, Json)
    decreases node, if node.Arr? then |node.items| + 1 else if node.Obj? then |node.members| + 1 else 0
  {
    match node
    case Str(text) =>
      var (st', out) := BindText(st, producers, text, path);
      (st', Str(out))
    case Arr(_) =>
      var (st', items) := TemplateItems(st, producers, node, path, 0);
      (st', Arr(items))
    case Obj(_) =>
      if IsSecretRef(node) then (st, node)
      else
        var (st', members) := TemplateMembers(st, producers, node, path, 0);
        (st', Obj(members))
    case _ => (st, node)
  }

  function TemplateItems(st: Names, producers: map<string, Producer>, node: Json, path: string, i: nat): (Names, seq<Json>)
    requires node.Arr? && i <= |node.items|
    decreases node, |node.items| - i
  {
    if i == |node.items| then (st, [])
    else
      var (st', item) := TemplateBody(st, producers, node.items[i], path + "[" + NatText(i) + "]");
      var (st'', rest) := TemplateItems(st', producers, node, path, i + 1);
      (st'', [item] + rest)
  }

  function TemplateMembers(st: Names, producers: map<string, Producer>, node: Json, path: string, i: nat): (Names, seq<Member>)
    requires node.Obj? && i <= |node.members|
    decreases node, |node.members| - i
  {
    if i == |node.members| then (st, [])
    else
      var m := node.members[i];
      var (st', value) := TemplateBody(st, producers, m.value, path + "." + m.key);
      var (st'', rest) := TemplateMembers(st', producers, node, path, i + 1);
      (st'', [Member(m.key, value)] + rest)
  }

  // ---- the action ----

  /** A request; a part that is absent, or a path that is no text, is None. */
  datatype Request = Request(path: Option<string>, headers: Option<Json>, body: Option<Json>)

  /** The templated request, the records its envelope keeps, and the names for the steps to come. */
  function InferBindings(request: Request, producers: map<string, Producer>, st: Names): (Request, Names) {
    if |producers| == 0 && |st.byName| == 0 then (request, st.(found := []))
    else
      var (s1, path) := if request.path.None? then (st.(found := []), None)
                        else var (s, t) := TemplatePath(st.(found := []), producers, request.path.value); (s, Some(t));
      var (s2, headers) := if request.headers.None? then (s1, None)
                           else var (s, h) := TemplateHeaders(s1, producers, request.headers.value); (s, Some(h));
      var (s3, body) := if request.body.None? then (s2, None)
                        else var (s, b) := TemplateBody(s2, producers, request.body.value, "body"); (s, Some(b));
      if s3.found == [] then (request, s3) else (Request(path, headers, body), s3)
  }

  // ---- substitution ----

  function Deep(node: Json, vars: map<string, string>): Json
    decreases node
  {
    match node
    case Str(text) => if NoOpen(text) then node else Str(Substitute(text, vars, false).text)
    case Arr(items) => Arr(seq(|items|, i requires 0 <= i < |items| => Deep(items[i], vars)))
    case Obj(members) =>
      if IsSecretRef(node) then node
      else Obj(seq(|members|, i requires 0 <= i < |members| => Member(members[i].key, Deep(members[i].value, vars))))
    case _ => node
  }

  /** The names a document uses that have no value, in order. */
  function MissingIn(node: Json, vars: map<string, string>): seq<string>
    decreases node, if node.Arr? then |node.items| + 1 else if node.Obj? then |node.members| + 1 else 0
  {
    match node
    case Str(text) => if NoOpen(text) then [] else Substitute(text, vars, false).missing
    case Arr(_) => MissingInItems(node, vars, 0)
    case Obj(_) => if IsSecretRef(node) then [] else MissingInMembers(node, vars, 0)
    case _ => []
  }

  function MissingInItems(node: Json, vars: map<string, string>, i: nat): seq<string>
    requires node.Arr? && i <= |node.items|
    decreases node, |node.items| - i
  {
    if i == |node.items| then [] else MissingIn(node.items[i], vars) + MissingInItems(node, vars, i + 1)
  }

  function MissingInMembers(node: Json, vars: map<string, string>, i: nat): seq<string>
    requires node.Obj? && i <= |node.members|
    decreases node, |node.members| - i
  {
    if i == |node.members| then [] else MissingIn(node.members[i].value, vars) + MissingInMembers(node, vars, i + 1)
  }

  datatype Applied = Applied(request: Request, missing: seq<string>, unfit: seq<string>)

  /** Substitute through the path, headers and body, reporting every problem. */
  function ApplyBindings(request: Request, vars: map<string, string>): Applied {
    var path := if request.path.None? then Scan("", [], []) else Substitute(request.path.value, vars, true);
    Applied(
      Request(
        if request.path.None? then None else Some(path.text),
        if request.headers.None? then None else Some(Deep(request.headers.value, vars)),
        if request.body.None? then None else Some(Deep(request.body.value, vars))),
      path.missing + (if request.headers.None? then [] else MissingIn(request.headers.value, vars))
      + (if request.body.None? then [] else MissingIn(request.body.value, vars)),
      path.unfit)
  }
}

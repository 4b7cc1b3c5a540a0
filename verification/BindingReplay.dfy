/**
  A templated request is a program over its responses: replayed with whatever values the fresh
  responses hold, it sends those values exactly where the recorded ones stood, and nothing else
  about the request changes.
*/
module BindingReplay {
  import opened Common
  import opened Json
  import opened Trajectory
  import opened BindingProducers
  import opened BindingTokens
  import opened BindingTemplates
  import opened BindingMaps
  import opened BindingBack
  import opened BindingRoundTrip

  /** The value now standing for a bound literal. */
  function Fresh(v: string, producers: map<string, Producer>, names: map<Producer, string>, vars: map<string, string>): string {
    if v in producers && producers[v] in names && names[producers[v]] in vars then vars[names[producers[v]]] else v
  }

  function RefillBody(node: Json, producers: map<string, Producer>, names: map<Producer, string>, vars: map<string, string>): Json
    decreases node
  {
    match node
    case Str(text) => Str(Fresh(text, producers, names, vars))
    case Arr(items) => Arr(seq(|items|, i requires 0 <= i < |items| => RefillBody(items[i], producers, names, vars)))
    case Obj(members) =>
      if IsSecretRef(node) then node
      else Obj(seq(|members|, i requires 0 <= i < |members| => Member(members[i].key, RefillBody(members[i].value, producers, names, vars))))
    case _ => node
  }

  function RefillHeaders(members: seq<Member>, producers: map<string, Producer>, names: map<Producer, string>, vars: map<string, string>)
    : (r: seq<Member>)
    ensures |r| == |members|
  {
    seq(|members|, i requires 0 <= i < |members| =>
      if members[i].value.Str? then Member(members[i].key, Str(Fresh(members[i].value.text, producers, names, vars))) else members[i])
  }

  /** The text of the pieces with fresh values in the bound slots. */
  function RefillPieces(pieces: seq<Piece>, producers: map<string, Producer>, names: map<Producer, string>, vars: map<string, string>): string {
    if pieces == [] then ""
    else
      (if BoundPiece(producers, pieces[0]) then Fresh(pieces[0].text, producers, names, vars) else PieceText(pieces[0]))
      + RefillPieces(pieces[1..], producers, names, vars)
  }

  /** Every recorded producer's name has a value now. */
  ghost predicate Valued(st: Names, producers: map<string, Producer>, vars: map<string, string>) {
    forall v :: v in producers && Recorded(st, producers, v) ==> st.names[producers[v]] in vars
  }

  lemma {:induction false} TokenReplays(st: Names, producers: map<string, Producer>, v: string, vars: map<string, string>)
    requires WellNamed(st) && Valued(st, producers, vars) && v in producers && Recorded(st, producers, v) && !DigitFirst(producers[v])
    ensures var s := Substitute(TokenText(st.names[producers[v]]), vars, false);
            s.missing == [] && s.text == Fresh(v, producers, st.names, vars)
  {
    hide WellNamed, DigitFirst, AllNameChars, IsIdentifier, Substitute;
    var name := st.names[producers[v]];
    NameOf(st, producers[v]);
    SkipToken(name, [], vars, false);
    NothingToSubstitute([], vars, false);
    assert TokenText(name) + [] == TokenText(name) && vars[name] + [] == vars[name];
  }

  /** The body sends the fresh values, and nothing is missing. */
  lemma {:induction false} BodyReplays(st: Names, src: Source, node: Json, vars: map<string, string>)
    requires WellNamed(st) && Valued(st, src.known, vars) && Covers(st, src.known, node) && AllowedBody(src, node) && Readable(node, src.known)
    ensures var out := MapBody(node, src.known, st.names);
            Deep(out, vars) == RefillBody(node, src.known, st.names, vars) && MissingIn(out, vars) == []
    decreases node
  {
    hide WellNamed, Valued, DigitFirst, Substitute;
    match node
    case Str(text) =>
      if text in src.known {
        TokenReplays(st, src.known, text, vars);
        TokenIsNoValue(st.names[src.known[text]]);
      }
    case Arr(items) => ItemsReplay(st, src, node, vars);
    case Obj(members) => if !IsSecretRef(node) { MembersReplay(st, src, node, vars); }
    case _ =>
  }

  lemma {:induction false} ItemsReplay(st: Names, src: Source, node: Json, vars: map<string, string>)
    requires node.Arr? && WellNamed(st) && Valued(st, src.known, vars)
    requires Covers(st, src.known, node) && AllowedBody(src, node) && Readable(node, src.known)
    ensures var out := MapBody(node, src.known, st.names);
            Deep(out, vars) == RefillBody(node, src.known, st.names, vars) && MissingIn(out, vars) == []
    decreases node, 0
  {
    hide WellNamed, Valued, DigitFirst, Substitute;
    var out := MapBody(node, src.known, st.names);
    forall i | 0 <= i < |node.items|
      ensures Deep(out.items[i], vars) == RefillBody(node.items[i], src.known, st.names, vars) && MissingIn(out.items[i], vars) == []
    {
      BodyReplays(st, src, node.items[i], vars);
    }
    NoneMissingInItems(out, vars, 0);
    assert Deep(out, vars).items == RefillBody(node, src.known, st.names, vars).items;
  }

  lemma {:induction false} MembersReplay(st: Names, src: Source, node: Json, vars: map<string, string>)
    requires node.Obj? && !IsSecretRef(node) && WellNamed(st) && Valued(st, src.known, vars)
    requires Covers(st, src.known, node) && AllowedBody(src, node) && Readable(node, src.known)
    ensures var out := MapBody(node, src.known, st.names);
            Deep(out, vars) == RefillBody(node, src.known, st.names, vars) && MissingIn(out, vars) == []
    decreases node, 0
  {
    hide WellNamed, Valued, DigitFirst, Substitute, IsSecretRef;
    var out := MapBody(node, src.known, st.names);
    MembersAlike(node, src.known, st.names);
    forall i | 0 <= i < |node.members|
      ensures Deep(out.members[i].value, vars) == RefillBody(node.members[i].value, src.known, st.names, vars)
      ensures MissingIn(out.members[i].value, vars) == []
    {
      BodyReplays(st, src, node.members[i].value, vars);
    }
    NoneMissingInMembers(out, vars, 0);
    assert Deep(out, vars).members == RefillBody(node, src.known, st.names, vars).members;
  }

  lemma {:induction false} OneHeaderReplays(st: Names, src: Source, m: Member, vars: map<string, string>)
    requires WellNamed(st) && Valued(st, src.known, vars) && (if m.value.Str? then Allowed(src, m.value.text) else Untokened(m.value)) && (m.value.Str? ==> Covers(st, src.known, m.value))
    requires BoundHeader(src.known, m) ==> !DigitFirst(src.known[m.value.text])
    ensures var mapped := MapHeaders([m], src.known, st.names)[0];
            && MissingIn(mapped.value, vars) == [] && mapped.key == m.key && (mapped.value.Str? <==> m.value.Str?)
            && Member(m.key, Deep(mapped.value, vars)) == RefillHeaders([m], src.known, st.names, vars)[0]
  {
    hide WellNamed, Valued, DigitFirst, Substitute;
    if m.value.Str? {
      BodyReplays(st, src, m.value, vars);
    } else {
      PlainBack(m.value, vars);
    }
  }

  lemma {:induction false} HeadersReplay(st: Names, src: Source, headers: Json, vars: map<string, string>)
    requires WellNamed(st) && Valued(st, src.known, vars) && headers.Obj? && !IsSecretRef(headers) && AllowedHeaders(src, headers)
    requires CoversHeaders(st, src.known, headers.members) && HeadersReadable(headers, src.known)
    ensures var out := Obj(MapHeaders(headers.members, src.known, st.names));
            Deep(out, vars) == Obj(RefillHeaders(headers.members, src.known, st.names, vars)) && MissingIn(out, vars) == []
  {
    hide WellNamed, Valued, DigitFirst, Substitute, IsSecretRef;
    var members, mapped := headers.members, MapHeaders(headers.members, src.known, st.names);
    var out, refilled := Obj(mapped), RefillHeaders(headers.members, src.known, st.names, vars);
    forall i | 0 <= i < |members|
      ensures MissingIn(mapped[i].value, vars) == [] && mapped[i].key == members[i].key
      ensures mapped[i].value.Str? <==> members[i].value.Str?
      ensures Member(members[i].key, Deep(mapped[i].value, vars)) == refilled[i]
    {
      OneHeaderReplays(st, src, members[i], vars);
    }
    StillNoSecret(members, mapped, "");
    NoneMissingInMembers(out, vars, 0);
    assert Deep(out, vars).members == refilled;
  }

  lemma {:induction false} PiecesReplay(st: Names, producers: map<string, Producer>, pieces: seq<Piece>, vars: map<string, string>)
    requires WellNamed(st) && Valued(st, producers, vars) && CoversPieces(st, producers, pieces) && ReadablePieces(pieces, producers)
    ensures Backs(MapPieces(pieces, producers, st.names), vars) == RefillPieces(pieces, producers, st.names, vars)
  {
    hide WellNamed, AllNameChars, IsIdentifier, UrlSafe, DigitFirst;
    if pieces != [] {
      var parts := MapPieces(pieces, producers, st.names);
      assert parts[1..] == MapPieces(pieces[1..], producers, st.names);
      ReadableSplits(pieces, producers);
      PiecesReplay(st, producers, pieces[1..], vars);
      if BoundPiece(producers, pieces[0]) { NameOf(st, producers[pieces[0].text]); }
    }
  }

  /** Every fresh value that goes into the path is fit for a URL. */
  predicate FitPath(pieces: seq<Piece>, producers: map<string, Producer>, names: map<Producer, string>, vars: map<string, string>) {
    forall i :: 0 <= i < |pieces| && BoundPiece(producers, pieces[i]) ==> UrlSafe(Fresh(pieces[i].text, producers, names, vars))
  }

  lemma {:induction false} FreshPartsReady(st: Names, src: Source, pieces: seq<Piece>, vars: map<string, string>)
    requires WellNamed(st) && Valued(st, src.known, vars) && CoversPieces(st, src.known, pieces)
    requires Separated(pieces) && AllowedPieces(src, pieces) && FitPath(pieces, src.known, st.names, vars)
    ensures ReadyParts(MapPieces(pieces, src.known, st.names), vars)
  {
    hide WellNamed, UrlSafe, NoOpen, AllNameChars, IsIdentifier, DigitFirst;
    var parts := MapPieces(pieces, src.known, st.names);
    forall i | 0 <= i < |parts| ensures ReadyPart(parts[i], vars) && (IsSepPart(parts[i]) <==> pieces[i].Sep?) {
      if parts[i].Tok? { NameOf(st, src.known[pieces[i].text]); }
    }
  }

  lemma {:induction false} PathReplays(st: Names, src: Source, raw: string, vars: map<string, string>)
    requires WellNamed(st) && Valued(st, src.known, vars) && CoversPieces(st, src.known, PathPieces(raw))
    requires AllowedPieces(src, PathPieces(raw)) && (NoOpen(raw) || BindsPath(raw, src.known))
    requires ReadablePieces(PathPieces(raw), src.known) && FitPath(PathPieces(raw), src.known, st.names, vars)
    ensures var parts := MapPieces(PathPieces(raw), src.known, st.names);
            Substitute(if AnyToken(parts) then Rendered(parts) else raw, vars, true)
            == Scan(if BindsPath(raw, src.known) then RefillPieces(PathPieces(raw), src.known, st.names, vars) else raw, [], [])
  {
    hide WellNamed, Valued, Substitute, NoOpen, PathPieces, Rendered, Backs, ReadablePieces, BoundPiece, ReadyParts, FitPath, RefillPieces;
    var pieces := PathPieces(raw);
    var parts := MapPieces(pieces, src.known, st.names);
    TokensAreBound(st, src.known, pieces);
    if AnyToken(parts) {
      PathFramed(raw, false);
      FreshPartsReady(st, src, pieces, vars);
      PartsBack(parts, vars);
      PiecesReplay(st, src.known, pieces, vars);
    } else {
      NothingToSubstitute(raw, vars, true);
    }
  }

  /** The request with fresh values where the recorded ones were bound. */
  function Refilled(r: Request, producers: map<string, Producer>, names: map<Producer, string>, vars: map<string, string>): Request {
    Request(
      if r.path.None? then None
      else Some(if BindsPath(r.path.value, producers) then RefillPieces(PathPieces(r.path.value), producers, names, vars) else r.path.value),
      if r.headers.None? then None
      else if r.headers.value.Obj? && !IsSecretRef(r.headers.value) then Some(Obj(RefillHeaders(r.headers.value.members, producers, names, vars)))
      else r.headers,
      if r.body.None? then None else Some(RefillBody(r.body.value, producers, names, vars)))
  }

  lemma {:induction false} NothingBoundInSecret(producers: map<string, Producer>, names: map<Producer, string>, headers: Json)
    requires headers.Obj? && IsSecretRef(headers) && HeadersReadable(headers, producers)
    ensures MapHeaders(headers.members, producers, names) == headers.members
  {
    hide DigitFirst, IsSecretRef;
  }

  lemma {:induction false} NothingToRefill(st: Names, producers: map<string, Producer>, r: Request, vars: map<string, string>)
    requires CoversRequest(st, producers, r) && st.found == []
    ensures Refilled(r, producers, st.names, vars) == r
  {
    forall v | v in producers ensures !Recorded(st, producers, v) {}
    if r.path.Some? { NoPieceBound(st, producers, PathPieces(r.path.value)); }
    if r.body.Some? { SameBody(st, producers, r.body.value, vars); }
    if r.headers.Some? && r.headers.value.Obj? {
      var members := r.headers.value.members;
      forall i | 0 <= i < |members| && members[i].value.Str? ensures members[i].value.text !in producers {
        assert Covers(st, producers, members[i].value);
      }
      assert RefillHeaders(members, producers, st.names, vars) == members;
    }
  }

  lemma {:induction false} SameBody(st: Names, producers: map<string, Producer>, node: Json, vars: map<string, string>)
    requires Covers(st, producers, node) && st.found == []
    ensures RefillBody(node, producers, st.names, vars) == node
    decreases node
  {
    match node
    case Arr(items) =>
      forall i | 0 <= i < |items| ensures RefillBody(items[i], producers, st.names, vars) == items[i] { SameBody(st, producers, items[i], vars); }
      assert RefillBody(node, producers, st.names, vars).items == items;
    case Obj(members) =>
      if !IsSecretRef(node) {
        forall i | 0 <= i < |members| ensures RefillBody(members[i].value, producers, st.names, vars) == members[i].value {
          SameBody(st, producers, members[i].value, vars);
        }
        assert RefillBody(node, producers, st.names, vars).members == members;
      }
    case _ =>
  }

  // ---- the literals of a request ----

  /** What a literal stands for: a produced value for itself, a whole token for the producer its name was given to. */
  function Stands(producers: map<string, Producer>, byName: map<string, Producer>, v: string): Option<Producer> {
    if NoOpen(v) then if v in producers then Some(producers[v]) else None
    else
      var token := WholeToken(v);
      if token.Some? && token.value in byName then Some(byName[token.value]) else None
  }

  function Leaves(node: Json): set<string>
    decreases node
  {
    match node
    case Str(text) => {text}
    case Arr(items) => set i, s | 0 <= i < |items| && s in Leaves(items[i]) :: s
    case Obj(members) => set i, s | 0 <= i < |members| && s in Leaves(members[i].value) :: s
    case _ => {}
  }

  function SlotTexts(pieces: seq<Piece>): set<string> {
    set i | 0 <= i < |pieces| && pieces[i].Slot? :: pieces[i].text
  }

  function Literals(r: Request): set<string> {
    (if r.path.Some? then SlotTexts(PathPieces(r.path.value)) else {})
    + (if r.headers.Some? then Leaves(r.headers.value) else {}) + (if r.body.Some? then Leaves(r.body.value) else {})
  }

  function SourceOf(r: Request, producers: map<string, Producer>, byName: map<string, Producer>): Source {
    Source(producers, byName,
           map v | v in producers.Keys + Literals(r) && Stands(producers, byName, v).Some? :: Stands(producers, byName, v).value)
  }

  /** A literal without a token's opening, or one whole token of a name assigned before. */
  predicate PlainOrReused(v: string, byName: map<string, Producer>) {
    NoOpen(v) || (WholeToken(v).Some? && WholeToken(v).value in byName)
  }

  predicate ReusesBody(node: Json, byName: map<string, Producer>)
    decreases node
  {
    match node
    case Str(text) => PlainOrReused(text, byName)
    case Arr(items) => forall i :: 0 <= i < |items| ==> ReusesBody(items[i], byName)
    case Obj(members) => IsSecretRef(node) || forall i :: 0 <= i < |members| ==> ReusesBody(members[i].value, byName)
    case _ => true
  }

  /** Every token the request already carries is a whole literal, of a name assigned before. */
  predicate ReusesOnly(r: Request, byName: map<string, Producer>) {
    && (r.path.Some? ==>
          var pieces := PathPieces(r.path.value);
          && (forall i :: 0 <= i < |pieces| && !pieces[i].Sep? ==>
                if pieces[i].Slot? then PlainOrReused(pieces[i].text, byName) else NoOpen(pieces[i].text))
          && (NoOpen(r.path.value) || exists i :: 0 <= i < |pieces| && pieces[i].Slot? && !NoOpen(pieces[i].text)))
    && (r.headers.Some? ==>
          if r.headers.value.Obj? then
            forall i :: 0 <= i < |r.headers.value.members| ==>
              var value := r.headers.value.members[i].value;
              if value.Str? then PlainOrReused(value.text, byName) else Untokened(value)
          else Untokened(r.headers.value))
    && (r.body.Some? ==> ReusesBody(r.body.value, byName))
  }

  lemma LiteralAllowed(r: Request, producers: map<string, Producer>, byName: map<string, Producer>, v: string)
    requires PlainOrReused(v, byName) && v in Literals(r)
    ensures Allowed(SourceOf(r, producers, byName), v)
  {}

  lemma {:induction false} BodyAllowed(r: Request, producers: map<string, Producer>, byName: map<string, Producer>, node: Json)
    requires ReusesBody(node, byName) && Leaves(node) <= Literals(r)
    ensures AllowedBody(SourceOf(r, producers, byName), node)
    decreases node
  {
    hide PlainOrReused, Literals, SourceOf, Allowed;
    match node
    case Str(text) => LiteralAllowed(r, producers, byName, text);
    case Arr(items) =>
      forall i | 0 <= i < |items| ensures AllowedBody(SourceOf(r, producers, byName), items[i]) {
        assert Leaves(items[i]) <= Leaves(node);
        BodyAllowed(r, producers, byName, items[i]);
      }
    case Obj(members) =>
      if !IsSecretRef(node) {
        forall i | 0 <= i < |members| ensures AllowedBody(SourceOf(r, producers, byName), members[i].value) {
          assert Leaves(members[i].value) <= Leaves(node);
          BodyAllowed(r, producers, byName, members[i].value);
        }
      }
    case _ =>
  }

  lemma {:induction false} RequestAllowed(r: Request, producers: map<string, Producer>, byName: map<string, Producer>)
    requires ReusesOnly(r, byName)
    ensures AllowedRequest(SourceOf(r, producers, byName), r)
  {
    hide PlainOrReused, Allowed, NoOpen, PathPieces, Untokened, AllowedBody, ReusesBody, Stands;
    var src := SourceOf(r, producers, byName);
    if r.path.Some? { PathAllowed(r, producers, byName); }
    if r.headers.Some? && r.headers.value.Obj? {
      var members := r.headers.value.members;
      forall i | 0 <= i < |members| && members[i].value.Str? ensures Allowed(src, members[i].value.text) {
        assert members[i].value.text in Leaves(members[i].value) && members[i].value.text in Leaves(r.headers.value);
        LiteralAllowed(r, producers, byName, members[i].value.text);
      }
    }
    if r.body.Some? { BodyAllowed(r, producers, byName, r.body.value); }
  }

  lemma {:induction false} PathAllowed(r: Request, producers: map<string, Producer>, byName: map<string, Producer>)
    requires ReusesOnly(r, byName) && r.path.Some?
    ensures var src, raw := SourceOf(r, producers, byName), r.path.value;
            AllowedPieces(src, PathPieces(raw)) && (NoOpen(raw) || BindsPath(raw, src.known))
  {
    hide NoOpen, PathPieces, Untokened, ReusesBody, Stands, Leaves, WholeToken, SourceOf;
    var src, pieces := SourceOf(r, producers, byName), PathPieces(r.path.value);
    PathFramed(r.path.value, false);
    forall i | 0 <= i < |pieces| && pieces[i].Slot?
      ensures Allowed(src, pieces[i].text) && (!NoOpen(pieces[i].text) ==> BoundPiece(src.known, pieces[i]))
    {
      assert pieces[i].text in Literals(r);
      LiteralAllowed(r, producers, byName, pieces[i].text);
      NothingOpen();
    }
  }

  lemma NothingOpen()
    ensures NoOpen("")
  {}

  // ---- the theorem ----

  /**
    Replay against any responses in which every record resolves: the request that goes out is the recorded one
    with each bound literal, and each token it reused, replaced by the value its producer's path holds now, and no
    problem is reported.
  */
  lemma {:induction false} ReplaySendsFreshValues(r: Request, producers: map<string, Producer>, st: Names, ledger: map<nat, Json>)
    requires Consistent(st) && ReusesOnly(r, st.byName)
    requires var known, end := SourceOf(r, producers, st.byName).known, InferBindings(r, producers, st).1;
             && Replayable(r, known)
             && (forall k :: 0 <= k < |end.found| ==> Resolved(end.found[k], ledger).Some?)
             && (r.path.Some? ==> FitPath(PathPieces(r.path.value), known, end.names, Vars(end.found, ledger)))
    ensures var known := SourceOf(r, producers, st.byName).known;
            var (out, end) := InferBindings(r, producers, st);
            && ApplyBindings(out, Vars(end.found, ledger)) == Applied(Refilled(r, known, end.names, Vars(end.found, ledger)), [], [])
            && CoversRequest(end, known, r)
            && forall v :: v in known && Recorded(end, known, v) ==>
                 && ReadsNow(ledger, known[v]).Some?
                 && Fresh(v, known, end.names, Vars(end.found, ledger)) == ReadsNow(ledger, known[v]).value
  {
    hide MapRequest, Vars, Resolved, CoversRequest, Good, Consistent, AllowedRequest, ReusesOnly, Replayable, Refilled, FitPath, ReadsNow,
         TemplatePath, TemplateHeaders, TemplateBody, Literals, Stands;
    var src := SourceOf(r, producers, st.byName);
    var (out, end) := InferBindings(r, producers, st);
    var vars := Vars(end.found, ledger);
    RequestAllowed(r, producers, st.byName);
    if |producers| == 0 && |st.byName| == 0 {
      NothingKept(st, src.known);
      NothingStands(r, producers, st.byName);
      NothingKnown(end, src.known, r);
    } else {
      InferenceIsMap(r, src, st);
    }
    FreshReads(end, src.known, ledger);
    GoodNames(end, src.known);
    if end.found == [] {
      NothingToRefill(end, src.known, r, vars);
      NothingReused(end, src, r);
      PlainRequestBack(r, vars);
    } else {
      RequestReplays(end, src, r, vars);
    }
  }

  lemma {:induction false} NothingStands(r: Request, producers: map<string, Producer>, byName: map<string, Producer>)
    requires |producers| == 0 && |byName| == 0
    ensures |SourceOf(r, producers, byName).known| == 0
  {
    assert producers == map[] && byName == map[];
    assert SourceOf(r, producers, byName).known == map[];
  }

  /** A token reused is recorded, so with nothing recorded the request carries none. */
  lemma {:induction false} NothingReused(st: Names, src: Source, r: Request)
    requires AllowedRequest(src, r) && CoversRequest(st, src.known, r) && st.found == []
    ensures UntokenedRequest(r)
  {
    hide NoOpen, PathPieces, WholeToken, BoundPiece;
    forall v | v in src.known ensures !Recorded(st, src.known, v) {}
    if r.path.Some? { NoPieceBound(st, src.known, PathPieces(r.path.value)); }
    if r.headers.Some? && r.headers.value.Obj? {
      var members := r.headers.value.members;
      forall i | 0 <= i < |members| ensures Untokened(members[i].value) {
        if members[i].value.Str? { assert Covers(st, src.known, members[i].value); }
      }
    }
    if r.body.Some? { NothingReusedIn(st, src, r.body.value); }
  }

  lemma {:induction false} NothingReusedIn(st: Names, src: Source, node: Json)
    requires AllowedBody(src, node) && Covers(st, src.known, node) && st.found == []
    ensures Untokened(node)
    decreases node
  {
    hide NoOpen, WholeToken;
    match node
    case Arr(items) => forall i | 0 <= i < |items| ensures Untokened(items[i]) { NothingReusedIn(st, src, items[i]); }
    case Obj(members) =>
      if !IsSecretRef(node) {
        forall i | 0 <= i < |members| ensures Untokened(members[i].value) { NothingReusedIn(st, src, members[i].value); }
      }
    case _ =>
  }

  /** What a producer's path holds in these responses. */
  function ReadsNow(ledger: map<nat, Json>, p: Producer): Option<string> {
    Resolved(Binding("", p.step, p.path, []), ledger)
  }

  lemma {:induction false} FreshReads(st: Names, producers: map<string, Producer>, ledger: map<nat, Json>)
    requires Good(st, producers) && forall k :: 0 <= k < |st.found| ==> Resolved(st.found[k], ledger).Some?
    ensures Valued(st, producers, Vars(st.found, ledger))
    ensures forall v :: v in producers && Recorded(st, producers, v) ==>
              && ReadsNow(ledger, producers[v]).Some?
              && Fresh(v, producers, st.names, Vars(st.found, ledger)) == ReadsNow(ledger, producers[v]).value
  {
    hide Paired, NamedAfter, FieldPath.PathSegments, ReadAt, ScalarText;
    forall v | v in producers && Recorded(st, producers, v)
      ensures var name := st.names[producers[v]];
              && name in Vars(st.found, ledger) && ReadsNow(ledger, producers[v]).Some?
              && Vars(st.found, ledger)[name] == ReadsNow(ledger, producers[v]).value
    {
      var name := st.names[producers[v]];
      var k := FoundAt(st.found, name);
      assert Cites(st, st.found[k]);
      PairedAt(st, producers[v]);
      VarsAt(st.found, ledger, k);
    }
  }

  lemma {:induction false} RequestReplays(st: Names, src: Source, r: Request, vars: map<string, string>)
    requires WellNamed(st) && Valued(st, src.known, vars) && CoversRequest(st, src.known, r) && AllowedRequest(src, r) && Replayable(r, src.known)
    requires r.path.Some? ==> FitPath(PathPieces(r.path.value), src.known, st.names, vars)
    ensures ApplyBindings(MapRequest(r, src.known, st.names), vars) == Applied(Refilled(r, src.known, st.names, vars), [], [])
  {
    hide WellNamed, Valued, Substitute, Deep, MissingIn, NoOpen, MapPieces, MapHeaders, MapBody, PathPieces, AnyToken, Rendered,
         BindsPath, ReadablePieces, Dangling, Readable, HeadersReadable, Untokened, UntokenedHeaders, Covers, CoversHeaders, CoversPieces,
         FitPath, RefillPieces, RefillHeaders, RefillBody, IsSecretRef;
    if r.path.Some? {
      if BindsPath(r.path.value, src.known) {
        PathReplays(st, src, r.path.value, vars);
      } else {
        UnboundPath(st, src, r.path.value, vars);
      }
    }
    if r.headers.Some? {
      if !r.headers.value.Obj? {
        PlainHeadersBack(r.headers.value, vars);
      } else if IsSecretRef(r.headers.value) {
        NothingBoundInSecret(src.known, st.names, r.headers.value);
        SecretStays(r.headers.value, vars);
      } else {
        HeadersReplay(st, src, r.headers.value, vars);
      }
    }
    if r.body.Some? { BodyReplays(st, src, r.body.value, vars); }
  }

  lemma SecretStays(headers: Json, vars: map<string, string>)
    requires headers.Obj? && IsSecretRef(headers)
    ensures Deep(headers, vars) == headers && MissingIn(headers, vars) == []
  {}

  lemma {:induction false} UnboundPath(st: Names, src: Source, raw: string, vars: map<string, string>)
    requires !BindsPath(raw, src.known) && CoversPieces(st, src.known, PathPieces(raw)) && NoOpen(raw)
    ensures var parts := MapPieces(PathPieces(raw), src.known, st.names);
            Substitute(if AnyToken(parts) then Rendered(parts) else raw, vars, true) == Scan(raw, [], [])
  {
    hide Substitute, NoOpen, PathPieces, BoundPiece;
    TokensAreBound(st, src.known, PathPieces(raw));
    NothingToSubstitute(raw, vars, true);
  }
}

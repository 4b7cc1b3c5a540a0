/**
  Deep resolution of `$ref`s across a finite set of documents: it ends whatever the documents
  say and however large the node budget is, leaves no reference behind, and reports a cycle
  exactly when the reference graph has one.
*/
module OpenApiRefs {
  import opened Common
  import opened Text
  import opened Json

  /** A reference's target: a document and a JSON pointer into it. */
  datatype Target = Target(doc: string, pointer: string)

  datatype Error = TooManyNodes | OffMachine | EscapesRoot | Unreadable | NotAPointer | NothingThere

  /** The documents that can be read; how a file part is located from a document; and the node budget. */
  datatype Context = Context(
    docs: map<string, Json>, locate: (string, string) -> Option<string>, isNetwork: string -> bool, decode: string -> string, maxNodes: nat)

  // ---- JSON pointers ----

  /** Replace every `~1` by a slash. */
  function SlashBack(s: string): string
    decreases |s|
  {
    if |s| >= 2 && s[0] == '~' && s[1] == '1' then "/" + SlashBack(s[2..])
    else if s == [] then [] else [s[0]] + SlashBack(s[1..])
  }

  /** Replace every `~0` by a tilde. */
  function TildeBack(s: string): string
    decreases |s|
  {
    if |s| >= 2 && s[0] == '~' && s[1] == '0' then "~" + TildeBack(s[2..])
    else if s == [] then [] else [s[0]] + TildeBack(s[1..])
  }

  function Unescape(s: string): string {
    TildeBack(SlashBack(s))
  }

  /** A key as RFC 6901 writes it in a pointer. */
  function Escape(key: string): string {
    if key == [] then []
    else (if key[0] == '~' then "~0" else if key[0] == '/' then "~1" else [key[0]]) + Escape(key[1..])
  }

  function TildesOnly(key: string): string {
    if key == [] then [] else (if key[0] == '~' then "~0" else [key[0]]) + TildesOnly(key[1..])
  }

  lemma {:induction false} SlashesComeBack(key: string)
    ensures SlashBack(Escape(key)) == TildesOnly(key)
  {
    if key != [] {
      SlashesComeBack(key[1..]);
      var rest := Escape(key[1..]);
      if key[0] == '~' {
        assert Escape(key) == ['~'] + (['0'] + rest);
        assert Escape(key)[1..] == ['0'] + rest && (['0'] + rest)[1..] == rest;
        assert SlashBack(['0'] + rest) == ['0'] + SlashBack(rest);
      } else if key[0] == '/' {
        assert Escape(key)[2..] == rest;
      } else {
        assert Escape(key)[1..] == rest;
      }
    }
  }

  lemma {:induction false} TildesComeBack(key: string)
    ensures TildeBack(TildesOnly(key)) == key
  {
    if key != [] {
      TildesComeBack(key[1..]);
      var rest := TildesOnly(key[1..]);
      if key[0] == '~' {
        assert TildesOnly(key)[2..] == rest;
      } else {
        assert TildesOnly(key)[1..] == rest;
      }
    }
  }

  lemma {:induction false} EscapeIsClean(key: string)
    ensures '/' !in Escape(key)
  {
    if key != [] { EscapeIsClean(key[1..]); }
  }

  /** The node one pointer segment selects: a member, or an element by its position. */
  function Step(node: Json, segment: string): (r: Option<Json>)
    ensures r.Some? ==> r.value < node
  {
    match node
    case Obj(members) => Child(node, segment)
    case Arr(items) => ElementNamed(node, segment, 0)
    case _ => None
  }

  function ElementNamed(node: Json, segment: string, i: nat): (r: Option<Json>)
    requires node.Arr? && i <= |node.items|
    ensures r.Some? ==> r.value < node
    decreases |node.items| - i
  {
    if i == |node.items| then None
    else if NatText(i) == segment then Some(node.items[i])
    else ElementNamed(node, segment, i + 1)
  }

  function Follow(node: Json, segments: seq<string>, decode: string -> string): Option<Json> {
    if segments == [] then Some(node)
    else
      var next := Step(node, Unescape(decode(segments[0])));
      if next.None? then None else Follow(next.value, segments[1..], decode)
  }

  function PointerInto(doc: Json, pointer: string, decode: string -> string): Result<Json, Error> {
    if pointer == "" || pointer == "/" then Ok(doc)
    else if pointer[0] != '/' then Err(NotAPointer)
    else
      var found := Follow(doc, Split(pointer[1..], '/'), decode);
      if found.None? then Err(NothingThere) else Ok(found.value)
  }

  method ReadPointer(doc: Json, pointer: string, decode: string -> string) returns (r: Result<Json, Error>)
    ensures r == PointerInto(doc, pointer, decode)
  {
    if pointer == "" || pointer == "/" { return Ok(doc); }
    if pointer[0] != '/' { return Err(NotAPointer); }
    var segments, cur, i := Split(pointer[1..], '/'), doc, 0;
    while i < |segments|
      invariant 0 <= i <= |segments|
      invariant Follow(doc, segments, decode) == Follow(cur, segments[i..], decode)
    {
      var next := Step(cur, Unescape(decode(segments[i])));
      if next.None? { return Err(NothingThere); }
      cur := next.value;
      assert segments[i..][1..] == segments[i + 1..];
      i := i + 1;
    }
    r := Ok(cur);
  }

  /** The pointer to a member chain. */
  function PointerText(keys: seq<string>): string {
    if keys == [] then "" else "/" + Join(seq(|keys|, i requires 0 <= i < |keys| => Escape(keys[i])), '/')
  }

  function FollowKeys(node: Json, keys: seq<string>): Option<Json> {
    if keys == [] then Some(node)
    else
      var next := Step(node, keys[0]);
      if next.None? then None else FollowKeys(next.value, keys[1..])
  }

  function Escaped(keys: seq<string>): (r: seq<string>)
    ensures |r| == |keys|
  {
    seq(|keys|, i requires 0 <= i < |keys| => Escape(keys[i]))
  }

  lemma {:induction false} FollowEscaped(node: Json, keys: seq<string>, decode: string -> string)
    requires forall k :: k in keys ==> decode(Escape(k)) == Escape(k)
    ensures Follow(node, Escaped(keys), decode) == FollowKeys(node, keys)
    decreases |keys|
  {
    if keys != [] {
      SlashesComeBack(keys[0]);
      TildesComeBack(keys[0]);
      assert Unescape(decode(Escaped(keys)[0])) == keys[0];
      var next := Step(node, keys[0]);
      if next.Some? {
        assert Escaped(keys)[1..] == Escaped(keys[1..]);
        FollowEscaped(next.value, keys[1..], decode);
      }
    }
  }

  /** Keys with slashes and tildes are found through the pointer that escapes them; a single empty key is not, it reads as the whole document. */
  lemma {:induction false} PointerReadsBack(doc: Json, keys: seq<string>, decode: string -> string)
    requires forall k :: k in keys ==> decode(Escape(k)) == Escape(k)
    requires keys != [""]
    ensures PointerInto(doc, PointerText(keys), decode) ==
            if FollowKeys(doc, keys).None? then Err(NothingThere) else Ok(FollowKeys(doc, keys).value)
  {
    hide Follow, FollowKeys, Split, Unescape;
    if keys == [] {
      NoKeys(doc);
    } else {
      var parts := Escaped(keys);
      forall i | 0 <= i < |parts| ensures '/' !in parts[i] { EscapeIsClean(keys[i]); }
      SplitOfJoin(parts, '/');
      assert PointerText(keys)[1..] == Join(parts, '/');
      FollowEscaped(doc, keys, decode);
      NotBareSlash(keys);
    }
  }

  lemma NoKeys(doc: Json)
    ensures FollowKeys(doc, []) == Some(doc)
  {}

  lemma {:induction false} NotBareSlash(keys: seq<string>)
    requires keys != [] && keys != [""]
    ensures PointerText(keys) != "/"
  {
    assert |keys| == 1 ==> keys[0] != "" && Escape(keys[0]) != "";
  }

  lemma {:induction false} EmptyKeyReadsDocument(doc: Json, decode: string -> string)
    ensures PointerInto(doc, PointerText([""]), decode) == Ok(doc)
  {
    assert PointerText([""]) == "/" + Join([""], '/');
  }

  // ---- references ----

  function PointerOf(ref: string): string {
    var hash := IndexOf(ref, '#');
    if hash == |ref| then "" else ref[hash + 1..]
  }

  function FileOf(ref: string): string {
    ref[..IndexOf(ref, '#')]
  }

  function RefTarget(ctx: Context, docPath: string, ref: string): Result<Target, Error> {
    if ctx.isNetwork(ref) then Err(OffMachine)
    else if FileOf(ref) == "" then Ok(Target(docPath, PointerOf(ref)))
    else
      var file := ctx.locate(docPath, FileOf(ref));
      if file.None? then Err(EscapesRoot)
      else if file.value !in ctx.docs then Err(Unreadable)
      else Ok(Target(file.value, PointerOf(ref)))
  }

  /** The reference an object is, if its `$ref` is a string. */
  function RefOf(node: Json): Option<string> {
    var r := Child(node, "$ref");
    if r.Some? && r.value.Str? then Some(r.value.text) else None
  }

  function RefsIn(node: Json): set<string>
    decreases node
  {
    match node
    case Arr(items) => set i, r | 0 <= i < |items| && r in RefsIn(items[i]) :: r
    case Obj(members) =>
      (if RefOf(node).Some? then {RefOf(node).value} else {}) + (set i, r | 0 <= i < |members| && r in RefsIn(members[i].value) :: r)
    case _ => {}
  }

  function AllRefs(ctx: Context): set<string> {
    set d, r | d in ctx.docs && r in RefsIn(ctx.docs[d]) :: r
  }

  /** Every target any reference of any document can have. */
  function Universe(ctx: Context): set<Target> {
    set d, r | d in ctx.docs && r in AllRefs(ctx) :: Target(d, PointerOf(r))
  }

  lemma {:induction false} StepRefs(node: Json, segment: string)
    ensures Step(node, segment).Some? ==> RefsIn(Step(node, segment).value) <= RefsIn(node)
  {
    if node.Arr? { ElementRefs(node, segment, 0); }
  }

  lemma {:induction false} ElementRefs(node: Json, segment: string, i: nat)
    requires node.Arr? && i <= |node.items|
    ensures ElementNamed(node, segment, i).Some? ==> RefsIn(ElementNamed(node, segment, i).value) <= RefsIn(node)
    decreases |node.items| - i
  {
    if i < |node.items| && NatText(i) != segment { ElementRefs(node, segment, i + 1); }
  }

  lemma {:induction false} FollowRefs(node: Json, segments: seq<string>, decode: string -> string)
    ensures Follow(node, segments, decode).Some? ==> RefsIn(Follow(node, segments, decode).value) <= RefsIn(node)
    decreases |segments|
  {
    if segments != [] {
      var next := Step(node, Unescape(decode(segments[0])));
      StepRefs(node, Unescape(decode(segments[0])));
      if next.Some? { FollowRefs(next.value, segments[1..], decode); }
    }
  }

  /** The node a target stands for. */
  function Lookup(ctx: Context, t: Target): (r: Result<Json, Error>)
    requires t.doc in ctx.docs
    ensures r.Ok? ==> RefsIn(r.value) <= AllRefs(ctx)
  {
    var r := PointerInto(ctx.docs[t.doc], t.pointer, ctx.decode);
    if t.pointer != "" && t.pointer != "/" && t.pointer[0] == '/' then
      FollowRefs(ctx.docs[t.doc], Split(t.pointer[1..], '/'), ctx.decode);
      r
    else r
  }

  lemma TargetInUniverse(ctx: Context, docPath: string, ref: string)
    requires docPath in ctx.docs && ref in AllRefs(ctx)
    ensures var t := RefTarget(ctx, docPath, ref); t.Ok? ==> t.value.doc in ctx.docs && t.value in Universe(ctx)
  {}

  lemma {:induction false} StackGrows(universe: set<Target>, stack: set<Target>, t: Target)
    requires t in universe && t !in stack
    ensures |universe - (stack + {t})| < |universe - stack|
  {
    assert universe - stack == (universe - (stack + {t})) + {t};
  }

  // ---- resolution ----

  /** What resolving a part gives: its value, the nodes counted so far, and the cycles met in it; or the failure that ended everything. */
  datatype Outcome<T> = Done(value: T, n: nat, cycles: seq<Target>) | Failed(error: Error)

  /** Set a member, in place or at the end. */
  function SetMember(members: seq<Member>, key: string, value: Json): seq<Member> {
    var k := KeyAt(members, key);
    if k < |members| then members[k := Member(key, value)] else members + [Member(key, value)]
  }

  ghost predicate InReach(ctx: Context, docPath: string, node: Json, stack: set<Target>) {
    docPath in ctx.docs && RefsIn(node) <= AllRefs(ctx) && stack <= Universe(ctx)
  }

  function Resolve(ctx: Context, docPath: string, node: Json, stack: set<Target>, n: nat): Outcome<Json>
    requires InReach(ctx, docPath, node, stack)
    decreases |Universe(ctx) - stack|, node, 2
  {
    if n > ctx.maxNodes then Failed(TooManyNodes)
    else
      match node
      case Arr(items) =>
        var r := ResolveItems(ctx, docPath, node, stack, n + 1, 0);
        if r.Failed? then Failed(r.error) else Done(Arr(r.value), r.n, r.cycles)
      case Obj(members) =>
        if RefOf(node).Some? then ResolveRef(ctx, docPath, node, stack, n + 1)
        else
          var r := ResolveMembers(ctx, docPath, node, stack, n + 1, 0, []);
          if r.Failed? then Failed(r.error) else Done(Obj(r.value), r.n, r.cycles)
      case _ => Done(node, n + 1, [])
  }

  function ResolveRef(ctx: Context, docPath: string, node: Json, stack: set<Target>, n: nat): Outcome<Json>
    requires InReach(ctx, docPath, node, stack) && node.Obj? && RefOf(node).Some?
    decreases |Universe(ctx) - stack|, node, 1
  {
    var ref := RefOf(node).value;
    var t := RefTarget(ctx, docPath, ref);
    TargetInUniverse(ctx, docPath, ref);
    if t.Err? then Failed(t.error)
    else if t.value in stack then Done(Obj([Member("$ref_cycle", Str(ref))]), n, [t.value])
    else
      var target := Lookup(ctx, t.value);
      if target.Err? then Failed(target.error)
      else
        StackGrows(Universe(ctx), stack, t.value);
        var expanded := Resolve(ctx, t.value.doc, target.value, stack + {t.value}, n);
        if expanded.Failed? || !expanded.value.Obj? then expanded
        else
          var out := ResolveMembers(ctx, docPath, node, stack, expanded.n, 0, expanded.value.members);
          if out.Failed? then Failed(out.error) else Done(Obj(out.value), out.n, expanded.cycles + out.cycles)
  }

  function ResolveItems(ctx: Context, docPath: string, node: Json, stack: set<Target>, n: nat, i: nat): Outcome<seq<Json>>
    requires InReach(ctx, docPath, node, stack) && node.Arr? && i <= |node.items|
    decreases |Universe(ctx) - stack|, node, 0, |node.items| - i
  {
    if i == |node.items| then Done([], n, [])
    else
      var item := Resolve(ctx, docPath, node.items[i], stack, n);
      if item.Failed? then Failed(item.error)
      else
        var rest := ResolveItems(ctx, docPath, node, stack, item.n, i + 1);
        if rest.Failed? then Failed(rest.error) else Done([item.value] + rest.value, rest.n, item.cycles + rest.cycles)
  }

  /** Resolve the members from i on into `into`; a string `$ref` is not one of them. */
  function ResolveMembers(ctx: Context, docPath: string, node: Json, stack: set<Target>, n: nat, i: nat, into: seq<Member>): Outcome<seq<Member>>
    requires InReach(ctx, docPath, node, stack) && node.Obj? && i <= |node.members|
    decreases |Universe(ctx) - stack|, node, 0, |node.members| - i
  {
    if i == |node.members| then Done(into, n, [])
    else
      var m := node.members[i];
      if m.key == "$ref" && RefOf(node).Some? then ResolveMembers(ctx, docPath, node, stack, n, i + 1, into)
      else
        var value := Resolve(ctx, docPath, m.value, stack, n);
        if value.Failed? then Failed(value.error)
        else
          var rest := ResolveMembers(ctx, docPath, node, stack, value.n, i + 1, SetMember(into, m.key, value.value));
          if rest.Failed? then Failed(rest.error) else Done(rest.value, rest.n, value.cycles + rest.cycles)
  }
}

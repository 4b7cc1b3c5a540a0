/**
  What resolution guarantees: no reference is left, a cycle is reported exactly when the
  reference graph has one, and the node budget changes nothing but where it gives up.
*/
module OpenApiTheorems {
  import opened Common
  import opened Text
  import opened Json
  import opened OpenApiRefs

  // ---- no reference is left ----

  /** Every member named `$ref` is a string. */
  predicate StringRefs(node: Json)
    decreases node
  {
    match node
    case Arr(items) => forall i :: 0 <= i < |items| ==> StringRefs(items[i])
    case Obj(members) =>
      forall i :: 0 <= i < |members| ==> (members[i].key == "$ref" ==> RefOf(node).Some?) && StringRefs(members[i].value)
    case _ => true
  }

  /** No member is named `$ref`. */
  predicate Clean(node: Json)
    decreases node
  {
    match node
    case Arr(items) => forall i :: 0 <= i < |items| ==> Clean(items[i])
    case Obj(members) => forall i :: 0 <= i < |members| ==> members[i].key != "$ref" && Clean(members[i].value)
    case _ => true
  }

  predicate AllStringRefs(ctx: Context) {
    forall d :: d in ctx.docs ==> StringRefs(ctx.docs[d])
  }

  lemma {:induction false} FollowStringRefs(node: Json, segments: seq<string>, decode: string -> string)
    requires StringRefs(node)
    ensures Follow(node, segments, decode).Some? ==> StringRefs(Follow(node, segments, decode).value)
    decreases |segments|
  {
    if segments != [] {
      var segment := Unescape(decode(segments[0]));
      var next := Step(node, segment);
      if node.Arr? { ElementStringRefs(node, segment, 0); }
      if next.Some? { FollowStringRefs(next.value, segments[1..], decode); }
    }
  }

  lemma {:induction false} ElementStringRefs(node: Json, segment: string, i: nat)
    requires node.Arr? && i <= |node.items| && StringRefs(node)
    ensures ElementNamed(node, segment, i).Some? ==> StringRefs(ElementNamed(node, segment, i).value)
    decreases |node.items| - i
  {
    if i < |node.items| && NatText(i) != segment { ElementStringRefs(node, segment, i + 1); }
  }

  lemma {:induction false} LookupStringRefs(ctx: Context, t: Target)
    requires t.doc in ctx.docs && AllStringRefs(ctx)
    ensures Lookup(ctx, t).Ok? ==> StringRefs(Lookup(ctx, t).value)
  {
    if t.pointer != "" && t.pointer != "/" && t.pointer[0] == '/' {
      FollowStringRefs(ctx.docs[t.doc], Split(t.pointer[1..], '/'), ctx.decode);
    }
  }

  lemma {:induction false} SetMemberClean(members: seq<Member>, key: string, value: Json)
    requires Clean(Obj(members)) && key != "$ref" && Clean(value)
    ensures Clean(Obj(SetMember(members, key, value)))
  {
    var out := SetMember(members, key, value);
    forall i | 0 <= i < |out| ensures out[i].key != "$ref" && Clean(out[i].value) {
      if i < |members| { assert members[i].key != "$ref" && Clean(members[i].value); }
    }
  }

  /** When every `$ref` is a string, what resolution returns has no `$ref` anywhere, not even at a cycle. */
  lemma {:induction false} ResolvedIsClean(ctx: Context, docPath: string, node: Json, stack: set<Target>, n: nat)
    requires InReach(ctx, docPath, node, stack) && AllStringRefs(ctx) && StringRefs(node)
    ensures Resolve(ctx, docPath, node, stack, n).Done? ==> Clean(Resolve(ctx, docPath, node, stack, n).value)
    decreases |Universe(ctx) - stack|, node, 2
  {
    if n <= ctx.maxNodes {
      match node
      case Arr(items) => ItemsAreClean(ctx, docPath, node, stack, n + 1, 0);
      case Obj(members) =>
        if RefOf(node).Some? {
          RefIsClean(ctx, docPath, node, stack, n + 1);
        } else {
          MembersAreClean(ctx, docPath, node, stack, n + 1, 0, []);
        }
      case _ =>
    }
  }

  lemma {:induction false} RefIsClean(ctx: Context, docPath: string, node: Json, stack: set<Target>, n: nat)
    requires InReach(ctx, docPath, node, stack) && AllStringRefs(ctx) && StringRefs(node) && node.Obj? && RefOf(node).Some?
    ensures ResolveRef(ctx, docPath, node, stack, n).Done? ==> Clean(ResolveRef(ctx, docPath, node, stack, n).value)
    decreases |Universe(ctx) - stack|, node, 1
  {
    hide Universe, AllRefs, RefsIn, StringRefs;
    var ref := RefOf(node).value;
    var t := RefTarget(ctx, docPath, ref);
    RefInReach(ctx, docPath, node, stack);
    if t.Ok? && t.value !in stack && Lookup(ctx, t.value).Ok? {
      var target := Lookup(ctx, t.value).value;
      StackGrows(Universe(ctx), stack, t.value);
      LookupStringRefs(ctx, t.value);
      ResolvedIsClean(ctx, t.value.doc, target, stack + {t.value}, n);
      var expanded := Resolve(ctx, t.value.doc, target, stack + {t.value}, n);
      if expanded.Done? && expanded.value.Obj? {
        MembersAreClean(ctx, docPath, node, stack, expanded.n, 0, expanded.value.members);
      }
    } else if t.Ok? && t.value in stack {
      assert "$ref_cycle" != "$ref" by { assert |"$ref_cycle"| != |"$ref"|; }
    }
  }

  /** Where a reference points is within reach. */
  lemma {:induction false} RefInReach(ctx: Context, docPath: string, node: Json, stack: set<Target>)
    requires InReach(ctx, docPath, node, stack) && node.Obj? && RefOf(node).Some?
    ensures RefOf(node).value in AllRefs(ctx)
    ensures var t := RefTarget(ctx, docPath, RefOf(node).value);
            t.Ok? ==>
              && t.value.doc in ctx.docs && t.value in Universe(ctx)
              && (Lookup(ctx, t.value).Ok? ==> InReach(ctx, t.value.doc, Lookup(ctx, t.value).value, stack + {t.value}))
  {
    hide PointerInto;
    TargetInUniverse(ctx, docPath, RefOf(node).value);
  }

  lemma {:induction false} ItemsAreClean(ctx: Context, docPath: string, node: Json, stack: set<Target>, n: nat, i: nat)
    requires InReach(ctx, docPath, node, stack) && AllStringRefs(ctx) && StringRefs(node) && node.Arr? && i <= |node.items|
    ensures var r := ResolveItems(ctx, docPath, node, stack, n, i); r.Done? ==> Clean(Arr(r.value))
    decreases |Universe(ctx) - stack|, node, 0, |node.items| - i
  {
    hide Universe, AllRefs;
    if i < |node.items| {
      var item := Resolve(ctx, docPath, node.items[i], stack, n);
      ResolvedIsClean(ctx, docPath, node.items[i], stack, n);
      if item.Done? { ItemsAreClean(ctx, docPath, node, stack, item.n, i + 1); }
    }
  }

  lemma {:induction false} MembersAreClean(ctx: Context, docPath: string, node: Json, stack: set<Target>, n: nat, i: nat, into: seq<Member>)
    requires InReach(ctx, docPath, node, stack) && AllStringRefs(ctx) && StringRefs(node) && node.Obj? && i <= |node.members|
    requires Clean(Obj(into))
    ensures var r := ResolveMembers(ctx, docPath, node, stack, n, i, into); r.Done? ==> Clean(Obj(r.value))
    decreases |Universe(ctx) - stack|, node, 0, |node.members| - i
  {
    hide Universe, AllRefs, Clean, SetMember;
    if i < |node.members| {
      var m := node.members[i];
      if m.key == "$ref" && RefOf(node).Some? {
        MembersAreClean(ctx, docPath, node, stack, n, i + 1, into);
      } else {
        var value := Resolve(ctx, docPath, m.value, stack, n);
        ResolvedIsClean(ctx, docPath, m.value, stack, n);
        if value.Done? {
          SetMemberClean(into, m.key, value.value);
          MembersAreClean(ctx, docPath, node, stack, value.n, i + 1, SetMember(into, m.key, value.value));
        }
      }
    }
  }

  // ---- cycles ----

  /** The targets a node's references have. */
  function Links(ctx: Context, docPath: string, node: Json): set<Target> {
    set r | r in RefsIn(node) && RefTarget(ctx, docPath, r).Ok? :: RefTarget(ctx, docPath, r).value
  }

  /** References followed one after the other, beginning in a node. */
  ghost predicate Walk(ctx: Context, docPath: string, node: Json, p: seq<Target>) {
    && p != [] && p[0] in Links(ctx, docPath, node)
    && (forall i :: 0 <= i < |p| - 1 ==> Linked(ctx, p[i], p[i + 1]))
  }

  ghost predicate Linked(ctx: Context, a: Target, b: Target) {
    a.doc in ctx.docs && Lookup(ctx, a).Ok? && b in Links(ctx, a.doc, Lookup(ctx, a).value)
  }

  /** The walk ends where it has been, or where the expansion already is. */
  ghost predicate Returns(stack: set<Target>, p: seq<Target>)
    requires p != []
  {
    p[|p| - 1] in stack || p[|p| - 1] in p[..|p| - 1]
  }

  ghost predicate Cyclic(ctx: Context, docPath: string, node: Json, stack: set<Target>) {
    exists p :: Walk(ctx, docPath, node, p) && Returns(stack, p)
  }

  /** An object that is no reference: what it expands to is an object, whatever is in it. */
  predicate PlainObject(node: Json) {
    node.Obj? && RefOf(node).None?
  }

  /** A reference in the node that has references beside it points at a plain object. */
  predicate SeenBeside(ctx: Context, docPath: string, node: Json)
    decreases node
  {
    match node
    case Arr(items) => forall i :: 0 <= i < |items| ==> SeenBeside(ctx, docPath, items[i])
    case Obj(members) =>
      forall i :: 0 <= i < |members| ==>
        && SeenBeside(ctx, docPath, members[i].value)
        && (RefOf(node).Some? && RefsIn(members[i].value) != {} ==>
              members[i].key != "$ref" && PointsAtObject(ctx, RefTarget(ctx, docPath, RefOf(node).value)))
    case _ => true
  }

  predicate PointsAtObject(ctx: Context, t: Result<Target, Error>) {
    t.Ok? && t.value.doc in ctx.docs && Lookup(ctx, t.value).Ok? ==> PlainObject(Lookup(ctx, t.value).value)
  }

  predicate AllSeenBeside(ctx: Context) {
    forall t: Target :: t.doc in ctx.docs && t in Universe(ctx) && Lookup(ctx, t).Ok? ==> SeenBeside(ctx, t.doc, Lookup(ctx, t).value)
  }

  /** Following one reference into the walk. */
  lemma {:induction false} CyclicRef(ctx: Context, docPath: string, node: Json, stack: set<Target>, t: Target)
    requires t in Links(ctx, docPath, node) && t.doc in ctx.docs && Lookup(ctx, t).Ok?
    requires Cyclic(ctx, t.doc, Lookup(ctx, t).value, stack + {t})
    ensures Cyclic(ctx, docPath, node, stack)
  {
    hide Links, Lookup;
    var q :| Walk(ctx, t.doc, Lookup(ctx, t).value, q) && Returns(stack + {t}, q);
    var p := [t] + q;
    assert Walk(ctx, docPath, node, p) by {
      forall i | 0 <= i < |p| - 1 ensures Linked(ctx, p[i], p[i + 1]) {
        if i > 0 { assert Linked(ctx, q[i - 1], q[i]); }
      }
    }
    assert p[..|p| - 1] == [t] + q[..|q| - 1];
    assert Returns(stack, p);
  }

  /** The rest of a walk, behind the reference it begins with. */
  lemma {:induction false} CyclicBehind(ctx: Context, docPath: string, node: Json, stack: set<Target>, p: seq<Target>)
    requires Walk(ctx, docPath, node, p) && Returns(stack, p) && p[0].doc in ctx.docs && p[0] !in stack && Lookup(ctx, p[0]).Ok?
    ensures Cyclic(ctx, p[0].doc, Lookup(ctx, p[0]).value, stack + {p[0]})
  {
    hide Links, Lookup;
    var target, q := Lookup(ctx, p[0]).value, p[1..];
    assert |p| > 1 ==> Linked(ctx, p[0], p[1]);
    assert Walk(ctx, p[0].doc, target, q) by {
      forall i | 0 <= i < |q| - 1 ensures Linked(ctx, q[i], q[i + 1]) { assert Linked(ctx, p[i + 1], p[i + 2]); }
    }
    assert p[..|p| - 1] == [p[0]] + q[..|q| - 1];
    assert Returns(stack + {p[0]}, q);
  }

  /** A part's cycles are the whole's. */
  lemma {:induction false} CyclicPart(ctx: Context, docPath: string, node: Json, part: Json, stack: set<Target>)
    requires RefsIn(part) <= RefsIn(node) && Cyclic(ctx, docPath, part, stack)
    ensures Cyclic(ctx, docPath, node, stack)
  {
    hide RefsIn;
    var p :| Walk(ctx, docPath, part, p) && Returns(stack, p);
    assert Walk(ctx, docPath, node, p);
  }

  lemma {:induction false} CyclicFrom(ctx: Context, docPath: string, node: Json, part: Json, stack: set<Target>, r: string, p: seq<Target>)
    requires Walk(ctx, docPath, node, p) && Returns(stack, p) && r in RefsIn(part)
    requires RefTarget(ctx, docPath, r) == Ok(p[0])
    ensures Cyclic(ctx, docPath, part, stack)
  {
    hide RefsIn;
    assert Walk(ctx, docPath, part, p);
  }

  lemma {:induction false} CyclicList(ctx: Context, docPath: string, node: Json, stack: set<Target>)
    requires node.Arr?
    ensures Cyclic(ctx, docPath, node, stack) <==> exists i :: 0 <= i < |node.items| && Cyclic(ctx, docPath, node.items[i], stack)
  {
    hide Cyclic;
    forall i | 0 <= i < |node.items| && Cyclic(ctx, docPath, node.items[i], stack) ensures Cyclic(ctx, docPath, node, stack) {
      CyclicPart(ctx, docPath, node, node.items[i], stack);
    }
    if Cyclic(ctx, docPath, node, stack) {
      var p := WalkOf(ctx, docPath, node, stack);
      var r :| r in RefsIn(node) && RefTarget(ctx, docPath, r) == Ok(p[0]);
      var i :| 0 <= i < |node.items| && r in RefsIn(node.items[i]);
      CyclicFrom(ctx, docPath, node, node.items[i], stack, r, p);
    }
  }

  lemma {:induction false} CyclicObject(ctx: Context, docPath: string, node: Json, stack: set<Target>)
    requires node.Obj? && RefOf(node).None?
    ensures Cyclic(ctx, docPath, node, stack) <==> exists i :: 0 <= i < |node.members| && Cyclic(ctx, docPath, node.members[i].value, stack)
  {
    hide Cyclic;
    forall i | 0 <= i < |node.members| && Cyclic(ctx, docPath, node.members[i].value, stack) ensures Cyclic(ctx, docPath, node, stack) {
      CyclicPart(ctx, docPath, node, node.members[i].value, stack);
    }
    if Cyclic(ctx, docPath, node, stack) {
      var p := WalkOf(ctx, docPath, node, stack);
      var r :| r in RefsIn(node) && RefTarget(ctx, docPath, r) == Ok(p[0]);
      var i :| 0 <= i < |node.members| && r in RefsIn(node.members[i].value);
      CyclicFrom(ctx, docPath, node, node.members[i].value, stack, r, p);
    }
  }

  lemma {:induction false} WalkOf(ctx: Context, docPath: string, node: Json, stack: set<Target>) returns (p: seq<Target>)
    requires Cyclic(ctx, docPath, node, stack)
    ensures p != [] && Walk(ctx, docPath, node, p) && Returns(stack, p)
    ensures exists r :: r in RefsIn(node) && RefTarget(ctx, docPath, r) == Ok(p[0])
  {
    hide RefsIn;
    p :| Walk(ctx, docPath, node, p) && Returns(stack, p);
    assert p[0] in Links(ctx, docPath, node);
  }

  lemma {:induction false} NoLinks(ctx: Context, docPath: string, node: Json, stack: set<Target>)
    requires RefsIn(node) == {}
    ensures !Cyclic(ctx, docPath, node, stack)
  {
    forall p ensures !Walk(ctx, docPath, node, p) {
      if p != [] { assert p[0] !in Links(ctx, docPath, node); }
    }
  }

  /**
    A resolution that succeeds reports a cycle only when some walk of references from the node comes back to itself or to
    what is being expanded; and whenever one does, as long as references that have references beside them point at objects.
  */
  lemma {:induction false} CyclesAreReal(ctx: Context, docPath: string, node: Json, stack: set<Target>, n: nat)
    requires InReach(ctx, docPath, node, stack)
    ensures var r := Resolve(ctx, docPath, node, stack, n);
            r.Done? ==>
              && (r.cycles != [] ==> Cyclic(ctx, docPath, node, stack))
              && (AllSeenBeside(ctx) && SeenBeside(ctx, docPath, node) && Cyclic(ctx, docPath, node, stack) ==> r.cycles != [])
    decreases |Universe(ctx) - stack|, node, 2
  {
    hide Universe, AllRefs, Cyclic, AllSeenBeside, PointsAtObject;
    if n <= ctx.maxNodes {
      match node
      case Arr(items) =>
        ItemCyclesAreReal(ctx, docPath, node, stack, n + 1, 0);
        CyclicList(ctx, docPath, node, stack);
      case Obj(members) =>
        if RefOf(node).Some? {
          RefCyclesAreReal(ctx, docPath, node, stack, n + 1);
        } else {
          MemberCyclesAreReal(ctx, docPath, node, stack, n + 1, 0, []);
          CyclicObject(ctx, docPath, node, stack);
        }
      case _ => NoLinks(ctx, docPath, node, stack);
    }
  }

  lemma LookupSeenBeside(ctx: Context, t: Target)
    requires AllSeenBeside(ctx) && t.doc in ctx.docs && t in Universe(ctx) && Lookup(ctx, t).Ok?
    ensures SeenBeside(ctx, t.doc, Lookup(ctx, t).value)
  {}

  lemma {:induction false} RefLinks(ctx: Context, docPath: string, node: Json)
    requires node.Obj? && RefOf(node).Some? && RefTarget(ctx, docPath, RefOf(node).value).Ok?
    ensures RefTarget(ctx, docPath, RefOf(node).value).value in Links(ctx, docPath, node)
  {
    hide RefTarget;
  }

  lemma {:induction false} OnStack(ctx: Context, docPath: string, node: Json, stack: set<Target>, t: Target)
    requires t in Links(ctx, docPath, node) && t in stack
    ensures Cyclic(ctx, docPath, node, stack)
  {
    hide Links;
    assert Walk(ctx, docPath, node, [t]) && Returns(stack, [t]);
  }

  /** A reference object's cycles lie behind the reference or in a member beside it. */
  lemma {:induction false} CyclicReference(ctx: Context, docPath: string, node: Json, stack: set<Target>, t: Target)
    requires node.Obj? && RefOf(node).Some? && RefTarget(ctx, docPath, RefOf(node).value) == Ok(t)
    requires t.doc in ctx.docs && t !in stack && Lookup(ctx, t).Ok?
    ensures Cyclic(ctx, docPath, node, stack) <==>
            || Cyclic(ctx, t.doc, Lookup(ctx, t).value, stack + {t})
            || exists i :: 0 <= i < |node.members| && Cyclic(ctx, docPath, node.members[i].value, stack)
  {
    hide Cyclic, Walk, Links, Lookup, RefTarget;
    RefLinks(ctx, docPath, node);
    if Cyclic(ctx, t.doc, Lookup(ctx, t).value, stack + {t}) { CyclicRef(ctx, docPath, node, stack, t); }
    forall i | 0 <= i < |node.members| && Cyclic(ctx, docPath, node.members[i].value, stack) ensures Cyclic(ctx, docPath, node, stack) {
      CyclicPart(ctx, docPath, node, node.members[i].value, stack);
    }
    if Cyclic(ctx, docPath, node, stack) {
      var p := WalkOf(ctx, docPath, node, stack);
      var r :| r in RefsIn(node) && RefTarget(ctx, docPath, r) == Ok(p[0]);
      if r == RefOf(node).value {
        CyclicBehind(ctx, docPath, node, stack, p);
      } else {
        var i :| 0 <= i < |node.members| && r in RefsIn(node.members[i].value);
        CyclicFrom(ctx, docPath, node, node.members[i].value, stack, r, p);
      }
    }
  }

  lemma {:induction false} RefCyclesAreReal(ctx: Context, docPath: string, node: Json, stack: set<Target>, n: nat)
    requires InReach(ctx, docPath, node, stack) && node.Obj? && RefOf(node).Some?
    ensures var r := ResolveRef(ctx, docPath, node, stack, n);
            r.Done? ==>
              && (r.cycles != [] ==> Cyclic(ctx, docPath, node, stack))
              && (AllSeenBeside(ctx) && SeenBeside(ctx, docPath, node) && Cyclic(ctx, docPath, node, stack) ==> r.cycles != [])
    decreases |Universe(ctx) - stack|, node, 1
  {
    hide Universe, AllRefs, Cyclic, AllSeenBeside, SeenBeside, Links, RefTarget, Lookup;
    var t := RefTarget(ctx, docPath, RefOf(node).value);
    RefInReach(ctx, docPath, node, stack);
    if t.Ok? {
      RefLinks(ctx, docPath, node);
      if t.value in stack {
        OnStack(ctx, docPath, node, stack, t.value);
      } else if Lookup(ctx, t.value).Ok? {
        var target := Lookup(ctx, t.value).value;
        StackGrows(Universe(ctx), stack, t.value);
        if AllSeenBeside(ctx) { LookupSeenBeside(ctx, t.value); }
        CyclesAreReal(ctx, t.value.doc, target, stack + {t.value}, n);
        CyclicReference(ctx, docPath, node, stack, t.value);
        var expanded := Resolve(ctx, t.value.doc, target, stack + {t.value}, n);
        if expanded.Done? {
          if expanded.value.Obj? {
            MemberCyclesAreReal(ctx, docPath, node, stack, expanded.n, 0, expanded.value.members);
          } else if SeenBeside(ctx, docPath, node) {
            NoneBeside(ctx, docPath, node, stack, n);
          }
        }
      }
    }
  }

  /** What expands to no object was no plain object, so no references stand beside the one to it. */
  lemma {:induction false} NoneBeside(ctx: Context, docPath: string, node: Json, stack: set<Target>, n: nat)
    requires InReach(ctx, docPath, node, stack) && node.Obj? && RefOf(node).Some? && SeenBeside(ctx, docPath, node)
    requires var t := RefTarget(ctx, docPath, RefOf(node).value);
             && t.Ok? && t.value.doc in ctx.docs && Lookup(ctx, t.value).Ok?
             && InReach(ctx, t.value.doc, Lookup(ctx, t.value).value, stack + {t.value})
             && var r := Resolve(ctx, t.value.doc, Lookup(ctx, t.value).value, stack + {t.value}, n);
                r.Done? && !r.value.Obj?
    ensures forall i :: 0 <= i < |node.members| ==> !Cyclic(ctx, docPath, node.members[i].value, stack)
  {
    hide Cyclic, Universe, AllRefs, RefTarget, Lookup;
    var t := RefTarget(ctx, docPath, RefOf(node).value).value;
    assert !PlainObject(Lookup(ctx, t).value);
    forall i | 0 <= i < |node.members| ensures !Cyclic(ctx, docPath, node.members[i].value, stack) {
      assert RefsIn(node.members[i].value) == {};
      NoLinks(ctx, docPath, node.members[i].value, stack);
    }
  }

  /** A reference to a list or a scalar without references hides every cycle that stands beside it. */
  lemma {:induction false} CyclesBesideAreLost(ctx: Context, docPath: string, node: Json, stack: set<Target>, n: nat, t: Target, i: nat)
    requires InReach(ctx, docPath, node, stack) && node.Obj? && RefOf(node).Some? && n <= ctx.maxNodes
    requires RefTarget(ctx, docPath, RefOf(node).value) == Ok(t) && t.doc in ctx.docs && t !in stack
    requires Lookup(ctx, t).Ok? && !Lookup(ctx, t).value.Obj? && RefsIn(Lookup(ctx, t).value) == {}
    requires i < |node.members| && Cyclic(ctx, docPath, node.members[i].value, stack)
    ensures Cyclic(ctx, docPath, node, stack)
    ensures var r := Resolve(ctx, docPath, node, stack, n); r.Done? ==> r.cycles == []
  {
    hide Cyclic, Universe, AllRefs, RefTarget, Lookup, RefsIn;
    RefInReach(ctx, docPath, node, stack);
    CyclicReference(ctx, docPath, node, stack, t);
    CyclesAreReal(ctx, t.doc, Lookup(ctx, t).value, stack + {t}, n + 1);
    NoLinks(ctx, t.doc, Lookup(ctx, t).value, stack + {t});
  }

  lemma {:induction false} ItemCyclesAreReal(ctx: Context, docPath: string, node: Json, stack: set<Target>, n: nat, i: nat)
    requires InReach(ctx, docPath, node, stack) && node.Arr? && i <= |node.items|
    ensures var r := ResolveItems(ctx, docPath, node, stack, n, i);
            r.Done? ==>
              && (r.cycles != [] ==> exists k :: i <= k < |node.items| && Cyclic(ctx, docPath, node.items[k], stack))
              && (AllSeenBeside(ctx) && SeenBeside(ctx, docPath, node) ==>
                    forall k :: i <= k < |node.items| && Cyclic(ctx, docPath, node.items[k], stack) ==> r.cycles != [])
    decreases |Universe(ctx) - stack|, node, 0, |node.items| - i
  {
    hide Universe, AllRefs, Cyclic, AllSeenBeside, PointsAtObject;
    if i < |node.items| {
      var item := Resolve(ctx, docPath, node.items[i], stack, n);
      CyclesAreReal(ctx, docPath, node.items[i], stack, n);
      if item.Done? { ItemCyclesAreReal(ctx, docPath, node, stack, item.n, i + 1); }
    }
  }

  lemma {:induction false} MemberCyclesAreReal(ctx: Context, docPath: string, node: Json, stack: set<Target>, n: nat, i: nat, into: seq<Member>)
    requires InReach(ctx, docPath, node, stack) && node.Obj? && i <= |node.members|
    ensures var r := ResolveMembers(ctx, docPath, node, stack, n, i, into);
            r.Done? ==>
              && (r.cycles != [] ==> exists k :: i <= k < |node.members| && Cyclic(ctx, docPath, node.members[k].value, stack))
              && (AllSeenBeside(ctx) && SeenBeside(ctx, docPath, node) ==>
                    forall k :: i <= k < |node.members| && Cyclic(ctx, docPath, node.members[k].value, stack) ==> r.cycles != [])
    decreases |Universe(ctx) - stack|, node, 0, |node.members| - i
  {
    hide Universe, AllRefs, Cyclic, AllSeenBeside, PointsAtObject, SetMember, RefTarget;
    if i < |node.members| {
      var m := node.members[i];
      if m.key == "$ref" && RefOf(node).Some? {
        MemberCyclesAreReal(ctx, docPath, node, stack, n, i + 1, into);
        if SeenBeside(ctx, docPath, node) {
          assert RefsIn(m.value) == {};
          NoLinks(ctx, docPath, m.value, stack);
        }
      } else {
        var value := Resolve(ctx, docPath, m.value, stack, n);
        CyclesAreReal(ctx, docPath, m.value, stack, n);
        if value.Done? { MemberCyclesAreReal(ctx, docPath, node, stack, value.n, i + 1, SetMember(into, m.key, value.value)); }
      }
    }
  }

  // ---- the budget ----

  lemma {:induction false} SameReach(ctx: Context, wider: Context)
    requires wider == ctx.(maxNodes := wider.maxNodes)
    ensures Universe(wider) == Universe(ctx) && AllRefs(wider) == AllRefs(ctx)
    ensures forall docPath, ref :: RefTarget(wider, docPath, ref) == RefTarget(ctx, docPath, ref)
    ensures forall t: Target :: t.doc in ctx.docs ==> Lookup(wider, t) == Lookup(ctx, t)
  {
    hide PointerInto, RefsIn;
  }

  /** The budget only ever cuts a resolution off: one that did not run out gives the same under any larger budget. */
  lemma {:induction false} BudgetOnlyCuts(ctx: Context, wider: Context, docPath: string, node: Json, stack: set<Target>, n: nat)
    requires InReach(ctx, docPath, node, stack) && InReach(wider, docPath, node, stack)
    requires wider == ctx.(maxNodes := wider.maxNodes) && ctx.maxNodes <= wider.maxNodes
    ensures var r := Resolve(ctx, docPath, node, stack, n); r == Failed(TooManyNodes) || r == Resolve(wider, docPath, node, stack, n)
    decreases |Universe(ctx) - stack|, node, 2
  {
    hide Universe, AllRefs, RefsIn;
    SameReach(ctx, wider);
    if n <= ctx.maxNodes {
      match node
      case Arr(items) => BudgetOnItems(ctx, wider, docPath, node, stack, n + 1, 0);
      case Obj(members) =>
        if RefOf(node).Some? {
          BudgetOnRef(ctx, wider, docPath, node, stack, n + 1);
        } else {
          BudgetOnMembers(ctx, wider, docPath, node, stack, n + 1, 0, []);
        }
      case _ =>
    }
  }

  lemma {:induction false} BudgetOnRef(ctx: Context, wider: Context, docPath: string, node: Json, stack: set<Target>, n: nat)
    requires InReach(ctx, docPath, node, stack) && InReach(wider, docPath, node, stack) && node.Obj? && RefOf(node).Some?
    requires wider == ctx.(maxNodes := wider.maxNodes) && ctx.maxNodes <= wider.maxNodes
    ensures var r := ResolveRef(ctx, docPath, node, stack, n); r == Failed(TooManyNodes) || r == ResolveRef(wider, docPath, node, stack, n)
    decreases |Universe(ctx) - stack|, node, 1
  {
    hide Universe, AllRefs, RefsIn, RefTarget, Lookup;
    SameReach(ctx, wider);
    RefInReach(ctx, docPath, node, stack);
    RefInReach(wider, docPath, node, stack);
    var t := RefTarget(ctx, docPath, RefOf(node).value);
    if t.Ok? && t.value !in stack && Lookup(ctx, t.value).Ok? {
      var target := Lookup(ctx, t.value).value;
      StackGrows(Universe(ctx), stack, t.value);
      BudgetOnlyCuts(ctx, wider, t.value.doc, target, stack + {t.value}, n);
      var expanded := Resolve(ctx, t.value.doc, target, stack + {t.value}, n);
      if expanded.Done? && expanded.value.Obj? {
        BudgetOnMembers(ctx, wider, docPath, node, stack, expanded.n, 0, expanded.value.members);
      }
    }
  }

  lemma {:induction false} BudgetOnItems(ctx: Context, wider: Context, docPath: string, node: Json, stack: set<Target>, n: nat, i: nat)
    requires InReach(ctx, docPath, node, stack) && InReach(wider, docPath, node, stack) && node.Arr? && i <= |node.items|
    requires wider == ctx.(maxNodes := wider.maxNodes) && ctx.maxNodes <= wider.maxNodes
    ensures var r := ResolveItems(ctx, docPath, node, stack, n, i); r == Failed(TooManyNodes) || r == ResolveItems(wider, docPath, node, stack, n, i)
    decreases |Universe(ctx) - stack|, node, 0, |node.items| - i
  {
    hide Universe, AllRefs;
    SameReach(ctx, wider);
    if i < |node.items| {
      BudgetOnlyCuts(ctx, wider, docPath, node.items[i], stack, n);
      var item := Resolve(ctx, docPath, node.items[i], stack, n);
      if item.Done? { BudgetOnItems(ctx, wider, docPath, node, stack, item.n, i + 1); }
    }
  }

  lemma {:induction false} BudgetOnMembers(ctx: Context, wider: Context, docPath: string, node: Json, stack: set<Target>, n: nat, i: nat,
                                           into: seq<Member>)
    requires InReach(ctx, docPath, node, stack) && InReach(wider, docPath, node, stack) && node.Obj? && i <= |node.members|
    requires wider == ctx.(maxNodes := wider.maxNodes) && ctx.maxNodes <= wider.maxNodes
    ensures var r := ResolveMembers(ctx, docPath, node, stack, n, i, into);
            r == Failed(TooManyNodes) || r == ResolveMembers(wider, docPath, node, stack, n, i, into)
    decreases |Universe(ctx) - stack|, node, 0, |node.members| - i
  {
    hide Universe, AllRefs, SetMember;
    SameReach(ctx, wider);
    if i < |node.members| {
      var m := node.members[i];
      if m.key == "$ref" && RefOf(node).Some? {
        BudgetOnMembers(ctx, wider, docPath, node, stack, n, i + 1, into);
      } else {
        BudgetOnlyCuts(ctx, wider, docPath, m.value, stack, n);
        var value := Resolve(ctx, docPath, m.value, stack, n);
        if value.Done? { BudgetOnMembers(ctx, wider, docPath, node, stack, value.n, i + 1, SetMember(into, m.key, value.value)); }
      }
    }
  }
}

/**
  What a resolved document holds: key by key, every member is its own value resolved, a member
  beside a reference wins over the one it refers to, and a part without references stays as it is.
*/
module OpenApiValues {
  import opened Common
  import opened Json
  import opened OpenApiRefs

  /** The value is this node, resolved at some moment of the resolution. */
  ghost predicate ResolvedFrom(ctx: Context, docPath: string, node: Json, stack: set<Target>, value: Json)
    requires InReach(ctx, docPath, node, stack)
  {
    exists n: nat :: Resolve(ctx, docPath, node, stack, n).Done? && Resolve(ctx, docPath, node, stack, n).value == value
  }

  /** Setting a member: it reads as set, every other as before. */
  lemma {:induction false} SetReads(members: seq<Member>, key: string, value: Json, other: string)
    ensures Child(Obj(SetMember(members, key, value)), other) == if other == key then Some(value) else Child(Obj(members), other)
  {
    var out := SetMember(members, key, value);
    var k := KeyAt(members, key);
    assert forall m :: 0 <= m < |members| ==> out[m].key == members[m].key;
    assert out[k].key == key;
    var i := KeyAt(members, other);
    assert forall m :: 0 <= m < i ==> out[m].key == members[m].key != other;
  }

  /** Is this member resolved into the object? A string `$ref` is not. */
  predicate Kept(node: Json, i: nat)
    requires node.Obj? && i < |node.members|
  {
    !(node.members[i].key == "$ref" && RefOf(node).Some?)
  }

  /** The last member of this key from i on, which decides; with different keys the only one. */
  predicate Decides(node: Json, key: string, j: nat)
    requires node.Obj?
  {
    j < |node.members| && node.members[j].key == key && Kept(node, j) && forall m :: j < m < |node.members| ==> node.members[m].key != key
  }

  lemma {:induction false} PartsReached(ctx: Context, docPath: string, node: Json, stack: set<Target>)
    requires InReach(ctx, docPath, node, stack)
    ensures node.Obj? ==> forall i :: 0 <= i < |node.members| ==> InReach(ctx, docPath, node.members[i].value, stack)
    ensures node.Arr? ==> forall i :: 0 <= i < |node.items| ==> InReach(ctx, docPath, node.items[i], stack)
  {
    hide AllRefs, Universe;
  }

  /** Resolving members into others: each key reads as its deciding member resolved, or as it did. */
  lemma {:induction false} MembersRead(ctx: Context, docPath: string, node: Json, stack: set<Target>, n: nat, i: nat, into: seq<Member>, key: string)
    requires InReach(ctx, docPath, node, stack) && node.Obj? && i <= |node.members|
    requires ResolveMembers(ctx, docPath, node, stack, n, i, into).Done?
    ensures var out := Obj(ResolveMembers(ctx, docPath, node, stack, n, i, into).value);
            && (forall j: nat :: i <= j && Decides(node, key, j) ==>
                  InReach(ctx, docPath, node.members[j].value, stack)
                  && Child(out, key).Some? && ResolvedFrom(ctx, docPath, node.members[j].value, stack, Child(out, key).value))
            && ((forall j :: i <= j < |node.members| && Kept(node, j) ==> node.members[j].key != key) ==> Child(out, key) == Child(Obj(into), key))
    decreases |node.members| - i
  {
    hide Resolve, SetMember, InReach, Child;
    PartsReached(ctx, docPath, node, stack);
    if i < |node.members| {
      var m := node.members[i];
      if !Kept(node, i) {
        MembersRead(ctx, docPath, node, stack, n, i + 1, into, key);
      } else {
        var value := Resolve(ctx, docPath, m.value, stack, n);
        MembersRead(ctx, docPath, node, stack, value.n, i + 1, SetMember(into, m.key, value.value), key);
        SetReads(into, m.key, value.value, key);
        assert ResolvedFrom(ctx, docPath, m.value, stack, value.value);
      }
    }
  }

  // ---- what each kind of node resolves to ----

  /** Does the object have a member of this key that is resolved into it? */
  predicate HasKept(node: Json, key: string)
    requires node.Obj?
  {
    exists j :: 0 <= j < |node.members| && Kept(node, j) && node.members[j].key == key
  }

  lemma {:induction false} Deciding(node: Json, key: string) returns (j: nat)
    requires node.Obj? && HasKept(node, key)
    ensures Decides(node, key, j)
  {
    j := |node.members| - 1;
    while node.members[j].key != key
      invariant j < |node.members| && forall m :: j < m < |node.members| ==> node.members[m].key != key
      decreases j
    {
      var k :| 0 <= k < |node.members| && Kept(node, k) && node.members[k].key == key;
      j := j - 1;
    }
  }

  lemma {:induction false} DecidesOnce(node: Json, key: string, j: nat)
    requires node.Obj? && DistinctKeys(node) && j < |node.members| && node.members[j].key == key
    ensures Child(node, key) == Some(node.members[j].value) && (Kept(node, j) ==> Decides(node, key, j))
  {
    assert KeyAt(node.members, key) == j;
  }

  /** An object that is no reference keeps its keys, and each reads as its own value resolved. */
  lemma {:induction false} ObjectResolves(ctx: Context, docPath: string, node: Json, stack: set<Target>, n: nat, key: string)
    requires InReach(ctx, docPath, node, stack) && node.Obj? && RefOf(node).None? && DistinctKeys(node)
    requires Resolve(ctx, docPath, node, stack, n).Done?
    ensures var value := Resolve(ctx, docPath, node, stack, n).value;
            && value.Obj? && (Child(value, key).Some? <==> Child(node, key).Some?)
            && (Child(node, key).Some? ==>
                  && InReach(ctx, docPath, Child(node, key).value, stack)
                  && ResolvedFrom(ctx, docPath, Child(node, key).value, stack, Child(value, key).value))
  {
    hide ResolveMembers, InReach, ResolvedFrom;
    MembersRead(ctx, docPath, node, stack, n + 1, 0, [], key);
    var k := KeyAt(node.members, key);
    if k < |node.members| { DecidesOnce(node, key, k); }
  }

  /** A list resolves item by item. */
  lemma {:induction false} ListResolves(ctx: Context, docPath: string, node: Json, stack: set<Target>, n: nat)
    requires InReach(ctx, docPath, node, stack) && node.Arr? && Resolve(ctx, docPath, node, stack, n).Done?
    ensures var value := Resolve(ctx, docPath, node, stack, n).value;
            && value.Arr? && |value.items| == |node.items|
            && forall i :: 0 <= i < |node.items| ==>
                 InReach(ctx, docPath, node.items[i], stack) && ResolvedFrom(ctx, docPath, node.items[i], stack, value.items[i])
  {
    hide ResolveItems, InReach, ResolvedFrom;
    ItemsResolve(ctx, docPath, node, stack, n + 1, 0);
  }

  lemma {:induction false} ItemsResolve(ctx: Context, docPath: string, node: Json, stack: set<Target>, n: nat, i: nat)
    requires InReach(ctx, docPath, node, stack) && node.Arr? && i <= |node.items| && ResolveItems(ctx, docPath, node, stack, n, i).Done?
    ensures var items := ResolveItems(ctx, docPath, node, stack, n, i).value;
            && |items| == |node.items| - i
            && forall k :: i <= k < |node.items| ==>
                 InReach(ctx, docPath, node.items[k], stack) && ResolvedFrom(ctx, docPath, node.items[k], stack, items[k - i])
    decreases |node.items| - i
  {
    hide Resolve, InReach;
    PartsReached(ctx, docPath, node, stack);
    if i < |node.items| {
      var item := Resolve(ctx, docPath, node.items[i], stack, n);
      ItemsResolve(ctx, docPath, node, stack, item.n, i + 1);
      assert ResolvedFrom(ctx, docPath, node.items[i], stack, item.value);
    }
  }

  /**
    A reference resolves to its target expanded. Where that is an object, a key the referring object has beside `$ref`
    reads as that member resolved, and every other key as in the target; otherwise what stands beside is dropped. A
    reference that is being expanded already becomes a marker.
  */
  lemma {:induction false} ReferenceResolves(ctx: Context, docPath: string, node: Json, stack: set<Target>, n: nat, key: string)
    requires InReach(ctx, docPath, node, stack) && node.Obj? && RefOf(node).Some? && Resolve(ctx, docPath, node, stack, n).Done?
    ensures var ref, value := RefOf(node).value, Resolve(ctx, docPath, node, stack, n).value;
            var t := RefTarget(ctx, docPath, ref);
            && t.Ok?
            && (t.value in stack ==> value == Obj([Member("$ref_cycle", Str(ref))]))
            && (t.value !in stack ==>
                  && t.value.doc in ctx.docs && Lookup(ctx, t.value).Ok?
                  && InReach(ctx, t.value.doc, Lookup(ctx, t.value).value, stack + {t.value})
                  && exists expanded ::
                       && ResolvedFrom(ctx, t.value.doc, Lookup(ctx, t.value).value, stack + {t.value}, expanded)
                       && (!expanded.Obj? ==> value == expanded)
                       && (expanded.Obj? ==> value.Obj? && MergedAt(ctx, docPath, node, stack, expanded, value, key)))
  {
    hide Universe, AllRefs, RefTarget, Lookup, RefsIn, ResolveMembers, InReach;
    var t := RefTarget(ctx, docPath, RefOf(node).value);
    TargetReached(ctx, docPath, node, stack);
    if t.Ok? && t.value !in stack && Lookup(ctx, t.value).Ok? {
      var target := Lookup(ctx, t.value).value;
      var expanded := Resolve(ctx, t.value.doc, target, stack + {t.value}, n + 1);
      assert ResolvedFrom(ctx, t.value.doc, target, stack + {t.value}, expanded.value);
      if expanded.Done? && expanded.value.Obj? {
        MembersRead(ctx, docPath, node, stack, expanded.n, 0, expanded.value.members, key);
        if HasKept(node, key) { var j := Deciding(node, key); }
        assert Obj(expanded.value.members) == expanded.value;
      }
    }
  }

  /** This key of the merged object: the member beside the reference if there is one, else the target's. */
  ghost predicate MergedAt(ctx: Context, docPath: string, node: Json, stack: set<Target>, expanded: Json, value: Json, key: string)
    requires InReach(ctx, docPath, node, stack) && node.Obj?
  {
    && (!HasKept(node, key) ==> Child(value, key) == Child(expanded, key))
    && (forall j: nat :: Decides(node, key, j) ==>
          && InReach(ctx, docPath, node.members[j].value, stack)
          && Child(value, key).Some? && ResolvedFrom(ctx, docPath, node.members[j].value, stack, Child(value, key).value))
  }

  lemma {:induction false} TargetReached(ctx: Context, docPath: string, node: Json, stack: set<Target>)
    requires InReach(ctx, docPath, node, stack) && node.Obj? && RefOf(node).Some?
    ensures var t := RefTarget(ctx, docPath, RefOf(node).value);
            t.Ok? ==>
              && t.value.doc in ctx.docs
              && (Lookup(ctx, t.value).Ok? ==> InReach(ctx, t.value.doc, Lookup(ctx, t.value).value, stack + {t.value}))
  {
    hide PointerInto;
    TargetInUniverse(ctx, docPath, RefOf(node).value);
  }

  // ---- parts without references ----

  /** A part without references and with different keys stays as it is. */
  lemma {:induction false} PlainStays(ctx: Context, docPath: string, node: Json, stack: set<Target>, n: nat)
    requires InReach(ctx, docPath, node, stack) && RefsIn(node) == {} && DistinctKeys(node)
    ensures Resolve(ctx, docPath, node, stack, n).Done? ==> Resolve(ctx, docPath, node, stack, n).value == node
    decreases node, 1
  {
    hide Universe, AllRefs, InReach;
    match node
    case Arr(items) => PlainItemsStay(ctx, docPath, node, stack, n + 1, 0);
    case Obj(members) => PlainMembersStay(ctx, docPath, node, stack, n + 1, 0, []);
    case _ =>
  }

  lemma {:induction false} PlainItemsStay(ctx: Context, docPath: string, node: Json, stack: set<Target>, n: nat, i: nat)
    requires InReach(ctx, docPath, node, stack) && node.Arr? && i <= |node.items| && RefsIn(node) == {} && DistinctKeys(node)
    ensures var r := ResolveItems(ctx, docPath, node, stack, n, i); r.Done? ==> r.value == node.items[i..]
    decreases node, 0, |node.items| - i
  {
    hide Universe, AllRefs, InReach, Resolve;
    PartsReached(ctx, docPath, node, stack);
    if i < |node.items| {
      assert RefsIn(node.items[i]) == {};
      PlainStays(ctx, docPath, node.items[i], stack, n);
      var item := Resolve(ctx, docPath, node.items[i], stack, n);
      if item.Done? {
        PlainItemsStay(ctx, docPath, node, stack, item.n, i + 1);
        assert node.items[i..] == [node.items[i]] + node.items[i + 1..];
      }
    }
  }

  lemma {:induction false} PlainMembersStay(ctx: Context, docPath: string, node: Json, stack: set<Target>, n: nat, i: nat, into: seq<Member>)
    requires InReach(ctx, docPath, node, stack) && node.Obj? && i <= |node.members| && RefsIn(node) == {} && DistinctKeys(node)
    requires into == node.members[..i]
    ensures var r := ResolveMembers(ctx, docPath, node, stack, n, i, into); r.Done? ==> r.value == node.members
    decreases node, 0, |node.members| - i
  {
    hide Universe, AllRefs, InReach, Resolve;
    PartsReached(ctx, docPath, node, stack);
    if i < |node.members| {
      var m := node.members[i];
      assert RefsIn(m.value) == {} && RefOf(node).None?;
      PlainStays(ctx, docPath, m.value, stack, n);
      var value := Resolve(ctx, docPath, m.value, stack, n);
      if value.Done? {
        assert KeyAt(into, m.key) == |into|;
        assert SetMember(into, m.key, value.value) == node.members[..i + 1];
        PlainMembersStay(ctx, docPath, node, stack, value.n, i + 1, SetMember(into, m.key, value.value));
      }
    }
  }
}

/**
  Where response values come from: walking a response body, and remembering for each
  identifier-like value the earliest step and path that produced it.
*/
module BindingProducers {
  import opened Common
  import opened Json
  import opened FieldPath

  /** A step of the run, and the path of the value in that step's response. */
  datatype Producer = Producer(step: nat, path: string)

  datatype Visit = Visit(path: seq<Segment>, key: string, value: Json)

  const MAX_DEPTH := 12
  const MIN_BINDABLE_LENGTH := 4

  // ---- walking a body ----

  /** Every member that is not an object or a list, outermost first, in member order. */
  function Visits(node: Json, path: seq<Segment>, depth: nat): seq<Visit>
    decreases node, if node.Arr? then |node.items| + 1 else if node.Obj? then |node.members| + 1 else 0
  {
    if depth > MAX_DEPTH then []
    else if node.Arr? then VisitItems(node, path, depth, 0)
    else if node.Obj? then VisitMembers(node, path, depth, 0)
    else []
  }

  function VisitItems(node: Json, path: seq<Segment>, depth: nat, i: nat): seq<Visit>
    requires node.Arr? && i <= |node.items|
    decreases node, |node.items| - i
  {
    if i == |node.items| then []
    else Visits(node.items[i], path + [Index(i)], depth + 1) + VisitItems(node, path, depth, i + 1)
  }

  function VisitMembers(node: Json, path: seq<Segment>, depth: nat, i: nat): seq<Visit>
    requires node.Obj? && i <= |node.members|
    decreases node, |node.members| - i
  {
    if i == |node.members| then []
    else
      var m := node.members[i];
      (if m.value.Arr? || m.value.Obj? then Visits(m.value, path + [Key(m.key)], depth + 1)
       else [Visit(path + [Key(m.key)], m.key, m.value)])
      + VisitMembers(node, path, depth, i + 1)
  }

  /** A visit stands below this path and reads its own value there. */
  ghost predicate VisitOf(root: Json, path: seq<Segment>, v: Visit) {
    && path <= v.path
    && ReadAt(Some(root), v.path[|path|..]) == Some(v.value)
  }

  lemma {:induction false} BelowElement(node: Json, path: seq<Segment>, i: nat, v: Visit)
    requires node.Arr? && i < |node.items| && VisitOf(node.items[i], path + [Index(i)], v)
    ensures VisitOf(node, path, v)
  {
    var rest := v.path[|path|..];
    assert rest[0] == (path + [Index(i)])[|path|] == Index(i);
    assert rest[1..] == v.path[|path| + 1..];
    assert rest == [Index(i)] + rest[1..];
  }

  lemma {:induction false} BelowMember(node: Json, path: seq<Segment>, i: nat, v: Visit)
    requires node.Obj? && i < |node.members| && DistinctKeys(node)
    requires VisitOf(node.members[i].value, path + [Key(node.members[i].key)], v)
    ensures VisitOf(node, path, v)
  {
    var key := node.members[i].key;
    var rest := v.path[|path|..];
    assert rest[0] == (path + [Key(key)])[|path|] == Key(key);
    assert rest[1..] == v.path[|path| + 1..];
    assert rest == [Key(key)] + rest[1..];
    assert KeyAt(node.members, key) == i;
  }

  /** Whatever the walk visits, reading its path in the same body finds it. */
  lemma {:induction false} VisitsRead(node: Json, path: seq<Segment>, depth: nat)
    requires DistinctKeys(node)
    ensures forall k :: 0 <= k < |Visits(node, path, depth)| ==> VisitOf(node, path, Visits(node, path, depth)[k])
    decreases node, if node.Arr? then |node.items| + 1 else if node.Obj? then |node.members| + 1 else 0
  {
    hide VisitOf;
    if depth <= MAX_DEPTH {
      if node.Arr? {
        ItemVisitsRead(node, path, depth, 0);
      } else if node.Obj? {
        MemberVisitsRead(node, path, depth, 0);
      }
    }
  }

  lemma {:induction false} ItemVisitsRead(node: Json, path: seq<Segment>, depth: nat, i: nat)
    requires node.Arr? && i <= |node.items| && DistinctKeys(node)
    ensures forall k :: 0 <= k < |VisitItems(node, path, depth, i)| ==> VisitOf(node, path, VisitItems(node, path, depth, i)[k])
    decreases node, |node.items| - i
  {
    hide VisitOf;
    if i < |node.items| {
      var inner := Visits(node.items[i], path + [Index(i)], depth + 1);
      VisitsRead(node.items[i], path + [Index(i)], depth + 1);
      forall k | 0 <= k < |inner| ensures VisitOf(node, path, inner[k]) { BelowElement(node, path, i, inner[k]); }
      ItemVisitsRead(node, path, depth, i + 1);
    }
  }

  lemma {:induction false} MemberVisitsRead(node: Json, path: seq<Segment>, depth: nat, i: nat)
    requires node.Obj? && i <= |node.members| && DistinctKeys(node)
    ensures forall k :: 0 <= k < |VisitMembers(node, path, depth, i)| ==> VisitOf(node, path, VisitMembers(node, path, depth, i)[k])
    decreases node, |node.members| - i
  {
    hide VisitOf;
    if i < |node.members| {
      var m := node.members[i];
      var below := path + [Key(m.key)];
      if m.value.Arr? || m.value.Obj? {
        var inner := Visits(m.value, below, depth + 1);
        VisitsRead(m.value, below, depth + 1);
        forall k | 0 <= k < |inner| ensures VisitOf(node, path, inner[k]) { BelowMember(node, path, i, inner[k]); }
      } else {
        VisitHere(m.value, below, Visit(below, m.key, m.value));
        BelowMember(node, path, i, Visit(below, m.key, m.value));
      }
      MemberVisitsRead(node, path, depth, i + 1);
    }
  }

  lemma VisitHere(value: Json, path: seq<Segment>, v: Visit)
    requires v.path == path && v.value == value
    ensures VisitOf(value, path, v)
  {}

  // ---- the index ----

  /** May this value be bound? `eligible` is the shape heuristic together with the declared paths and the secret check. */
  predicate Bindable(v: Visit, eligible: (string, string, string) -> bool) {
    v.value.Str? && |v.value.text| >= MIN_BINDABLE_LENGTH && eligible(v.key, v.value.text, PathText(v.path))
  }

  predicate Produced(v: Visit, sent: set<string>, eligible: (string, string, string) -> bool) {
    Bindable(v, eligible) && v.value.text !in sent
  }

  function IndexVisits(producers: map<string, Producer>, visits: seq<Visit>, step: nat, sent: set<string>,
                       eligible: (string, string, string) -> bool): map<string, Producer>
  {
    if visits == [] then producers
    else
      var before, v := IndexVisits(producers, visits[..|visits| - 1], step, sent, eligible), visits[|visits| - 1];
      if Produced(v, sent, eligible) && v.value.text !in before then before[v.value.text := Producer(step, PathText(v.path))]
      else before
  }

  /** Index one response: the earliest producer of a value stays its producer. */
  method IndexProducers(producers: map<string, Producer>, step: nat, body: Json, sent: set<string>,
                        eligible: (string, string, string) -> bool) returns (r: map<string, Producer>)
    ensures r == IndexVisits(producers, Visits(body, [], 0), step, sent, eligible)
  {
    r := producers;
    var visits, i := Visits(body, [], 0), 0;
    while i < |visits|
      invariant 0 <= i <= |visits|
      invariant r == IndexVisits(producers, visits[..i], step, sent, eligible)
    {
      var v := visits[i];
      assert visits[..i + 1][..i] == visits[..i];
      if v.value.Str? && |v.value.text| >= MIN_BINDABLE_LENGTH && eligible(v.key, v.value.text, PathText(v.path)) {
        if v.value.text !in sent {
          if v.value.text !in r {
            r := r[v.value.text := Producer(step, PathText(v.path))];
          }
        }
      }
      i := i + 1;
    }
    assert visits[..i] == visits;
  }

  /** Every indexed value can be read back, as it was, from the response its producer cites. */
  ghost predicate Faithful(producers: map<string, Producer>, ledger: map<nat, Json>) {
    forall v :: v in producers ==> ReadsValue(ledger, producers[v], v)
  }

  /** Every value the response produces stands at a path the notation can carry. */
  ghost predicate LegibleProducts(visits: seq<Visit>, sent: set<string>, eligible: (string, string, string) -> bool) {
    forall k :: 0 <= k < |visits| && Produced(visits[k], sent, eligible) ==> Legible(visits[k].path)
  }

  ghost predicate ReadsValue(ledger: map<nat, Json>, p: Producer, v: string) {
    p.step in ledger && ReadAt(Some(ledger[p.step]), PathSegments(p.path)) == Some(Str(v))
  }

  /** Indexing the response of a new step keeps every citation true, keeps earlier producers, and never takes an echo for a product. */
  lemma {:induction false} IndexIsFaithful(producers: map<string, Producer>, ledger: map<nat, Json>, step: nat, body: Json, sent: set<string>,
                                           eligible: (string, string, string) -> bool)
    requires Faithful(producers, ledger) && DistinctKeys(body) && step !in ledger
    requires LegibleProducts(Visits(body, [], 0), sent, eligible)
    ensures var r := IndexVisits(producers, Visits(body, [], 0), step, sent, eligible);
            && Faithful(r, ledger[step := body])
            && (forall v :: v in producers ==> v in r && r[v] == producers[v])
            && (forall v :: v in r && v !in producers ==> v !in sent && |v| >= MIN_BINDABLE_LENGTH && r[v].step == step)
  {
    VisitsRead(body, [], 0);
    IndexedSoFar(producers, ledger, step, body, sent, eligible, Visits(body, [], 0));
  }

  lemma {:induction false} IndexedSoFar(producers: map<string, Producer>, ledger: map<nat, Json>, step: nat, body: Json, sent: set<string>,
                                        eligible: (string, string, string) -> bool, visits: seq<Visit>)
    requires Faithful(producers, ledger) && step !in ledger
    requires LegibleProducts(visits, sent, eligible) && forall k :: 0 <= k < |visits| ==> VisitOf(body, [], visits[k])
    ensures var r := IndexVisits(producers, visits, step, sent, eligible);
            && Faithful(r, ledger[step := body])
            && (forall v :: v in producers ==> v in r && r[v] == producers[v])
            && (forall v :: v in r && v !in producers ==> v !in sent && |v| >= MIN_BINDABLE_LENGTH && r[v].step == step)
  {
    hide ReadAt, PathSegments, PathText, Legible;
    if visits == [] {
      forall v | v in producers ensures ReadsValue(ledger[step := body], producers[v], v) {
        assert ReadsValue(ledger, producers[v], v);
      }
    } else {
      var last := visits[|visits| - 1];
      IndexedSoFar(producers, ledger, step, body, sent, eligible, visits[..|visits| - 1]);
      assert VisitOf(body, [], last) && last.path[0..] == last.path;
      PathReadsBack(last.path);
    }
  }

  lemma {:induction false} IndexedNext(producers: map<string, Producer>, visits: seq<Visit>, step: nat, sent: set<string>,
                    eligible: (string, string, string) -> bool)
    requires visits != []
    ensures var (before, after, last) := (IndexVisits(producers, visits[..|visits| - 1], step, sent, eligible),
                                          IndexVisits(producers, visits, step, sent, eligible), visits[|visits| - 1]);
            && before.Keys <= after.Keys && (Produced(last, sent, eligible) ==> last.value.text in after)
  {}

  /** Whatever a response produces that the client did not send is indexed. */
  lemma {:induction false} ProductsAreIndexed(producers: map<string, Producer>, visits: seq<Visit>, step: nat, sent: set<string>,
                                              eligible: (string, string, string) -> bool)
    ensures forall k :: 0 <= k < |visits| && Produced(visits[k], sent, eligible) ==>
              visits[k].value.text in IndexVisits(producers, visits, step, sent, eligible)
  {
    hide IndexVisits, PathText;
    if visits != [] {
      var front, last := visits[..|visits| - 1], visits[|visits| - 1];
      ProductsAreIndexed(producers, front, step, sent, eligible);
      IndexedNext(producers, visits, step, sent, eligible);
      forall k | 0 <= k < |visits| && Produced(visits[k], sent, eligible)
        ensures visits[k].value.text in IndexVisits(producers, visits, step, sent, eligible)
      {
        assert k < |front| ==> visits[k] == front[k];
      }
    }
  }
}

/**
  The drift report: which fields of a response's projection were renamed, removed or added.
  A removed field is read as renamed to the first added field of the same parent that is not
  already somebody's new name.
*/
module HealDiff {
  import opened Common
  import opened Json
  import opened Pairing

  datatype Signal =
    | StatusChanged(before: string, after: string)
    | Renamed(from: string, to: string)
    | RemovedField(path: string)
    | AddedField(path: string)

  // ---- the paths of a shape ----

  /** Every key path of a shape, outermost first; a list stands for its first element. */
  function ShapePaths(node: Json, prefix: string): seq<string>
    decreases node, if node.Obj? then |node.members| + 1 else 0
  {
    match node
    case Arr(items) => if items == [] then [] else ShapePaths(items[0], prefix + "[]")
    case Obj(members) => MemberPaths(node, prefix, 0)
    case _ => []
  }

  function MemberPaths(node: Json, prefix: string, i: nat): seq<string>
    requires node.Obj? && i <= |node.members|
    decreases node, |node.members| - i
  {
    if i == |node.members| then []
    else
      var path := prefix + "." + node.members[i].key;
      [path] + ShapePaths(node.members[i].value, path) + MemberPaths(node, prefix, i + 1)
  }

  /** The path without its last dotted part. */
  function Parent(path: string): string
    decreases |path|
  {
    if path == [] then [] else if path[|path| - 1] == '.' then path[..|path| - 1] else Parent(path[..|path| - 1])
  }

  function Parents(paths: seq<string>): (r: seq<string>)
    ensures |r| == |paths|
  {
    seq(|paths|, i requires 0 <= i < |paths| => Parent(paths[i]))
  }

  /** The paths of one list that another does not have, each once, in order. */
  function Missing(paths: seq<string>, from: seq<string>): (r: seq<string>)
    ensures forall i :: 0 <= i < |r| ==> r[i] in paths && r[i] !in from
    ensures forall p :: p in paths && p !in from ==> p in r
    ensures forall i, j :: 0 <= i < j < |r| ==> r[i] != r[j]
  {
    if paths == [] then []
    else
      var front, last := Missing(paths[..|paths| - 1], from), paths[|paths| - 1];
      assert paths == paths[..|paths| - 1] + [last];
      if last in from || last in front then front else front + [last]
  }

  /** Adding a key without a dot to a path and cutting the last part off again gives the path. */
  lemma {:induction false} ParentOfKey(path: string, key: string)
    requires '.' !in key
    ensures Parent(path + "." + key) == path
    decreases |key|
  {
    var whole := path + "." + key;
    if key == "" {
      assert whole[..|whole| - 1] == path;
    } else {
      var front := key[..|key| - 1];
      assert whole[|whole| - 1] == key[|key| - 1] && key[|key| - 1] in key;
      assert whole[..|whole| - 1] == path + "." + front;
      ParentOfKey(path, front);
    }
  }

  /** The text of a place: its keys dotted, and every list as `[]`. */
  function PlaceText(place: seq<Segment>): string {
    if place == [] then ""
    else (match place[0] case Key(key) => "." + key case _ => "[]") + PlaceText(place[1..])
  }

  /** A place a shape has: keys of objects and first elements of lists, ending with a key. */
  ghost predicate Stands(node: Json, place: seq<Segment>) {
    && place != [] && place[|place| - 1].Key?
    && (forall k :: 0 <= k < |place| ==> place[k].Key? || place[k] == Index(0))
    && ReadAt(Some(node), place).Some?
  }

  lemma {:induction false} StandsStep(node: Json, place: seq<Segment>)
    requires Stands(node, place)
    ensures place != []
    ensures place[0].Key? || place[0] == Index(0)
    ensures place[0].Key? ==> node.Obj? && KeyAt(node.members, place[0].key) < |node.members|
    ensures place[0].Index? ==> |place| > 1 && node.Arr? && node.items != []
    ensures var inner := if place[0].Key? then node.members[KeyAt(node.members, place[0].key)].value else node.items[0];
            |place| > 1 ==> Stands(inner, place[1..])
  {
    assert ReadAt(None, place[1..]) == None;
  }

  lemma {:induction false} StandsAbove(node: Json, step: Segment, inner: Json, rest: seq<Segment>)
    requires (step.Key? && Child(node, step.key) == Some(inner)) || (step == Index(0) && Element(node, 0) == Some(inner))
    requires Stands(inner, rest) || (rest == [] && step.Key?)
    ensures Stands(node, [step] + rest)
  {
    assert ([step] + rest)[1..] == rest;
  }

  lemma TextStep(prefix: string, place: seq<Segment>)
    requires place != []
    ensures prefix + PlaceText(place) == prefix + (match place[0] case Key(key) => "." + key case _ => "[]") + PlaceText(place[1..])
  {}

  /** Every place of a shape is among its paths. */
  lemma {:induction false} PlacesAreListed(node: Json, prefix: string, place: seq<Segment>)
    requires DistinctKeys(node) && Stands(node, place)
    ensures prefix + PlaceText(place) in ShapePaths(node, prefix)
    decreases |place|
  {
    hide ShapePaths, Stands, ReadAt, PlaceText;
    ShapePathsOf(node, prefix);
    StandsStep(node, place);
    TextStep(prefix, place);
    if place[0].Index? {
      assert prefix + "[]" + PlaceText(place[1..]) == (prefix + "[]") + PlaceText(place[1..]);
      PlacesAreListed(node.items[0], prefix + "[]", place[1..]);
    } else {
      var i := KeyAt(node.members, place[0].key);
      var path := prefix + "." + node.members[i].key;
      assert prefix + ("." + place[0].key) == path;
      if |place| == 1 {
        NoText(place[1..]);
      } else {
        PlacesAreListed(node.members[i].value, path, place[1..]);
      }
      MemberListed(node, prefix, 0, i, path + PlaceText(place[1..]));
    }
  }

  lemma NoText(place: seq<Segment>)
    requires place == []
    ensures PlaceText(place) == ""
  {}

  lemma ShapePathsOf(node: Json, prefix: string)
    ensures node.Arr? && node.items != [] ==> ShapePaths(node, prefix) == ShapePaths(node.items[0], prefix + "[]")
    ensures node.Obj? ==> ShapePaths(node, prefix) == MemberPaths(node, prefix, 0)
    ensures !node.Obj? && !(node.Arr? && node.items != []) ==> ShapePaths(node, prefix) == []
  {}

  lemma {:induction false} MemberListed(node: Json, prefix: string, from: nat, i: nat, path: string)
    requires node.Obj? && from <= i < |node.members|
    requires var below := prefix + "." + node.members[i].key; path == below || path in ShapePaths(node.members[i].value, below)
    ensures path in MemberPaths(node, prefix, from)
    decreases i - from
  {
    hide ShapePaths;
    if from < i { MemberListed(node, prefix, from + 1, i, path); }
  }

  /** Every path of a shape is the text of one of its places. */
  lemma {:induction false} ListedArePlaces(node: Json, prefix: string, path: string) returns (place: seq<Segment>)
    requires DistinctKeys(node) && path in ShapePaths(node, prefix)
    ensures Stands(node, place) && path == prefix + PlaceText(place)
    decreases node, if node.Obj? then |node.members| + 1 else 0
  {
    hide ShapePaths, Stands;
    ShapePathsOf(node, prefix);
    if node.Arr? {
      var rest := ListedArePlaces(node.items[0], prefix + "[]", path);
      place := [Index(0)] + rest;
      StandsAbove(node, Index(0), node.items[0], rest);
      assert place[1..] == rest;
      assert (prefix + "[]") + PlaceText(rest) == prefix + PlaceText(place);
    } else {
      place := ListedMember(node, prefix, path, 0);
    }
  }

  lemma {:induction false} ListedMember(node: Json, prefix: string, path: string, i: nat) returns (place: seq<Segment>)
    requires node.Obj? && i <= |node.members| && DistinctKeys(node) && path in MemberPaths(node, prefix, i)
    ensures Stands(node, place) && path == prefix + PlaceText(place)
    decreases node, |node.members| - i
  {
    hide ShapePaths, Stands;
    var m := node.members[i];
    var below := prefix + "." + m.key;
    assert KeyAt(node.members, m.key) == i;
    if path == below {
      place := [Key(m.key)] + [];
      StandsAbove(node, Key(m.key), m.value, []);
      assert place[1..] == [] && PlaceText(place) == "." + m.key;
    } else if path in ShapePaths(m.value, below) {
      var rest := ListedArePlaces(m.value, below, path);
      place := [Key(m.key)] + rest;
      StandsAbove(node, Key(m.key), m.value, rest);
      assert place[1..] == rest;
      assert below + PlaceText(rest) == prefix + PlaceText(place);
    } else {
      place := ListedMember(node, prefix, path, i + 1);
    }
  }

  // ---- the report, by the pairing ----

  function Renames(removed: seq<string>, added: seq<string>, n: nat): seq<Signal>
    requires n <= |removed|
  {
    if n == 0 then []
    else
      var t := Twin(Parents(removed), Parents(added), n - 1);
      Renames(removed, added, n - 1) + if t.Some? && t.value < |added| then [Renamed(removed[n - 1], added[t.value])] else []
  }

  function Removals(removed: seq<string>, added: seq<string>, n: nat): seq<Signal>
    requires n <= |removed|
  {
    if n == 0 then []
    else
      Removals(removed, added, n - 1)
      + if Twin(Parents(removed), Parents(added), n - 1).Some? then [] else [RemovedField(removed[n - 1])]
  }

  function Additions(removed: seq<string>, added: seq<string>, n: nat): seq<Signal>
    requires n <= |added|
  {
    if n == 0 then []
    else
      Additions(removed, added, n - 1)
      + if IsLeft(Parents(removed), Parents(added), n - 1) then [AddedField(added[n - 1])] else []
  }

  function FieldSignals(removed: seq<string>, added: seq<string>): seq<Signal> {
    Renames(removed, added, |removed|) + Removals(removed, added, |removed|) + Additions(removed, added, |added|)
  }

  // ---- the source's loops ----

  datatype Rename = Rename(from: string, to: string)

  /** What the list of renames holds after the first n removed fields. */
  ghost predicate Found(renamed: seq<Rename>, removed: seq<string>, added: seq<string>, n: nat)
    requires n <= |removed|
  {
    && |renamed| == |Renames(removed, added, n)|
    && (forall i :: 0 <= i < |renamed| ==> Renames(removed, added, n)[i] == Renamed(renamed[i].from, renamed[i].to))
  }

  predicate TakenBy(renamed: seq<Rename>, to: string) {
    exists i :: 0 <= i < |renamed| && renamed[i].to == to
  }

  predicate GivenBy(renamed: seq<Rename>, from: string) {
    exists i :: 0 <= i < |renamed| && renamed[i].from == from
  }

  ghost predicate DistinctPaths(paths: seq<string>) {
    forall i, j :: 0 <= i < j < |paths| ==> paths[i] != paths[j]
  }

  lemma {:induction false} TwinParent(removed: seq<string>, added: seq<string>, i: nat)
    requires i < |removed| && Twin(Parents(removed), Parents(added), i).Some?
    ensures var t := Twin(Parents(removed), Parents(added), i).value; t < |added| && Parent(added[t]) == Parent(removed[i])
  {
    hide Parent;
    var left, right := Parents(removed), Parents(added);
    NthIs(right, left[i], Count(left[..i], left[i]));
  }

  /** A new name is taken exactly when an earlier removed field is paired with it. */
  lemma {:induction false} TakenMeans(renamed: seq<Rename>, removed: seq<string>, added: seq<string>, n: nat, j: nat)
    requires n <= |removed| && j < |added| && DistinctPaths(added) && Found(renamed, removed, added, n)
    ensures TakenBy(renamed, added[j]) <==> exists i :: 0 <= i < n && Twin(Parents(removed), Parents(added), i) == Some(j)
    decreases n
  {
    hide Parents, Twin;
    if n > 0 {
      var t := Twin(Parents(removed), Parents(added), n - 1);
      if t.Some? && t.value < |added| {
        var before, last := renamed[..|renamed| - 1], renamed[|renamed| - 1];
        TakenMeans(before, removed, added, n - 1, j);
        assert renamed == before + [last] && last == Rename(removed[n - 1], added[t.value]) by {
          assert Renames(removed, added, n)[|renamed| - 1] == Renamed(last.from, last.to);
        }
        TakenMore(before, last, added[j]);
      } else {
        assert Renames(removed, added, n - 1) + [] == Renames(removed, added, n - 1);
        TakenMeans(renamed, removed, added, n - 1, j);
      }
    }
  }

  lemma {:induction false} TakenMore(renamed: seq<Rename>, last: Rename, to: string)
    ensures TakenBy(renamed + [last], to) <==> TakenBy(renamed, to) || last.to == to
  {
    var more := renamed + [last];
    assert more[|renamed|] == last;
    if TakenBy(renamed, to) {
      var i :| 0 <= i < |renamed| && renamed[i].to == to;
      assert more[i].to == to;
    }
  }

  lemma {:induction false} GivenMeans(renamed: seq<Rename>, removed: seq<string>, added: seq<string>, n: nat, i: nat)
    requires n <= |removed| && i < |removed| && DistinctPaths(removed) && Found(renamed, removed, added, n)
    ensures GivenBy(renamed, removed[i]) <==> i < n && Twin(Parents(removed), Parents(added), i).Some?
    decreases n
  {
    hide Twin;
    if n > 0 {
      var t := Twin(Parents(removed), Parents(added), n - 1);
      if t.Some? {
        TwinParent(removed, added, n - 1);
        var before, last := renamed[..|renamed| - 1], renamed[|renamed| - 1];
        GivenMeans(before, removed, added, n - 1, i);
        assert renamed == before + [last] && last == Rename(removed[n - 1], added[t.value]) by {
          assert Renames(removed, added, n)[|renamed| - 1] == Renamed(last.from, last.to);
        }
        GivenMore(before, last, removed[i]);
      } else {
        assert Renames(removed, added, n - 1) + [] == Renames(removed, added, n - 1);
        GivenMeans(renamed, removed, added, n - 1, i);
      }
    }
  }

  lemma {:induction false} GivenMore(renamed: seq<Rename>, last: Rename, from: string)
    ensures GivenBy(renamed + [last], from) <==> GivenBy(renamed, from) || last.from == from
  {
    var more := renamed + [last];
    assert more[|renamed|] == last;
    if GivenBy(renamed, from) {
      var i :| 0 <= i < |renamed| && renamed[i].from == from;
      assert more[i].from == from;
    }
  }

  /** The first added field of this parent that is no new name yet: the next removed field's twin. */
  lemma {:induction false} FirstFree(renamed: seq<Rename>, removed: seq<string>, added: seq<string>, n: nat, k: nat)
    requires n < |removed| && DistinctPaths(added) && Found(renamed, removed, added, n) && k <= |added|
    requires forall j :: 0 <= j < k ==> Parent(added[j]) != Parent(removed[n]) || TakenBy(renamed, added[j])
    requires k < |added| ==> Parent(added[k]) == Parent(removed[n]) && !TakenBy(renamed, added[k])
    ensures Twin(Parents(removed), Parents(added), n) == if k < |added| then Some(k) else None
  {
    hide Twin, IsLeft, Parent, Found;
    var left, right := Parents(removed), Parents(added);
    var earlier := left[..n];
    assert left[..n + 1] == earlier + [left[n]];
    forall j | 0 <= j < |added| ensures TakenBy(renamed, added[j]) <==> !IsLeft(earlier, right, j) {
      TakenMeans(renamed, removed, added, n, j);
      TakenOrLeft(earlier, right, j);
      forall i | 0 <= i < n ensures Twin(earlier, right, i) == Twin(left, right, i) { TwinEarlier(left, right, n, i); }
    }
    NextTwin(earlier, right, left[n]);
    TwinNow(left, right, n);
  }

  lemma {:induction false} TwinEarlier(left: seq<string>, right: seq<string>, n: nat, i: nat)
    requires i < n <= |left|
    ensures Twin(left[..n], right, i) == Twin(left, right, i)
  {
    assert left[..n][..i] == left[..i];
  }

  lemma {:induction false} TwinNow(left: seq<string>, right: seq<string>, n: nat)
    requires n < |left|
    ensures Twin(left[..n] + [left[n]], right, n) == Twin(left, right, n)
  {
    assert (left[..n] + [left[n]])[..n] == left[..n];
  }

  method FindRenames(removed: seq<string>, added: seq<string>) returns (renamed: seq<Rename>)
    requires DistinctPaths(added)
    ensures Found(renamed, removed, added, |removed|)
  {
    hide Twin, Parent, Parents;
    renamed := [];
    var n := 0;
    while n < |removed|
      invariant 0 <= n <= |removed|
      invariant Found(renamed, removed, added, n)
    {
      var k := 0;
      while k < |added| && (Parent(added[k]) != Parent(removed[n]) || TakenBy(renamed, added[k]))
        invariant 0 <= k <= |added|
        invariant forall j :: 0 <= j < k ==> Parent(added[j]) != Parent(removed[n]) || TakenBy(renamed, added[j])
      {
        k := k + 1;
      }
      FirstFree(renamed, removed, added, n, k);
      if k < |added| {
        renamed := renamed + [Rename(removed[n], added[k])];
      }
      n := n + 1;
    }
  }

  /** Renames first, then what was only removed, then what was only added. */
  method FieldReport(removed: seq<string>, added: seq<string>) returns (signals: seq<Signal>)
    requires DistinctPaths(removed) && DistinctPaths(added)
    ensures signals == FieldSignals(removed, added)
  {
    hide Twin, Parent, Parents, IsLeft;
    var renamed := FindRenames(removed, added);
    signals := seq(|renamed|, i requires 0 <= i < |renamed| => Renamed(renamed[i].from, renamed[i].to));
    assert signals == Renames(removed, added, |removed|);
    ghost var head := signals;
    var i := 0;
    assert head + Removals(removed, added, 0) == head;
    while i < |removed|
      invariant 0 <= i <= |removed|
      invariant signals == head + Removals(removed, added, i)
    {
      GivenMeans(renamed, removed, added, |removed|, i);
      if !GivenBy(renamed, removed[i]) {
        signals := signals + [RemovedField(removed[i])];
      } else {
        assert Removals(removed, added, i) + [] == Removals(removed, added, i);
      }
      i := i + 1;
    }
    head := signals;
    var j := 0;
    assert head + Additions(removed, added, 0) == head;
    while j < |added|
      invariant 0 <= j <= |added|
      invariant signals == head + Additions(removed, added, j)
    {
      TakenMeans(renamed, removed, added, |removed|, j);
      AddedIsLeft(removed, added, j);
      if !TakenBy(renamed, added[j]) {
        signals := signals + [AddedField(added[j])];
      } else {
        assert Additions(removed, added, j) + [] == Additions(removed, added, j);
      }
      j := j + 1;
    }
  }

  lemma {:induction false} AddedIsLeft(removed: seq<string>, added: seq<string>, j: nat)
    requires j < |added|
    ensures IsLeft(Parents(removed), Parents(added), j) <==>
            !exists i :: 0 <= i < |removed| && Twin(Parents(removed), Parents(added), i) == Some(j)
  {
    hide Twin, IsLeft;
    TakenOrLeft(Parents(removed), Parents(added), j);
  }

  /** What moved between two projections: their statuses, and their bodies where both can be read. */
  method DiffProjections(statusBefore: Option<string>, statusAfter: Option<string>, before: Option<Json>, after: Option<Json>)
    returns (signals: seq<Signal>)
    ensures signals == StatusSignals(statusBefore, statusAfter) + BodySignals(before, after)
    ensures forall path :: Saying(signals, path, true) == if OnlyIn(before, after, path) then 1 else 0
    ensures forall path :: Saying(signals, path, false) == if OnlyIn(after, before, path) then 1 else 0
  {
    hide FieldSignals, ShapePaths, Saying, OnlyIn;
    forall path ensures var report := StatusSignals(statusBefore, statusAfter) + BodySignals(before, after);
                        && Saying(report, path, true) == (if OnlyIn(before, after, path) then 1 else 0)
                        && Saying(report, path, false) == (if OnlyIn(after, before, path) then 1 else 0)
    {
      EachPathOnce(statusBefore, statusAfter, before, after, path);
    }
    signals := [];
    if statusBefore.Some? && statusAfter.Some? && statusBefore.value != statusAfter.value {
      signals := [StatusChanged(statusBefore.value, statusAfter.value)];
    }
    if before.None? || after.None? {
      assert signals + [] == signals;
      return;
    }
    var was, now := ShapePaths(before.value, "$"), ShapePaths(after.value, "$");
    var fields := FieldReport(Missing(was, now), Missing(now, was));
    signals := signals + fields;
  }

  function StatusSignals(before: Option<string>, after: Option<string>): seq<Signal> {
    if before.Some? && after.Some? && before.value != after.value then [StatusChanged(before.value, after.value)] else []
  }

  function BodySignals(before: Option<Json>, after: Option<Json>): seq<Signal> {
    if before.None? || after.None? then []
    else
      var was, now := ShapePaths(before.value, "$"), ShapePaths(after.value, "$");
      FieldSignals(Missing(was, now), Missing(now, was))
  }

  // ---- each changed path once ----

  predicate SaysGone(s: Signal, path: string) {
    s == RemovedField(path) || (s.Renamed? && s.from == path)
  }

  predicate SaysNew(s: Signal, path: string) {
    s == AddedField(path) || (s.Renamed? && s.to == path)
  }

  function Saying(signals: seq<Signal>, path: string, gone: bool): nat {
    if signals == [] then 0
    else
      var last := signals[|signals| - 1];
      Saying(signals[..|signals| - 1], path, gone) + if (if gone then SaysGone(last, path) else SaysNew(last, path)) then 1 else 0
  }

  lemma {:induction false} SayingConcat(a: seq<Signal>, b: seq<Signal>, path: string, gone: bool)
    ensures Saying(a + b, path, gone) == Saying(a, path, gone) + Saying(b, path, gone)
  {
    hide SaysGone, SaysNew;
    if b == [] {
      assert a + b == a;
    } else {
      assert (a + b)[..|a + b| - 1] == a + b[..|b| - 1];
      SayingConcat(a, b[..|b| - 1], path, gone);
    }
  }

  lemma {:induction false} SayingOne(s: Signal, path: string, gone: bool)
    ensures Saying([s], path, gone) == if (if gone then SaysGone(s, path) else SaysNew(s, path)) then 1 else 0
  {
    assert [s][..0] == [] && Saying([], path, gone) == 0;
  }

  /** How often the first n removed fields mention the i-th as gone: in a rename if it has a twin, as a removal if not. */
  lemma {:induction false} GoneOnce(removed: seq<string>, added: seq<string>, n: nat, i: nat)
    requires n <= |removed| && i < |removed| && DistinctPaths(removed)
    ensures var twin := Twin(Parents(removed), Parents(added), i).Some?;
            && Saying(Renames(removed, added, n), removed[i], true) == (if i < n && twin then 1 else 0)
            && Saying(Removals(removed, added, n), removed[i], true) == (if i < n && !twin then 1 else 0)
  {
    hide Twin, Parents, Saying;
    if n == 0 {
      NothingSaid(removed[i], true);
    } else {
      GoneOnce(removed, added, n - 1, i);
      var t := Twin(Parents(removed), Parents(added), n - 1);
      var r, d := Renames(removed, added, n - 1), Removals(removed, added, n - 1);
      assert r + [] == r && d + [] == d;
      if t.Some? {
        TwinParent(removed, added, n - 1);
        SayingConcat(r, [Renamed(removed[n - 1], added[t.value])], removed[i], true);
        SayingOne(Renamed(removed[n - 1], added[t.value]), removed[i], true);
      } else {
        SayingConcat(d, [RemovedField(removed[n - 1])], removed[i], true);
        SayingOne(RemovedField(removed[n - 1]), removed[i], true);
      }
    }
  }

  lemma NothingSaid(path: string, gone: bool)
    ensures Saying([], path, gone) == 0
  {}

  /** How often the first n removed fields take the j-th added one as their new name. */
  lemma {:induction false} TakenOnce(removed: seq<string>, added: seq<string>, n: nat, j: nat)
    requires n <= |removed| && j < |added| && DistinctPaths(added)
    ensures Saying(Renames(removed, added, n), added[j], false)
         == if exists i :: 0 <= i < n && Twin(Parents(removed), Parents(added), i) == Some(j) then 1 else 0
    ensures Saying(Removals(removed, added, n), added[j], false) == 0
  {
    hide Twin, Parents, Saying;
    if n == 0 {
      NothingSaid(added[j], false);
    } else {
      TakenOnce(removed, added, n - 1, j);
      var t := Twin(Parents(removed), Parents(added), n - 1);
      var r, d := Renames(removed, added, n - 1), Removals(removed, added, n - 1);
      assert r + [] == r && d + [] == d;
      if t.Some? {
        TwinParent(removed, added, n - 1);
        SayingConcat(r, [Renamed(removed[n - 1], added[t.value])], added[j], false);
        SayingOne(Renamed(removed[n - 1], added[t.value]), added[j], false);
        if t.value == j {
          forall i | 0 <= i < n - 1 ensures Twin(Parents(removed), Parents(added), i) != Some(j) {
            if Twin(Parents(removed), Parents(added), i) == Some(j) { TwinsAreDistinct(Parents(removed), Parents(added), i, n - 1); }
          }
        }
      } else {
        SayingConcat(d, [RemovedField(removed[n - 1])], added[j], false);
        SayingOne(RemovedField(removed[n - 1]), added[j], false);
      }
    }
  }

  lemma {:induction false} AddedOnce(removed: seq<string>, added: seq<string>, n: nat, path: string)
    requires n <= |added| && DistinctPaths(added)
    ensures Saying(Additions(removed, added, n), path, true) == 0
    ensures forall j :: 0 <= j < |added| && added[j] == path ==>
              Saying(Additions(removed, added, n), path, false) == if j < n && IsLeft(Parents(removed), Parents(added), j) then 1 else 0
  {
    hide IsLeft, Parents, Saying;
    if n == 0 {
      NothingSaid(path, true);
      NothingSaid(path, false);
    } else {
      AddedOnce(removed, added, n - 1, path);
      var a := Additions(removed, added, n - 1);
      assert a + [] == a;
      if IsLeft(Parents(removed), Parents(added), n - 1) {
        SayingConcat(a, [AddedField(added[n - 1])], path, true);
        SayingConcat(a, [AddedField(added[n - 1])], path, false);
        SayingOne(AddedField(added[n - 1]), path, true);
        SayingOne(AddedField(added[n - 1]), path, false);
      }
    }
  }

  /** A path of neither list is never mentioned. */
  lemma {:induction false} OthersUnsaid(removed: seq<string>, added: seq<string>, n: nat, path: string)
    requires n <= |removed|
    ensures path !in removed ==> Saying(Renames(removed, added, n), path, true) == 0 && Saying(Removals(removed, added, n), path, true) == 0
    ensures path !in added ==> Saying(Renames(removed, added, n), path, false) == 0 && Saying(Removals(removed, added, n), path, false) == 0
  {
    hide Twin, Parents, Saying;
    if n == 0 {
      NothingSaid(path, true);
      NothingSaid(path, false);
    } else {
      OthersUnsaid(removed, added, n - 1, path);
      var t := Twin(Parents(removed), Parents(added), n - 1);
      var r, d := Renames(removed, added, n - 1), Removals(removed, added, n - 1);
      assert r + [] == r && d + [] == d && removed[n - 1] in removed;
      var s := if t.Some? && t.value < |added| then Renamed(removed[n - 1], added[t.value]) else RemovedField(removed[n - 1]);
      SayingOne(s, path, true);
      SayingOne(s, path, false);
      SayingConcat(if t.Some? then r else d, [s], path, true);
      SayingConcat(if t.Some? then r else d, [s], path, false);
      if t.Some? { TwinParent(removed, added, n - 1); assert added[t.value] in added; }
    }
  }

  lemma {:induction false} OthersNotAdded(removed: seq<string>, added: seq<string>, n: nat, path: string)
    requires n <= |added| && path !in added
    ensures Saying(Additions(removed, added, n), path, false) == 0
  {
    hide IsLeft, Parents, Saying;
    if n == 0 {
      NothingSaid(path, false);
    } else {
      OthersNotAdded(removed, added, n - 1, path);
      var a := Additions(removed, added, n - 1);
      assert a + [] == a && added[n - 1] in added;
      SayingConcat(a, [AddedField(added[n - 1])], path, false);
      SayingOne(AddedField(added[n - 1]), path, false);
    }
  }

  /** Of two lists of fields, every removed one is reported gone once and every added one new once; nothing else is. */
  lemma {:induction false} EachFieldOnce(removed: seq<string>, added: seq<string>, path: string)
    requires DistinctPaths(removed) && DistinctPaths(added)
    ensures Saying(FieldSignals(removed, added), path, true) == if path in removed then 1 else 0
    ensures Saying(FieldSignals(removed, added), path, false) == if path in added then 1 else 0
  {
    hide Twin, Parents, IsLeft, Saying;
    var r, d, a := Renames(removed, added, |removed|), Removals(removed, added, |removed|), Additions(removed, added, |added|);
    OthersUnsaid(removed, added, |removed|, path);
    AddedOnce(removed, added, |added|, path);
    SayingConcat(r, d, path, true);
    SayingConcat(r + d, a, path, true);
    SayingConcat(r, d, path, false);
    SayingConcat(r + d, a, path, false);
    if path in removed {
      var i :| 0 <= i < |removed| && removed[i] == path;
      GoneOnce(removed, added, |removed|, i);
    }
    if path in added {
      var j :| 0 <= j < |added| && added[j] == path;
      TakenOnce(removed, added, |removed|, j);
      AddedIsLeft(removed, added, j);
    } else {
      OthersNotAdded(removed, added, |added|, path);
    }
  }

  /** Does the first projection's shape have the path, and the second's not? Only where both bodies can be read. */
  predicate OnlyIn(a: Option<Json>, b: Option<Json>, path: string) {
    a.Some? && b.Some? && path in ShapePaths(a.value, "$") && path !in ShapePaths(b.value, "$")
  }

  /**
    The report of two projections: every path only the first one has is reported gone once, as removed or renamed;
    every path only the second one has is reported new once, as added or as a new name; no other path at all.
  */
  lemma {:induction false} EachPathOnce(statusBefore: Option<string>, statusAfter: Option<string>, before: Option<Json>, after: Option<Json>,
                                        path: string)
    ensures var signals := StatusSignals(statusBefore, statusAfter) + BodySignals(before, after);
            && Saying(signals, path, true) == (if OnlyIn(before, after, path) then 1 else 0)
            && Saying(signals, path, false) == (if OnlyIn(after, before, path) then 1 else 0)
  {
    hide FieldSignals, ShapePaths, Saying;
    var status, body := StatusSignals(statusBefore, statusAfter), BodySignals(before, after);
    SayingConcat(status, body, path, true);
    SayingConcat(status, body, path, false);
    NothingSaid(path, true);
    NothingSaid(path, false);
    if status != [] {
      SayingOne(status[0], path, true);
      SayingOne(status[0], path, false);
    }
    if before.Some? && after.Some? {
      var was, now := ShapePaths(before.value, "$"), ShapePaths(after.value, "$");
      EachFieldOnce(Missing(was, now), Missing(now, was), path);
    }
  }

  /** How many renames there are below one parent. */
  function RenamesUnder(signals: seq<Signal>, parent: string): nat {
    if signals == [] then 0
    else
      var last := signals[|signals| - 1];
      RenamesUnder(signals[..|signals| - 1], parent) + if last.Renamed? && Parent(last.from) == parent then 1 else 0
  }

  /** Below each parent there are as many renames as the fewer of removed and added fields, and no rename crosses parents. */
  lemma {:induction false} RenamesPerParent(removed: seq<string>, added: seq<string>, n: nat, parent: string)
    requires n <= |removed|
    ensures RenamesUnder(Renames(removed, added, n), parent) == Min(Count(Parents(removed)[..n], parent), Count(Parents(added), parent))
    ensures forall k :: 0 <= k < |Renames(removed, added, n)| ==>
              var s := Renames(removed, added, n)[k]; s.Renamed? && Parent(s.from) == Parent(s.to)
  {
    PairCount(Parents(removed), Parents(added), n, parent);
    RenamesCount(removed, added, n, parent);
  }

  lemma {:induction false} UnderMore(signals: seq<Signal>, s: Signal, parent: string)
    ensures RenamesUnder(signals + [s], parent) == RenamesUnder(signals, parent) + if s.Renamed? && Parent(s.from) == parent then 1 else 0
  {
    assert (signals + [s])[..|signals|] == signals;
  }

  lemma {:induction false} RenamesCount(removed: seq<string>, added: seq<string>, n: nat, parent: string)
    requires n <= |removed|
    ensures RenamesUnder(Renames(removed, added, n), parent) == Pairs(Parents(removed), Parents(added), n, parent)
    ensures forall k :: 0 <= k < |Renames(removed, added, n)| ==>
              var s := Renames(removed, added, n)[k]; s.Renamed? && Parent(s.from) == Parent(s.to)
  {
    hide Twin, Parent, RenamesUnder;
    if n == 0 {
      NoRenames(parent);
    } else {
      RenamesCount(removed, added, n - 1, parent);
      var t := Twin(Parents(removed), Parents(added), n - 1);
      var r := Renames(removed, added, n - 1);
      assert Parents(removed)[n - 1] == Parent(removed[n - 1]);
      if t.Some? {
        TwinParent(removed, added, n - 1);
        UnderMore(r, Renamed(removed[n - 1], added[t.value]), parent);
      } else {
        assert r + [] == r;
      }
    }
  }

  lemma NoRenames(parent: string)
    ensures RenamesUnder([], parent) == 0
  {}
}

/**
  What the match rules let through: when two bodies that differ in one place, in the keys of an object or in the
  value of a scalar, have one projection, for whatever rules a case states and in whatever order.
*/
module MatchShows {
  import opened Common
  import opened Json
  import opened Match

  // ---- bodies that differ in one place ----

  /** The node one step below. */
  function Inner(node: Node, step: Segment): Option<Node> {
    match step
    case Index(k) => if node.List? && k < |node.items| then Some(node.items[k]) else None
    case Key(name) =>
      if node.Object? && FieldAt(node.fields, name) < |node.fields| then Some(node.fields[FieldAt(node.fields, name)].node) else None
    case Each => None
  }

  /** Two lists or two objects that differ at most in the node one step below. */
  predicate SameBeside(x: Node, y: Node, step: Segment) {
    && Inner(x, step).Some? && Inner(y, step).Some?
    && match step
       case Index(k) => |x.items| == |y.items| && forall i :: 0 <= i < |x.items| && i != k ==> x.items[i] == y.items[i]
       case Key(name) =>
         && |x.fields| == |y.fields| && FieldAt(x.fields, name) == FieldAt(y.fields, name)
         && forall i :: 0 <= i < |x.fields| && i != FieldAt(x.fields, name) ==> x.fields[i] == y.fields[i]
       case Each => false
  }

  /** What differs there: a key that one of two objects lacks, or the value of a scalar. */
  datatype Change = OtherKeys | OtherValue(before: Json, after: Json)

  predicate IsScalar(value: Json) {
    !value.Arr? && !value.Obj?
  }

  ghost predicate DiffersHere(x: Node, y: Node, c: Change) {
    match c
    case OtherKeys => x.Object? && y.Object? && exists name: string :: HasName(x, name) != HasName(y, name)
    case OtherValue(u, v) => x == Scalar(u) && y == Scalar(v) && u != v && IsScalar(u) && IsScalar(v)
  }

  /** Two bodies that differ in one place only. */
  ghost predicate Differs(x: Node, y: Node, place: seq<Segment>, c: Change)
    decreases |place|
  {
    if place == [] then DiffersHere(x, y, c)
    else SameBeside(x, y, place[0]) && Differs(Inner(x, place[0]).value, Inner(y, place[0]).value, place[1..], c)
  }

  // ---- the way down to that place, with the marks rules have put on it ----

  datatype Layer = Down(step: Segment) | Mark(edit: Edit)

  predicate IsMark(node: Node, edit: Edit) {
    match edit
    case Normalize(rule) => node.Normalized? && node.rule == rule
    case Compare => node.Verbatim?
    case _ => false
  }

  /** Two nodes that differ only at the end of one way down, and carry the same marks along it. */
  ghost predicate Apart(x: Node, y: Node, way: seq<Layer>, c: Change)
    decreases |way|
  {
    if way == [] then DiffersHere(x, y, c)
    else
      match way[0]
      case Mark(edit) => IsMark(x, edit) && IsMark(y, edit) && Apart(x.inner, y.inner, way[1..], c)
      case Down(step) => SameBeside(x, y, step) && Apart(Inner(x, step).value, Inner(y, step).value, way[1..], c)
  }

  function Plain(place: seq<Segment>): (r: seq<Layer>)
    ensures |r| == |place|
  {
    seq(|place|, i requires 0 <= i < |place| => Down(place[i]))
  }

  lemma {:induction false} DiffersIsApart(x: Node, y: Node, place: seq<Segment>, c: Change)
    ensures Differs(x, y, place, c) <==> Apart(x, y, Plain(place), c)
    decreases |place|
  {
    hide DiffersHere;
    if place != [] {
      assert Plain(place)[1..] == Plain(place[1..]);
      if SameBeside(x, y, place[0]) {
        DiffersIsApart(Inner(x, place[0]).value, Inner(y, place[0]).value, place[1..], c);
      }
    }
  }

  function Below(layer: Layer, rest: Option<seq<Layer>>): Option<seq<Layer>> {
    if rest.Some? then Some([layer] + rest.value) else None
  }

  /**
    The way after one more rule; None when the rule overwrites the way. A path goes through a mark only by the
    mark's own properties, and turns the mark into a plain object when it does.
  */
  function Onward(way: seq<Layer>, path: seq<Segment>, edit: Edit): Option<seq<Layer>>
    decreases |path|
  {
    if path == [] then (if Overwrites(edit) then None else Some([Mark(edit)] + way))
    else if way == [] then Some(way)
    else
      match way[0]
      case Down(step) => if Selects(path[0], step) then Below(way[0], Onward(way[1..], path[1..], edit)) else Some(way)
      case Mark(mark) =>
        if path[0] == Key("value") then Below(Down(Key("value")), Onward(way[1..], path[1..], edit))
        else if path[0] == Key("rule") && mark.Normalize? then Some([Down(Key("value"))] + way[1..])
        else Some(way)
  }

  /** The way to a place after all these rules. */
  function WayAfter(place: seq<Segment>, targets: seq<Target>): Option<seq<Layer>> {
    if targets == [] then Some(Plain(place))
    else
      var way := WayAfter(place, targets[..|targets| - 1]);
      if way.Some? then Onward(way.value, targets[|targets| - 1].path, targets[|targets| - 1].edit) else None
  }

  predicate Selects(s: Segment, step: Segment) {
    s == step || (s.Each? && step.Index?)
  }

  /** A rule works on both bodies alike beside a step, and below it only when it selects it. */
  lemma {:induction false} EditInside(x: Node, y: Node, step: Segment, path: seq<Segment>, edit: Edit)
    requires SameBeside(x, y, step) && path != []
    ensures var u, v := ReplaceAt(x, path, edit), ReplaceAt(y, path, edit);
            && SameBeside(u, v, step)
            && Inner(u, step).value == (if Selects(path[0], step) then ReplaceAt(Inner(x, step).value, path[1..], edit) else Inner(x, step).value)
            && Inner(v, step).value == (if Selects(path[0], step) then ReplaceAt(Inner(y, step).value, path[1..], edit) else Inner(y, step).value)
  {
    if step.Key? { EditInsideKey(x, y, step, path, edit); }
  }

  lemma {:induction false} EditInsideKey(x: Node, y: Node, step: Segment, path: seq<Segment>, edit: Edit)
    requires SameBeside(x, y, step) && path != [] && step.Key?
    ensures var u, v := ReplaceAt(x, path, edit), ReplaceAt(y, path, edit);
            && SameBeside(u, v, step)
            && Inner(u, step).value == (if Selects(path[0], step) then ReplaceAt(Inner(x, step).value, path[1..], edit) else Inner(x, step).value)
            && Inner(v, step).value == (if Selects(path[0], step) then ReplaceAt(Inner(y, step).value, path[1..], edit) else Inner(y, step).value)
  {
    hide ReplaceAt, Entries, FieldAt;
    ObjectEntries(x);
    ObjectEntries(y);
    SameNames(x, y, step);
    if path[0].Key? && HasField(x, path[0].key) {
      FieldInside(x, step, path, edit);
      FieldInside(y, step, path, edit);
    } else {
      Unselected(x, path, edit);
      Unselected(y, path, edit);
    }
  }

  lemma {:induction false} SameNames(x: Node, y: Node, step: Segment)
    requires SameBeside(x, y, step) && step.Key?
    ensures forall name :: FieldAt(x.fields, name) == FieldAt(y.fields, name)
  {
    forall name ensures FieldAt(x.fields, name) == FieldAt(y.fields, name) { SameField(x.fields, y.fields, name); }
  }

  lemma {:induction false} FieldInside(x: Node, step: Segment, path: seq<Segment>, edit: Edit)
    requires step.Key? && Inner(x, step).Some? && path != [] && path[0].Key? && HasField(x, path[0].key)
    ensures var u, k := ReplaceAt(x, path, edit), FieldAt(x.fields, path[0].key);
            && u.Object? && |u.fields| == |x.fields| && FieldAt(u.fields, step.key) == FieldAt(x.fields, step.key)
            && k < |x.fields| && u.fields[k] == Field(path[0].key, ReplaceAt(x.fields[k].node, path[1..], edit))
            && forall i :: 0 <= i < |x.fields| && i != k ==> u.fields[i] == x.fields[i]
  {
    SameField(ReplaceAt(x, path, edit).fields, x.fields, step.key);
  }

  lemma {:induction false} OneInside(x: Node, y: Node, step: Segment)
    requires SameBeside(x, y, step) && Inner(x, step) == Inner(y, step)
    ensures x == y
  {
    if step.Index? {
      assert x.items == y.items;
    } else {
      assert x.fields == y.fields;
    }
  }

  lemma {:induction false} StaysHere(x: Node, y: Node, c: Change, path: seq<Segment>, edit: Edit)
    requires DiffersHere(x, y, c) && path != []
    ensures DiffersHere(ReplaceAt(x, path, edit), ReplaceAt(y, path, edit), c)
  {
    if c.OtherKeys? {
      hide ReplaceAt;
      KeysStay(x, [], path, edit);
      KeysStay(y, [], path, edit);
      AtNothing(x);
      AtNothing(y);
      AtNothing(ReplaceAt(x, path, edit));
      AtNothing(ReplaceAt(y, path, edit));
      var name :| HasName(x, name) != HasName(y, name);
      assert HasName(ReplaceAt(x, path, edit), name) != HasName(ReplaceAt(y, path, edit), name);
    }
  }

  lemma AtNothing(node: Node)
    ensures At(node, []) == Some(node)
  {}

  /** Nodes with a mark on the way are no sentinels, and neither are lists, objects and scalars. */
  lemma NoSentinel(x: Node, y: Node, way: seq<Layer>, c: Change)
    requires Apart(x, y, way, c)
    ensures !x.Redacted? && !x.Excluded? && !y.Redacted? && !y.Excluded?
  {}

  lemma {:induction false} Marks(x: Node, y: Node, way: seq<Layer>, c: Change, edit: Edit)
    requires Apart(x, y, way, c) && !Overwrites(edit)
    ensures Apart(Edited(edit, x), Edited(edit, y), [Mark(edit)] + way, c)
  {
    hide DiffersHere;
    NoSentinel(x, y, way, c);
    assert ([Mark(edit)] + way)[1..] == way;
  }

  /** A rule run on both bodies leaves them apart along the way as it then is, or equal when it overwrites the way. */
  lemma {:induction false} OneRule(x: Node, y: Node, way: seq<Layer>, c: Change, path: seq<Segment>, edit: Edit)
    requires Apart(x, y, way, c)
    ensures var after := Onward(way, path, edit);
            var u, v := ReplaceAt(x, path, edit), ReplaceAt(y, path, edit);
            if after.None? then u == v else Apart(u, v, after.value, c)
    decreases |path|
  {
    hide ReplaceAt, SameBeside, Inner, DiffersHere, Overwrites;
    if path == [] {
      EditedHere(x, edit);
      EditedHere(y, edit);
      if Overwrites(edit) { Overwritten(x, y, edit); } else { Marks(x, y, way, c, edit); }
    } else if way == [] {
      StaysHere(x, y, c, path, edit);
    } else if way[0].Down? {
      OneRuleDown(x, y, way, c, path, edit);
    } else {
      OneRuleThrough(x, y, way, c, path, edit);
    }
  }

  lemma EditedHere(x: Node, edit: Edit)
    ensures ReplaceAt(x, [], edit) == Edited(edit, x)
  {}

  lemma Overwritten(x: Node, y: Node, edit: Edit)
    requires Overwrites(edit)
    ensures Edited(edit, x) == Edited(edit, y)
  {}

  lemma {:induction false} OneRuleDown(x: Node, y: Node, way: seq<Layer>, c: Change, path: seq<Segment>, edit: Edit)
    requires Apart(x, y, way, c) && path != [] && way != [] && way[0].Down?
    ensures var after := Onward(way, path, edit);
            var u, v := ReplaceAt(x, path, edit), ReplaceAt(y, path, edit);
            if after.None? then u == v else Apart(u, v, after.value, c)
    decreases |path|, 0
  {
    hide ReplaceAt, SameBeside, Inner, DiffersHere, Overwrites;
    var step := way[0].step;
    var u, v := ReplaceAt(x, path, edit), ReplaceAt(y, path, edit);
    Both(x, y, step);
    EditInside(x, y, step, path, edit);
    if Selects(path[0], step) {
      var below := Onward(way[1..], path[1..], edit);
      OneRule(Inner(x, step).value, Inner(y, step).value, way[1..], c, path[1..], edit);
      if below.None? {
        Both(u, v, step);
        OneInside(u, v, step);
      } else {
        assert ([way[0]] + below.value)[1..] == below.value;
      }
    }
  }

  /** A path that enters a mark by `value` works inside it, and what is left of the mark is an object. */
  lemma {:induction false} OneRuleThrough(x: Node, y: Node, way: seq<Layer>, c: Change, path: seq<Segment>, edit: Edit)
    requires Apart(x, y, way, c) && path != [] && way != [] && way[0].Mark?
    ensures var after := Onward(way, path, edit);
            var u, v := ReplaceAt(x, path, edit), ReplaceAt(y, path, edit);
            if after.None? then u == v else Apart(u, v, after.value, c)
    decreases |path|, 0
  {
    hide DiffersHere, Overwrites, ReplaceAt;
    var u, v := ReplaceAt(x, path, edit), ReplaceAt(y, path, edit);
    EnterMark(x, way[0].edit, path, edit);
    EnterMark(y, way[0].edit, path, edit);
    if path[0] == Key("value") {
      var below := Onward(way[1..], path[1..], edit);
      OneRule(x.inner, y.inner, way[1..], c, path[1..], edit);
      if below.Some? {
        assert ([Down(Key("value"))] + below.value)[1..] == below.value;
      }
    } else if path[0] == Key("rule") && x.Normalized? {
      assert ([Down(Key("value"))] + way[1..])[1..] == way[1..];
    }
  }

  lemma {:induction false} EnterMark(x: Node, mark: Edit, path: seq<Segment>, edit: Edit)
    requires IsMark(x, mark) && path != []
    ensures var u := ReplaceAt(x, path, edit);
            if path[0] == Key("value") then
              && u.Object? && |u.fields| == (if x.Verbatim? then 1 else 2)
              && u.fields[|u.fields| - 1] == Field("value", ReplaceAt(x.inner, path[1..], edit))
              && (x.Normalized? ==> u.fields[0] == Entries(x)[0])
            else if path[0] == Key("rule") && x.Normalized? then
              u == Object([Field("rule", ReplaceAt(Entries(x)[0].node, path[1..], edit)), Field("value", x.inner)])
            else u == x
  {
    var es := Entries(x);
    if x.Normalized? {
      assert es[1..][0].name == "value";
    }
  }

  /** All the rules of a case. */
  lemma {:induction false} AllRules(a: Node, b: Node, place: seq<Segment>, c: Change, targets: seq<Target>)
    requires Differs(a, b, place, c)
    ensures var way := WayAfter(place, targets);
            if way.None? then Apply(a, targets) == Apply(b, targets) else Apart(Apply(a, targets), Apply(b, targets), way.value, c)
  {
    hide ReplaceAt, Apart, Differs, Onward;
    if targets == [] {
      DiffersIsApart(a, b, place, c);
    } else {
      var front, last := targets[..|targets| - 1], targets[|targets| - 1];
      AllRules(a, b, place, c, front);
      if WayAfter(place, front).Some? {
        OneRule(Apply(a, front), Apply(b, front), WayAfter(place, front).value, c, last.path, last.edit);
      }
    }
  }

  // ---- what is rendered of such bodies ----

  lemma {:induction false} RenderInside(x: Node, y: Node, step: Segment, literal: bool, text: Json -> string)
    requires WellKeyed(x) && WellKeyed(y) && SameBeside(x, y, step)
    ensures Render(x, literal, text) == Render(y, literal, text)
       <==> Render(Inner(x, step).value, literal, text) == Render(Inner(y, step).value, literal, text)
  {
    if step.Index? {
      var u, v := Render(x, literal, text).items, Render(y, literal, text).items;
      assert u[step.index] == Render(x.items[step.index], literal, text) && v[step.index] == Render(y.items[step.index], literal, text);
      if u[step.index] == v[step.index] { assert u == v; }
    } else {
      var k := FieldAt(x.fields, step.key);
      RenderedField(x.fields, k, literal, text);
      RenderedField(y.fields, k, literal, text);
      var u, v := Rendered(x.fields, literal, text), Rendered(y.fields, literal, text);
      if u[k] == v[k] { assert u == v; }
    }
  }

  lemma InnerKeyed(x: Node, step: Segment)
    requires WellKeyed(x) && Inner(x, step).Some?
    ensures WellKeyed(Inner(x, step).value)
  {}

  lemma Both(x: Node, y: Node, step: Segment)
    requires SameBeside(x, y, step)
    ensures Inner(x, step).Some? && Inner(y, step).Some?
  {}

  /** A list sorted by text shows a change of one element's rendering, and nothing else. */
  lemma {:induction false} SortedShows(x: Node, y: Node, step: Segment, literal: bool, text: Json -> string)
    requires SameBeside(x, y, step) && step.Index?
    ensures Render(Normalized(Sorted, x), literal, text) == Render(Normalized(Sorted, y), literal, text)
       <==> Render(Inner(x, step).value, literal, text) == Render(Inner(y, step).value, literal, text)
  {
    hide SortByText;
    var u := seq(|x.items|, i requires 0 <= i < |x.items| => Render(x.items[i], literal, text));
    var v := seq(|y.items|, i requires 0 <= i < |y.items| => Render(y.items[i], literal, text));
    SortTextSorts(u, text);
    SortTextSorts(v, text);
    if u[step.index] != v[step.index] {
      OneApart(u, v, step.index);
    } else {
      assert u == v;
    }
  }

  lemma {:induction false} OneApart(u: seq<Json>, v: seq<Json>, k: nat)
    requires |u| == |v| && k < |u| && u[k] != v[k] && forall i :: 0 <= i < |u| && i != k ==> u[i] == v[i]
    ensures multiset(u) != multiset(v)
  {
    assert v == u[k := v[k]];
    assert multiset(v) == multiset(u) - multiset{u[k]} + multiset{v[k]};
    assert multiset(v)[v[k]] == multiset(u)[v[k]] + 1;
  }

  /** Are two scalars rendered alike? */
  predicate ScalarsAlike(c: Change, literal: bool) {
    c.OtherValue? && !literal && TypeName(c.before) == TypeName(c.after)
  }

  /** Does a `length` rule stand right on the change, and see no difference there? */
  predicate LengthsAlike(c: Change, literal: bool) {
    if c.OtherValue? && c.before.Str? && c.after.Str? then |c.before.text| == |c.after.text| else ScalarsAlike(c, literal)
  }

  /** Is the change out of sight along this way: counted away by a `length` on a list, or one type or length at the end? */
  predicate Unseen(way: seq<Layer>, c: Change, literal: bool)
    decreases |way|
  {
    if way == [] then ScalarsAlike(c, literal)
    else if way[0].Down? then Unseen(way[1..], c, literal)
    else if way[0].edit.Compare? then Unseen(way[1..], c, true)
    else if way[0].edit == Normalize(Length) && |way| == 1 then LengthsAlike(c, literal)
    else if way[0].edit == Normalize(Length) && way[1].Down? && way[1].step.Index? then true
    else Unseen(way[1..], c, literal)
  }

  lemma {:induction false} HereRender(x: Node, y: Node, c: Change, literal: bool, text: Json -> string)
    requires DiffersHere(x, y, c)
    ensures Render(x, literal, text) == Render(y, literal, text) <==> ScalarsAlike(c, literal)
    ensures Render(Normalized(Length, x), literal, text) == Render(Normalized(Length, y), literal, text) <==> LengthsAlike(c, literal)
    ensures Render(Normalized(Sorted, x), literal, text) == Render(Normalized(Sorted, y), literal, text) <==> ScalarsAlike(c, literal)
  {
    if c.OtherKeys? {
      KeysRender(x, y, literal, text);
    } else {
      hide TypeName;
      TypeNamesDiffer(c.before, c.after);
    }
  }

  lemma {:induction false} KeysRender(x: Node, y: Node, literal: bool, text: Json -> string)
    requires DiffersHere(x, y, OtherKeys)
    ensures Render(x, literal, text) != Render(y, literal, text)
  {
    hide SortMembers, HasName;
    var name :| HasName(x, name) != HasName(y, name);
    NamesAre(x, name);
    NamesAre(y, name);
    KeysAreSorted(x.fields, literal, text, name);
    KeysAreSorted(y.fields, literal, text, name);
  }

  lemma {:induction false} TypeNamesDiffer(u: Json, v: Json)
    requires IsScalar(u) && IsScalar(v)
    ensures TypeName(u) == TypeName(v) <==> SameType(u, v)
  {
    assert "null"[0] == 'n' && "boolean"[0] == 'b' && "number"[1] == 'u' && "string"[0] == 's' && "null"[1] == 'u';
    assert |"null"| == 4 && |"boolean"| == 7 && |"number"| == 6 && |"string"| == 6 && "number"[0] == 'n';
  }

  lemma {:induction false} ApartRender(x: Node, y: Node, way: seq<Layer>, c: Change, literal: bool, text: Json -> string)
    requires WellKeyed(x) && WellKeyed(y) && Apart(x, y, way, c)
    ensures Render(x, literal, text) == Render(y, literal, text) <==> Unseen(way, c, literal)
    decreases |way|
  {
    if way == [] {
      HereRender(x, y, c, literal, text);
    } else if way[0].Down? {
      hide SameBeside, WellKeyed, DiffersHere, Render;
      Both(x, y, way[0].step);
      InnerKeyed(x, way[0].step);
      InnerKeyed(y, way[0].step);
      RenderInside(x, y, way[0].step, literal, text);
      ApartRender(Inner(x, way[0].step).value, Inner(y, way[0].step).value, way[1..], c, literal, text);
    } else {
      MarkRender(x, y, way, c, literal, text);
    }
  }

  lemma {:induction false} MarkRender(x: Node, y: Node, way: seq<Layer>, c: Change, literal: bool, text: Json -> string)
    requires WellKeyed(x) && WellKeyed(y) && Apart(x, y, way, c) && way != [] && way[0].Mark?
    ensures Render(x, literal, text) == Render(y, literal, text) <==> Unseen(way, c, literal)
    decreases |way|, 0
  {
    hide SameBeside, SortByText, SortMembers, DiffersHere;
    ApartRender(x.inner, y.inner, way[1..], c, literal || x.Verbatim?, text);
    if |way| == 1 {
      HereRender(x.inner, y.inner, c, literal, text);
    } else if x.Normalized? {
      Shapes(x.inner, y.inner, way[1]);
      if x.inner.List? {
        var step := way[1].step;
        if x.rule.Sorted? {
          SortedShows(x.inner, y.inner, step, literal, text);
          RenderInside(x.inner, y.inner, step, literal, text);
        }
      }
    }
  }

  /** Nodes along a way are lists for an index, objects for a key and marks for a mark. */
  lemma Shapes(x: Node, y: Node, layer: Layer)
    requires if layer.Down? then SameBeside(x, y, layer.step) else IsMark(x, layer.edit) && IsMark(y, layer.edit)
    ensures (layer.Down? && layer.step.Index? <==> x.List?) && (layer.Down? && layer.step.Index? <==> y.List?)
    ensures x.List? ==> |x.items| == |y.items|
    ensures !x.Scalar? && !y.Scalar?
  {}

  /**
    Two bodies that differ in one place have one projection exactly when the rules overwrite that place, or leave the
    change out of sight on the way down to it: for all rules, in whatever order and wherever their paths meet.
  */
  lemma {:induction false} ChangeIsHidden(a: Node, b: Node, place: seq<Segment>, c: Change, rules: Rules, text: Json -> string)
    requires WellKeyed(a) && WellKeyed(b) && Differs(a, b, place, c)
    ensures var way := WayAfter(place, Targets(rules));
            Project(a, rules, text) == Project(b, rules, text) <==> way.None? || Unseen(way.value, c, false)
  {
    hide Apply, Targets, Render, Differs, WellKeyed, Apart, WayAfter, Unseen;
    var targets := Targets(rules);
    ApplyKeeps(a, targets);
    ApplyKeeps(b, targets);
    AllRules(a, b, place, c, targets);
    if WayAfter(place, targets).Some? {
      ApartRender(Apply(a, targets), Apply(b, targets), WayAfter(place, targets).value, c, false, text);
    }
  }

  // ---- rules none of which enters another's mark ----

  predicate Enters(p: seq<Segment>, q: seq<Segment>)
    decreases |q|
  {
    p != [] && (q == [] || ((Selects(p[0], q[0]) || Selects(q[0], p[0])) && Enters(p[1..], q[1..])))
  }

  /** No rule's path lies below the path of an earlier `normalize` or `compare`. */
  ghost predicate NoneEnters(targets: seq<Target>) {
    forall i, j :: 0 <= i < j < |targets| && !Overwrites(targets[i].edit) ==> !Enters(targets[j].path, targets[i].path)
  }

  /** Does the rule select what is m steps down the place? */
  predicate Stands(t: Target, place: seq<Segment>, m: nat) {
    Reaches(t.path, place) && |t.path| == m
  }

  /** A redaction or exclusion at or above the place. */
  predicate Suppressed(targets: seq<Target>, place: seq<Segment>) {
    exists i :: 0 <= i < |targets| && Reaches(targets[i].path, place) && Overwrites(targets[i].edit)
  }

  /** The first rule that selects the node m steps down the place is a `length`. */
  predicate Counted(targets: seq<Target>, place: seq<Segment>, m: nat) {
    exists i :: 0 <= i < |targets| && Stands(targets[i], place, m) && targets[i].edit == Normalize(Length)
                && forall j :: 0 <= j < i ==> !Stands(targets[j], place, m)
  }

  /** A `length` that replaces a list above the place by its number of elements. */
  predicate CountedAway(targets: seq<Target>, place: seq<Segment>) {
    exists m: nat :: m < |place| && place[m].Index? && Counted(targets, place, m)
  }

  /** A `compare` at or above the place. */
  predicate Compared(targets: seq<Target>, place: seq<Segment>) {
    exists i :: 0 <= i < |targets| && Reaches(targets[i].path, place) && targets[i].edit.Compare?
  }

  /** What the rules do m steps down the place, in order. */
  function EditsAt(targets: seq<Target>, place: seq<Segment>, m: nat): seq<Edit> {
    if targets == [] then []
    else
      var last := targets[|targets| - 1];
      EditsAt(targets[..|targets| - 1], place, m) + if Stands(last, place, m) then [last.edit] else []
  }

  function EditsAlong(targets: seq<Target>, place: seq<Segment>): (r: seq<seq<Edit>>)
    ensures |r| == |place| + 1
  {
    seq(|place| + 1, m requires 0 <= m < |place| + 1 => EditsAt(targets, place, m))
  }

  /** The way with these marks, innermost first, at each step. */
  function Layers(marks: seq<seq<Edit>>, place: seq<Segment>): seq<Layer>
    requires |marks| == |place| + 1
    decreases |place|, |marks[0]|
  {
    if marks[0] != [] then [Mark(marks[0][|marks[0]| - 1])] + Layers(marks[0 := marks[0][..|marks[0]| - 1]], place)
    else if place == [] then []
    else [Down(place[0])] + Layers(marks[1..], place[1..])
  }

  /** Does the path go on from the node m steps down the place? */
  predicate Passes(path: seq<Segment>, place: seq<Segment>, m: nat)
    decreases m
  {
    path != [] && (m == 0 || (place != [] && Selects(path[0], place[0]) && Passes(path[1..], place[1..], m - 1)))
  }

  lemma {:induction false} OnwardLayers(marks: seq<seq<Edit>>, place: seq<Segment>, path: seq<Segment>, edit: Edit)
    requires |marks| == |place| + 1
    requires forall m: nat :: m <= |place| && Passes(path, place, m) ==> marks[m] == []
    ensures Reaches(path, place) ==> |path| <= |place|
    ensures Onward(Layers(marks, place), path, edit) ==
            if !Reaches(path, place) then Some(Layers(marks, place))
            else if Overwrites(edit) then None
            else Some(Layers(marks[|path| := marks[|path|] + [edit]], place))
    decreases |path|
  {
    if path == [] {
      if !Overwrites(edit) {
        var more := marks[0 := marks[0] + [edit]];
        assert more[0][..|more[0]| - 1] == marks[0];
        assert more[0 := marks[0]] == marks;
      }
    } else {
      assert Passes(path, place, 0);
      if place != [] && Selects(path[0], place[0]) {
        forall m: nat | m <= |place[1..]| && Passes(path[1..], place[1..], m) ensures marks[1..][m] == [] {
          assert Passes(path, place, m + 1);
        }
        OnwardLayers(marks[1..], place[1..], path[1..], edit);
        assert ([Down(place[0])] + Layers(marks[1..], place[1..]))[1..] == Layers(marks[1..], place[1..]);
        if Reaches(path, place) {
          var more := marks[|path| := marks[|path|] + [edit]];
          assert more[1..] == marks[1..][|path| - 1 := marks[1..][|path| - 1] + [edit]];
        }
      }
    }
  }

  lemma {:induction false} ReachesWithin(path: seq<Segment>, place: seq<Segment>)
    requires Reaches(path, place)
    ensures |path| <= |place|
    decreases |path|
  {
    if path != [] { ReachesWithin(path[1..], place[1..]); }
  }

  lemma {:induction false} EntersThere(p: seq<Segment>, q: seq<Segment>, place: seq<Segment>)
    requires Reaches(q, place) && Passes(p, place, |q|)
    ensures Enters(p, q)
    decreases |q|
  {
    if q != [] { EntersThere(p[1..], q[1..], place[1..]); }
  }

  lemma {:induction false} EditsStand(targets: seq<Target>, place: seq<Segment>, m: nat)
    ensures EditsAt(targets, place, m) != [] <==> exists i :: 0 <= i < |targets| && Stands(targets[i], place, m)
    ensures Compare in EditsAt(targets, place, m) <==> exists i :: 0 <= i < |targets| && Stands(targets[i], place, m) && targets[i].edit.Compare?
    ensures CountsFirst(EditsAt(targets, place, m)) <==> Counted(targets, place, m)
  {
    hide Stands;
    if targets != [] {
      var front, last := targets[..|targets| - 1], targets[|targets| - 1];
      EditsStand(front, place, m);
      var edits := EditsAt(front, place, m);
      forall i | 0 <= i < |front| ensures front[i] == targets[i] {}
      if Stands(last, place, m) {
        assert Compare in EditsAt(targets, place, m) <==> Compare in edits || last.edit.Compare?;
        assert targets[|targets| - 1] == last;
        if edits == [] && last.edit == Normalize(Length) {
          assert forall j :: 0 <= j < |targets| - 1 ==> !Stands(front[j], place, m);
        }
      }
    }
  }

  predicate CountsFirst(edits: seq<Edit>) {
    edits != [] && edits[0] == Normalize(Length)
  }

  lemma {:induction false} WayIsLayers(place: seq<Segment>, targets: seq<Target>)
    requires NoneEnters(targets)
    ensures WayAfter(place, targets) == if Suppressed(targets, place) then None else Some(Layers(EditsAlong(targets, place), place))
  {
    hide Layers, Onward, Reaches, Enters, Passes, Overwrites;
    if targets == [] {
      NoMarks(place);
    } else {
      var front, last := targets[..|targets| - 1], targets[|targets| - 1];
      WayIsLayers(place, front);
      SuppressedGrows(targets, place);
      if !Suppressed(front, place) {
        var marks := EditsAlong(front, place);
        forall m: nat | m <= |place| && Passes(last.path, place, m) ensures marks[m] == [] {
          EditsStand(front, place, m);
          if i :| 0 <= i < |front| && Stands(front[i], place, m) {
            assert targets[i] == front[i];
            EntersThere(last.path, targets[i].path, place);
          }
        }
        OnwardLayers(marks, place, last.path, last.edit);
        AlongGrows(targets, place);
      }
    }
  }

  lemma {:induction false} AlongGrows(targets: seq<Target>, place: seq<Segment>)
    requires targets != [] && (Reaches(targets[|targets| - 1].path, place) ==> |targets[|targets| - 1].path| <= |place|)
    ensures var last, marks := targets[|targets| - 1], EditsAlong(targets[..|targets| - 1], place);
            EditsAlong(targets, place) ==
              if Reaches(last.path, place) then marks[|last.path| := marks[|last.path|] + [last.edit]] else marks
  {
    hide Reaches;
    var last, marks := targets[|targets| - 1], EditsAlong(targets[..|targets| - 1], place);
    forall m: nat | m <= |place|
      ensures EditsAlong(targets, place)[m] == if Reaches(last.path, place) && |last.path| == m then marks[m] + [last.edit] else marks[m] {
      assert EditsAlong(targets, place)[m] == EditsAt(targets, place, m);
    }
  }

  lemma {:induction false} SuppressedGrows(targets: seq<Target>, place: seq<Segment>)
    requires targets != []
    ensures var last := targets[|targets| - 1];
            Suppressed(targets, place) <==> Suppressed(targets[..|targets| - 1], place) || (Reaches(last.path, place) && Overwrites(last.edit))
  {
    hide Reaches, Overwrites;
    var front := targets[..|targets| - 1];
    if i :| 0 <= i < |front| && Reaches(front[i].path, place) && Overwrites(front[i].edit) {
      assert targets[i] == front[i];
    }
    if i :| 0 <= i < |targets| && Reaches(targets[i].path, place) && Overwrites(targets[i].edit) {
      if i < |front| { assert targets[i] == front[i]; }
    }
  }

  lemma {:induction false} NoMarks(place: seq<Segment>)
    ensures Layers(EditsAlong([], place), place) == Plain(place)
    decreases |place|
  {
    if place != [] {
      NoMarks(place[1..]);
      assert EditsAlong([], place)[1..] == EditsAlong([], place[1..]);
    }
  }

  /** What the way with these marks leaves out of sight. */
  ghost predicate UnseenAlong(marks: seq<seq<Edit>>, place: seq<Segment>, c: Change, literal: bool)
    requires |marks| == |place| + 1
  {
    var shown := literal || exists m: nat :: m <= |place| && Compare in marks[m];
    || (exists m: nat :: m < |place| && place[m].Index? && CountsFirst(marks[m]))
    || if CountsFirst(marks[|place|]) then LengthsAlike(c, shown) else ScalarsAlike(c, shown)
  }

  lemma {:induction false} UnseenLayers(marks: seq<seq<Edit>>, place: seq<Segment>, c: Change, literal: bool)
    requires |marks| == |place| + 1
    ensures Unseen(Layers(marks, place), c, literal) <==> UnseenAlong(marks, place, c, literal)
    decreases |place|, |marks[0]|
  {
    hide LengthsAlike, ScalarsAlike;
    var way := Layers(marks, place);
    if marks[0] == [] {
      if place != [] {
        assert way[1..] == Layers(marks[1..], place[1..]);
        UnseenLayers(marks[1..], place[1..], c, literal);
        UnseenStep(marks, place, c, literal);
      }
    } else {
      var last := marks[0][|marks[0]| - 1];
      var fewer := marks[0 := marks[0][..|marks[0]| - 1]];
      assert way[1..] == Layers(fewer, place);
      UnseenLayers(fewer, place, c, literal || last.Compare?);
      UnseenPeel(marks, place, c, literal);
    }
  }

  lemma {:induction false} UnseenStep(marks: seq<seq<Edit>>, place: seq<Segment>, c: Change, literal: bool)
    requires |marks| == |place| + 1 && place != [] && marks[0] == []
    ensures UnseenAlong(marks, place, c, literal) <==> UnseenAlong(marks[1..], place[1..], c, literal)
  {
    hide LengthsAlike, ScalarsAlike;
    if m: nat :| m < |place| && place[m].Index? && CountsFirst(marks[m]) {
      assert place[1..][m - 1] == place[m] && marks[1..][m - 1] == marks[m];
    }
    if m: nat :| m < |place[1..]| && place[1..][m].Index? && CountsFirst(marks[1..][m]) {
      assert place[m + 1].Index? && CountsFirst(marks[m + 1]);
    }
    if m: nat :| m <= |place| && Compare in marks[m] {
      assert marks[1..][m - 1] == marks[m];
    }
    if m: nat :| m <= |place[1..]| && Compare in marks[1..][m] {
      assert Compare in marks[m + 1];
    }
  }

  /** Taking off the outermost mark of a node. */
  lemma {:induction false} UnseenPeel(marks: seq<seq<Edit>>, place: seq<Segment>, c: Change, literal: bool)
    requires |marks| == |place| + 1 && marks[0] != []
    ensures var last := marks[0][|marks[0]| - 1];
            var fewer := marks[0 := marks[0][..|marks[0]| - 1]];
            var counts := |marks[0]| == 1 && last == Normalize(Length);
            UnseenAlong(marks, place, c, literal) <==>
              if counts && place == [] then LengthsAlike(c, literal)
              else (counts && place[0].Index?) || UnseenAlong(fewer, place, c, literal || last.Compare?)
  {
    hide LengthsAlike, ScalarsAlike;
    var last := marks[0][|marks[0]| - 1];
    var fewer := marks[0 := marks[0][..|marks[0]| - 1]];
    assert Compare in marks[0] <==> last.Compare? || Compare in fewer[0];
    assert (exists m: nat :: m <= |place| && Compare in marks[m]) <==> (last.Compare? || exists m: nat :: m <= |place| && Compare in fewer[m]) by {
      if m: nat :| m <= |place| && Compare in marks[m] { assert m > 0 ==> Compare in fewer[m]; }
      if m: nat :| m <= |place| && Compare in fewer[m] { assert Compare in marks[m]; }
    }
    assert forall m: nat :: 0 < m <= |place| ==> fewer[m] == marks[m];
    assert |marks[0]| > 1 ==> fewer[0][0] == marks[0][0];
  }

  /** What rules none of which enters another's mark leave out of sight. */
  lemma {:induction false} UnseenByRules(place: seq<Segment>, targets: seq<Target>, c: Change)
    requires NoneEnters(targets)
    ensures var way := WayAfter(place, targets);
            (way.None? || Unseen(way.value, c, false)) <==>
              || Suppressed(targets, place) || CountedAway(targets, place)
              || if Counted(targets, place, |place|) then LengthsAlike(c, Compared(targets, place)) else ScalarsAlike(c, Compared(targets, place))
  {
    hide Layers, LengthsAlike, ScalarsAlike, WayAfter, Unseen, Counted, EditsAt, CountsFirst, Reaches;
    WayIsLayers(place, targets);
    if !Suppressed(targets, place) {
      var marks := EditsAlong(targets, place);
      UnseenLayers(marks, place, c, false);
      forall m: nat | m <= |place|
        ensures CountsFirst(marks[m]) <==> Counted(targets, place, m)
        ensures Compare in marks[m] <==> exists i :: 0 <= i < |targets| && Stands(targets[i], place, m) && targets[i].edit.Compare?
      {
        EditsStand(targets, place, m);
      }
      if i :| 0 <= i < |targets| && Reaches(targets[i].path, place) && targets[i].edit.Compare? {
        ReachesWithin(targets[i].path, place);
        assert Stands(targets[i], place, |targets[i].path|);
        assert Compare in marks[|targets[i].path|];
      }
    }
  }

  // ---- the same in the words of the rules ----

  /** A redaction or exclusion at or above the place. */
  predicate Hushed(rules: Rules, place: seq<Segment>) {
    || (exists i :: 0 <= i < |rules.redact| && Reaches(rules.redact[i], place))
    || (exists i :: 0 <= i < |rules.exclude| && Reaches(rules.exclude[i], place))
  }

  predicate SelectsAt(path: seq<Segment>, place: seq<Segment>, m: nat) {
    Reaches(path, place) && |path| == m
  }

  /** Of the normalizations of the node m steps down the place, the first one is a `length`. */
  predicate LengthAt(rules: Rules, place: seq<Segment>, m: nat) {
    exists i :: 0 <= i < |rules.normalize| && SelectsAt(rules.normalize[i].0, place, m) && rules.normalize[i].1.Length?
                && forall j :: 0 <= j < i ==> !SelectsAt(rules.normalize[j].0, place, m)
  }

  /** A `length` on a list above the place, which shows as its number of elements. */
  predicate OnlyCounted(rules: Rules, place: seq<Segment>) {
    exists m: nat :: m < |place| && place[m].Index? && LengthAt(rules, place, m)
  }

  /** A comparison at or above the place. */
  predicate ComparedBy(rules: Rules, place: seq<Segment>) {
    exists i :: 0 <= i < |rules.compare| && Reaches(rules.compare[i], place)
  }

  /** No normalization or comparison lies below the path of an earlier one; comparisons come after all normalizations. */
  ghost predicate Nested(rules: Rules) {
    && (forall i, j :: 0 <= i < j < |rules.normalize| ==> !Enters(rules.normalize[j].0, rules.normalize[i].0))
    && (forall i, j :: 0 <= i < |rules.normalize| && 0 <= j < |rules.compare| ==> !Enters(rules.compare[j], rules.normalize[i].0))
    && (forall i, j :: 0 <= i < j < |rules.compare| ==> !Enters(rules.compare[j], rules.compare[i]))
  }

  /** Where each rule stands among the targets. */
  lemma TargetOf(rules: Rules)
    ensures var (targets, q) := (Targets(rules), |rules.redact| + |rules.exclude|);
            && |targets| == q + |rules.normalize| + |rules.compare|
            && (forall i :: 0 <= i < |rules.redact| ==> targets[i] == Target(rules.redact[i], Redact))
            && (forall i :: 0 <= i < |rules.exclude| ==> targets[|rules.redact| + i] == Target(rules.exclude[i], Exclude))
            && (forall i :: 0 <= i < |rules.normalize| ==> targets[q + i] == Target(rules.normalize[i].0, Normalize(rules.normalize[i].1)))
            && (forall i :: 0 <= i < |rules.compare| ==> targets[q + |rules.normalize| + i] == Target(rules.compare[i], Compare))
  {}

  lemma {:induction false} ComparesLast(rules: Rules)
    ensures var n := |rules.redact| + |rules.exclude| + |rules.normalize|;
            forall i :: n <= i < |Targets(rules)| ==> Targets(rules)[i].edit.Compare?
  {
    TargetOf(rules);
    var n := |rules.redact| + |rules.exclude| + |rules.normalize|;
    forall i | n <= i < |Targets(rules)| ensures Targets(rules)[i].edit.Compare? {
      assert Targets(rules)[n + (i - n)] == Target(rules.compare[i - n], Compare);
    }
  }

  lemma {:induction false} RulesSuppress(rules: Rules, place: seq<Segment>)
    ensures Suppressed(Targets(rules), place) <==> Hushed(rules, place)
    ensures Compared(Targets(rules), place) <==> ComparedBy(rules, place)
  {
    hide Targets, Reaches;
    TargetOf(rules);
    var targets, r, q := Targets(rules), |rules.redact|, |rules.redact| + |rules.exclude|;
    if i :| 0 <= i < |rules.redact| && Reaches(rules.redact[i], place) { assert Overwrites(targets[i].edit); }
    if i :| 0 <= i < |rules.exclude| && Reaches(rules.exclude[i], place) { assert Overwrites(targets[r + i].edit); }
    if i :| 0 <= i < |rules.compare| && Reaches(rules.compare[i], place) { assert targets[q + |rules.normalize| + i].edit.Compare?; }
    forall i | 0 <= i < |targets| && Reaches(targets[i].path, place)
      ensures Overwrites(targets[i].edit) ==> Hushed(rules, place)
      ensures targets[i].edit.Compare? ==> ComparedBy(rules, place)
    {
      if i < r {
        assert targets[i] == Target(rules.redact[i], Redact);
      } else if i < q {
        assert targets[r + (i - r)] == Target(rules.exclude[i - r], Exclude);
      } else if i < q + |rules.normalize| {
        assert targets[q + (i - q)].edit == Normalize(rules.normalize[i - q].1);
      } else {
        var k := i - q - |rules.normalize|;
        assert targets[q + |rules.normalize| + k] == Target(rules.compare[k], Compare);
      }
    }
  }

  lemma {:induction false} RulesCount(rules: Rules, place: seq<Segment>, m: nat)
    requires !Hushed(rules, place)
    ensures Counted(Targets(rules), place, m) <==> LengthAt(rules, place, m)
  {
    hide Targets, Reaches;
    TargetOf(rules);
    var targets, r, q := Targets(rules), |rules.redact|, |rules.redact| + |rules.exclude|;
    forall i | 0 <= i < q ensures !Stands(targets[i], place, m) {
      if i < r {
        assert targets[i] == Target(rules.redact[i], Redact);
        assert !Reaches(rules.redact[i], place);
      } else {
        assert targets[r + (i - r)] == Target(rules.exclude[i - r], Exclude);
        assert !Reaches(rules.exclude[i - r], place);
      }
    }
    forall i | 0 <= i < |rules.normalize|
      ensures Stands(targets[q + i], place, m) <==> SelectsAt(rules.normalize[i].0, place, m)
      ensures targets[q + i].edit == Normalize(Length) <==> rules.normalize[i].1.Length?
    {}
    if i :| 0 <= i < |targets| && Stands(targets[i], place, m) && targets[i].edit == Normalize(Length)
            && forall j :: 0 <= j < i ==> !Stands(targets[j], place, m) {
      ComparesLast(rules);
      var at := i - q;
      forall j | 0 <= j < at ensures !SelectsAt(rules.normalize[j].0, place, m) { assert !Stands(targets[q + j], place, m); }
      assert SelectsAt(rules.normalize[at].0, place, m) && rules.normalize[at].1.Length?;
    }
    if i :| 0 <= i < |rules.normalize| && SelectsAt(rules.normalize[i].0, place, m) && rules.normalize[i].1.Length?
            && forall j :: 0 <= j < i ==> !SelectsAt(rules.normalize[j].0, place, m) {
      forall j | 0 <= j < q + i ensures !Stands(targets[j], place, m) {
        if j >= q {
          assert !SelectsAt(rules.normalize[j - q].0, place, m);
          assert !Stands(targets[q + (j - q)], place, m);
        }
      }
      assert Stands(targets[q + i], place, m);
    }
  }

  lemma {:induction false} RulesNest(rules: Rules)
    requires Nested(rules)
    ensures NoneEnters(Targets(rules))
  {
    hide Targets, Enters;
    TargetOf(rules);
    var targets := Targets(rules);
    forall i, j | 0 <= i < j < |targets| && !Overwrites(targets[i].edit) ensures !Enters(targets[j].path, targets[i].path) {
      QuietingFirst(rules);
      PathOf(rules, i);
      PathOf(rules, j);
    }
  }

  lemma {:induction false} QuietingFirst(rules: Rules)
    ensures forall i :: 0 <= i < |rules.redact| + |rules.exclude| ==> i < |Targets(rules)| && Overwrites(Targets(rules)[i].edit)
  {
    TargetOf(rules);
    var r := |rules.redact|;
    forall i | 0 <= i < r + |rules.exclude| ensures i < |Targets(rules)| && Overwrites(Targets(rules)[i].edit) {
      if i >= r { assert Targets(rules)[r + (i - r)] == Target(rules.exclude[i - r], Exclude); }
    }
  }

  lemma {:induction false} PathOf(rules: Rules, i: nat)
    requires |rules.redact| + |rules.exclude| <= i < |Targets(rules)|
    ensures var (k, n) := (i - |rules.redact| - |rules.exclude|, |rules.normalize|);
            && k < n + |rules.compare|
            && Targets(rules)[i].path == if k < n then rules.normalize[k].0 else rules.compare[k - n]
  {
    hide Targets;
    TargetOf(rules);
    var q, n := |rules.redact| + |rules.exclude|, |rules.normalize|;
    var k := i - q;
    if k < n {
      assert Targets(rules)[q + k].path == rules.normalize[k].0;
    } else {
      assert Targets(rules)[q + n + (k - n)].path == rules.compare[k - n];
    }
  }

  /** What nested rules leave out of sight, in their own words. */
  lemma {:induction false} UnseenByNested(place: seq<Segment>, rules: Rules, c: Change)
    requires Nested(rules)
    ensures var way := WayAfter(place, Targets(rules));
            (way.None? || Unseen(way.value, c, false)) <==>
              || Hushed(rules, place) || OnlyCounted(rules, place)
              || if LengthAt(rules, place, |place|) then LengthsAlike(c, ComparedBy(rules, place)) else ScalarsAlike(c, ComparedBy(rules, place))
  {
    hide Targets, Counted, LengthAt, Compared, ComparedBy, Suppressed, Hushed, Unseen, WayAfter, Nested, NoneEnters, LengthsAlike, ScalarsAlike;
    RulesNest(rules);
    RulesSuppress(rules, place);
    UnseenByRules(place, Targets(rules), c);
    if !Hushed(rules, place) {
      forall m: nat ensures Counted(Targets(rules), place, m) <==> LengthAt(rules, place, m) { RulesCount(rules, place, m); }
    }
  }

  /**
    Two bodies that differ in the keys of one object project alike exactly when a redaction or exclusion stands at or
    above it, or a `length` counts a list above it.
  */
  lemma {:induction false} KeyChangeIsHidden(a: Node, b: Node, place: seq<Segment>, rules: Rules, text: Json -> string)
    requires WellKeyed(a) && WellKeyed(b) && Differs(a, b, place, OtherKeys) && Nested(rules)
    ensures Project(a, rules, text) == Project(b, rules, text) <==> Hushed(rules, place) || OnlyCounted(rules, place)
  {
    hide Project, Targets, Hushed, OnlyCounted, LengthAt, Unseen, WayAfter, WellKeyed, Differs, Nested, ComparedBy;
    ChangeIsHidden(a, b, place, OtherKeys, rules, text);
    UnseenByNested(place, rules, OtherKeys);
  }

  /**
    Two bodies that differ in the value of one scalar project alike exactly when a rule hides its place; or a `length`
    stands on it and both are strings of one length; or no `compare` stands at or above it and both are of one type.
  */
  lemma {:induction false} ValueChangeIsHidden(a: Node, b: Node, place: seq<Segment>, u: Json, v: Json, rules: Rules, text: Json -> string)
    requires WellKeyed(a) && WellKeyed(b) && Differs(a, b, place, OtherValue(u, v)) && Nested(rules)
    ensures Project(a, rules, text) == Project(b, rules, text) <==>
              || Hushed(rules, place) || OnlyCounted(rules, place)
              || if LengthAt(rules, place, |place|) && u.Str? && v.Str? then |u.text| == |v.text|
                 else !ComparedBy(rules, place) && SameType(u, v)
  {
    hide Project, Targets, Hushed, OnlyCounted, LengthAt, Unseen, WayAfter, WellKeyed, Nested, ComparedBy, TypeName;
    ChangeIsHidden(a, b, place, OtherValue(u, v), rules, text);
    UnseenByNested(place, rules, OtherValue(u, v));
    DifferInScalars(a, b, place, u, v);
    TypeNamesDiffer(u, v);
  }

  predicate SameType(u: Json, v: Json) {
    (u.Null? && v.Null?) || (u.Bool? && v.Bool?) || (u.Num? && v.Num?) || (u.Str? && v.Str?)
  }

  /** A `compare` with no redaction, exclusion or `length` at or above the value shows every change of it. */
  lemma {:induction false} ComparedValueShows(a: Node, b: Node, place: seq<Segment>, u: Json, v: Json, rules: Rules, text: Json -> string)
    requires WellKeyed(a) && WellKeyed(b) && Differs(a, b, place, OtherValue(u, v)) && Nested(rules)
    requires ComparedBy(rules, place) && !Hushed(rules, place)
    requires forall i :: 0 <= i < |rules.normalize| && Reaches(rules.normalize[i].0, place) ==> !rules.normalize[i].1.Length?
    ensures Project(a, rules, text) != Project(b, rules, text)
  {
    hide Project, ComparedBy, WellKeyed, Differs, Nested, Reaches, Hushed;
    ValueChangeIsHidden(a, b, place, u, v, rules, text);
  }

  /** Without a `compare`, and without a rule that hides or counts, a changed value shows exactly by its type. */
  lemma {:induction false} UncomparedValueShowsItsType(a: Node, b: Node, place: seq<Segment>, u: Json, v: Json, rules: Rules, text: Json -> string)
    requires WellKeyed(a) && WellKeyed(b) && Differs(a, b, place, OtherValue(u, v)) && Nested(rules)
    requires !ComparedBy(rules, place) && !Hushed(rules, place)
    requires forall i :: 0 <= i < |rules.normalize| && Reaches(rules.normalize[i].0, place) ==> !rules.normalize[i].1.Length?
    ensures Project(a, rules, text) == Project(b, rules, text) <==> SameType(u, v)
  {
    hide Project, ComparedBy, WellKeyed, Differs, Nested, Reaches, Hushed;
    ValueChangeIsHidden(a, b, place, u, v, rules, text);
  }

  lemma {:induction false} DifferInScalars(x: Node, y: Node, place: seq<Segment>, u: Json, v: Json)
    requires Differs(x, y, place, OtherValue(u, v))
    ensures IsScalar(u) && IsScalar(v) && u != v
    decreases |place|
  {
    hide SameBeside;
    if place != [] {
      Both(x, y, place[0]);
      DifferInScalars(Inner(x, place[0]).value, Inner(y, place[0]).value, place[1..], u, v);
    }
  }

  // ---- rules that another rule undoes ----

  predicate OwnProperty(step: Segment) {
    step == Key("value") || step == Key("rule") || step == Key("$redacted") || step == Key("$excluded")
  }

  /**
    A rule below a path that an earlier `normalize` or `compare` has marked selects nothing, whatever the body: a
    `compare` of a field inside a sorted list compares nothing. Only the properties of the mark itself are an exception.
  */
  lemma {:induction false} BelowAMarkIsLost(node: Node, path: seq<Segment>, mark: Edit, more: seq<Segment>, edit: Edit)
    requires !Overwrites(mark) && more != [] && !OwnProperty(more[0])
    ensures ReplaceAt(ReplaceAt(node, path, mark), path + more, edit) == ReplaceAt(node, path, mark)
    decreases |path|
  {
    var marked := ReplaceAt(node, path, mark);
    if path == [] {
      assert path + more == more;
    } else {
      assert (path + more)[1..] == path[1..] + more;
      match path[0]
      case Each =>
        if node.List? {
          forall i | 0 <= i < |node.items| ensures ReplaceAt(marked.items[i], path[1..] + more, edit) == marked.items[i] {
            BelowAMarkIsLost(node.items[i], path[1..], mark, more, edit);
          }
          assert ReplaceAt(marked, path + more, edit).items == marked.items;
        }
      case Index(k) =>
        if node.List? && k < |node.items| {
          BelowAMarkIsLost(node.items[k], path[1..], mark, more, edit);
        }
      case Key(name) => BelowAMarkInField(node, path, mark, more, edit);
    }
  }

  lemma {:induction false} BelowAMarkInField(node: Node, path: seq<Segment>, mark: Edit, more: seq<Segment>, edit: Edit)
    requires path != [] && path[0].Key? && !Overwrites(mark) && more != [] && !OwnProperty(more[0])
    ensures ReplaceAt(ReplaceAt(node, path, mark), path + more, edit) == ReplaceAt(node, path, mark)
    decreases |path|, 0
  {
    hide Overwrites, ReplaceAt, OwnProperty, Entries;
    assert (path + more)[1..] == path[1..] + more;
    var name := path[0].key;
    if HasField(node, name) {
      var es, k := Entries(node), FieldAt(Entries(node), name);
      var marked := ReplaceAt(node, path, mark);
      BelowAMarkIsLost(es[k].node, path[1..], mark, more, edit);
      KeyReplaced(node, path, mark);
      SameField(marked.fields, es, name);
      ObjectEntries(marked);
      KeyReplaced(marked, path + more, edit);
      assert marked.fields[k := Field(name, marked.fields[k].node)] == marked.fields;
    } else {
      KeyMissed(node, path, mark);
      KeyMissed(node, path + more, edit);
    }
  }

  lemma KeyReplaced(node: Node, path: seq<Segment>, edit: Edit)
    requires path != [] && path[0].Key? && HasField(node, path[0].key)
    ensures var es, k := Entries(node), FieldAt(Entries(node), path[0].key);
            ReplaceAt(node, path, edit) == Object(es[k := Field(path[0].key, ReplaceAt(es[k].node, path[1..], edit))])
  {}

  lemma KeyMissed(node: Node, path: seq<Segment>, edit: Edit)
    requires path != [] && path[0].Key? && !HasField(node, path[0].key)
    ensures ReplaceAt(node, path, edit) == node
  {}

  /** A path through a mark's own property takes the mark away: a value that a `compare` selects no longer shows. */
  lemma {:induction false} EnteredMarkIsLost(u: Json, v: Json, text: Json -> string)
    requires IsScalar(u) && IsScalar(v) && u != v
    ensures var a, b := Object([Field("a", Object([Field("b", Scalar(u))]))]), Object([Field("a", Object([Field("b", Scalar(v))]))]);
            var rules := Rules([], [], [], [[Key("a")], [Key("a"), Key("value"), Key("c")]]);
            && ComparedBy(rules, [Key("a"), Key("b")]) && !Nested(rules)
            && (Project(a, rules, text) == Project(b, rules, text) <==> TypeName(u) == TypeName(v))
  {
    hide Project, Apply, Render, TypeName, WayAfter, Unseen, Differs, WellKeyed;
    var a, b := Object([Field("a", Object([Field("b", Scalar(u))]))]), Object([Field("a", Object([Field("b", Scalar(v))]))]);
    var first, second := [Key("a")], [Key("a"), Key("value"), Key("c")];
    var rules := Rules([], [], [], [first, second]);
    var place: seq<Segment> := [Key("a"), Key("b")];
    assert Targets(rules) == [Target(first, Compare), Target(second, Compare)];
    assert Reaches(rules.compare[0], place);
    assert Enters(rules.compare[1], rules.compare[0]);
    TwoKeysDown(u, v);
    EnteredWay();
    ChangeIsHidden(a, b, place, OtherValue(u, v), rules, text);
  }

  lemma {:induction false} TwoKeysDown(u: Json, v: Json)
    requires IsScalar(u) && IsScalar(v) && u != v
    ensures var a, b := Object([Field("a", Object([Field("b", Scalar(u))]))]), Object([Field("a", Object([Field("b", Scalar(v))]))]);
            Differs(a, b, [Key("a"), Key("b")], OtherValue(u, v)) && WellKeyed(a) && WellKeyed(b)
  {
    var x, y := Object([Field("b", Scalar(u))]), Object([Field("b", Scalar(v))]);
    assert Differs(Scalar(u), Scalar(v), [], OtherValue(u, v));
    assert [Key("a"), Key("b")][1..] == [Key("b")];
    assert Differs(x, y, [Key("b")], OtherValue(u, v));
    assert WellKeyed(x) && WellKeyed(y);
  }

  lemma {:induction false} EnteredWay()
    ensures WayAfter([Key("a"), Key("b")], [Target([Key("a")], Compare), Target([Key("a"), Key("value"), Key("c")], Compare)]) ==
            Some([Down(Key("a")), Down(Key("value")), Down(Key("b"))])
    ensures forall c :: Unseen([Down(Key("a")), Down(Key("value")), Down(Key("b"))], c, false) == ScalarsAlike(c, false)
  {
    var place: seq<Segment> := [Key("a"), Key("b")];
    var first, second := [Key("a")], [Key("a"), Key("value"), Key("c")];
    var targets := [Target(first, Compare), Target(second, Compare)];
    assert first[1..] == [] && second[1..] == [Key("value"), Key("c")] && second[1..][1..] == [Key("c")];
    var below := [Down(Key("b"))];
    var plain := [Down(Key("a"))] + below;
    assert Plain(place) == plain && plain[1..] == below;
    assert Onward(below, [], Compare) == Some([Mark(Compare)] + below);
    var marked := [Down(Key("a"))] + ([Mark(Compare)] + below);
    assert Onward(plain, first, Compare) == Some(marked);
    assert marked[1..] == [Mark(Compare)] + below && marked[1..][1..] == below;
    var bare := [Down(Key("value"))] + below;
    assert Onward(below, [Key("c")], Compare) == Some(below);
    assert Onward(marked[1..], second[1..], Compare) == Some(bare);
    assert Onward(marked, second, Compare) == Some([Down(Key("a"))] + bare);
    assert targets[..1] == [targets[0]] && targets[..1][..0] == [];
    assert WayAfter(place, targets[..1]) == Some(marked);
    var end := [Down(Key("a"))] + bare;
    assert WayAfter(place, targets) == Some(end);
    assert end == [Down(Key("a")), Down(Key("value")), Down(Key("b"))];
    assert end[1..] == bare && bare[1..] == below && below[1..] == [];
    forall c ensures Unseen(end, c, false) == ScalarsAlike(c, false) {
      assert Unseen(below, c, false) == ScalarsAlike(c, false);
      assert Unseen(bare, c, false) == Unseen(below, c, false);
    }
  }

  // ---- what one rule shows ----

  /** Do the path and the place leave each other? */
  predicate Parts(path: seq<Segment>, place: seq<Segment>)
    decreases |path|
  {
    path != [] && place != [] && (!Selects(path[0], place[0]) || Parts(path[1..], place[1..]))
  }

  lemma {:induction false} InnerIsAt(node: Node, place: seq<Segment>)
    requires place != []
    ensures At(node, place) == if Inner(node, place[0]).Some? then At(Inner(node, place[0]).value, place[1..]) else None
  {}

  lemma AtStep(node: Node, place: seq<Segment>)
    requires place != [] && At(node, place).Some?
    ensures Inner(node, place[0]).Some? && At(Inner(node, place[0]).value, place[1..]).Some?
  {}

  lemma {:induction false} AtAfter(node: Node, place: seq<Segment>, path: seq<Segment>, edit: Edit)
    requires At(node, place).Some? && (Parts(path, place) || (Reaches(path, place) && |path| == |place|))
    ensures At(ReplaceAt(node, path, edit), place) ==
            if Parts(path, place) then At(node, place) else Some(Edited(edit, At(node, place).value))
    decreases |place|
  {
    hide ReplaceAt, Inner, At;
    if place == [] {
      AtNothing(node);
      AtNothing(ReplaceAt(node, path, edit));
      EditedHere(node, edit);
    } else {
      InnerIsAt(node, place);
      InnerIsAt(ReplaceAt(node, path, edit), place);
      AtStep(node, place);
      BesideItself(node, place[0]);
      EditInside(node, node, place[0], path, edit);
      Both(ReplaceAt(node, path, edit), ReplaceAt(node, path, edit), place[0]);
      if Selects(path[0], place[0]) { AtAfter(Inner(node, place[0]).value, place[1..], path[1..], edit); }
    }
  }

  lemma BesideItself(node: Node, step: Segment)
    requires Inner(node, step).Some?
    ensures SameBeside(node, node, step)
  {}

  lemma {:induction false} AtAfterAll(node: Node, place: seq<Segment>, targets: seq<Target>)
    requires At(node, place).Some? && forall i :: 0 <= i < |targets| ==> Parts(targets[i].path, place)
    ensures At(Apply(node, targets), place) == At(node, place)
  {
    hide ReplaceAt, At, Parts, Reaches;
    if targets != [] {
      AtAfterAll(node, place, targets[..|targets| - 1]);
      AtAfter(Apply(node, targets[..|targets| - 1]), place, targets[|targets| - 1].path, targets[|targets| - 1].edit);
    }
  }

  /** A place no rule's path meets shows its type; a list there keeps its length. */
  lemma {:induction false} UntouchedShows(body: Node, place: seq<Segment>, rules: Rules, text: Json -> string)
    requires WellKeyed(body) && At(body, place).Some?
    requires forall i :: 0 <= i < |Targets(rules)| ==> Parts(Targets(rules)[i].path, place)
    ensures var shown, node := ReadAt(Some(Project(body, rules, text)), place), At(body, place).value;
            && (node.Scalar? && node.value.Null? ==> shown == Some(Str("null")))
            && (node.Scalar? && node.value.Bool? ==> shown == Some(Str("boolean")))
            && (node.Scalar? && node.value.Num? ==> shown == Some(Str("number")))
            && (node.Scalar? && node.value.Str? ==> shown == Some(Str("string")))
            && (node.List? ==> shown.Some? && shown.value.Arr? && |shown.value.items| == |node.items|)
  {
    hide Apply, Targets, At, ReadAt, Parts, WellKeyed;
    var targets := Targets(rules);
    AtAfterAll(body, place, targets);
    ApplyKeeps(body, targets);
    RendersInPlace(Applied(body, rules), place, false, text);
  }

  /** A rule whose path alone meets a place decides what is shown there. */
  lemma {:induction false} OneRuleShows(body: Node, place: seq<Segment>, rules: Rules, k: nat, text: Json -> string)
    requires WellKeyed(body) && At(body, place).Some? && !At(body, place).value.Redacted? && !At(body, place).value.Excluded?
    requires k < |Targets(rules)| && Stands(Targets(rules)[k], place, |place|)
    requires forall i :: 0 <= i < |Targets(rules)| && i != k ==> Parts(Targets(rules)[i].path, place)
    ensures var shown, node, edit := ReadAt(Some(Project(body, rules, text)), place), At(body, place).value, Targets(rules)[k].edit;
            && (edit.Redact? ==> shown == Some(Str("[redacted]")))
            && (edit.Exclude? ==> shown == Some(Str("[excluded]")))
            && (edit.Compare? && node.Scalar? ==> shown == Some(node.value))
            && (edit == Normalize(Length) && node.List? ==> shown == Some(Obj([Member("length", Num(|node.items|))])))
            && (edit == Normalize(Length) && node.Scalar? && node.value.Str? ==>
                  shown == Some(Obj([Member("length", Num(|node.value.text|))])))
  {
    hide Apply, Targets, At, ReadAt, Parts, WellKeyed, Reaches, ReplaceAt, TypeName;
    var targets := Targets(rules);
    var rest := targets[k + 1..];
    assert targets == targets[..k] + [targets[k]] + rest;
    ApplyMore(body, targets[..k] + [targets[k]], rest);
    assert (targets[..k] + [targets[k]])[..k] == targets[..k];
    ApplyOne(body, targets[..k], targets[k]);
    AtAfterAll(body, place, targets[..k]);
    assert !Parts(targets[k].path, place) by { ReachesDoesNotPart(targets[k].path, place); }
    AtAfter(Apply(body, targets[..k]), place, targets[k].path, targets[k].edit);
    AtAfterAll(ReplaceAt(Apply(body, targets[..k]), targets[k].path, targets[k].edit), place, rest);
    ApplyKeeps(body, targets);
    RendersInPlace(Applied(body, rules), place, false, text);
  }

  lemma {:induction false} ApplyOne(node: Node, targets: seq<Target>, last: Target)
    ensures Apply(node, targets + [last]) == ReplaceAt(Apply(node, targets), last.path, last.edit)
  {
    assert (targets + [last])[..|targets|] == targets;
  }

  lemma {:induction false} ReachesDoesNotPart(path: seq<Segment>, place: seq<Segment>)
    requires Reaches(path, place)
    ensures !Parts(path, place)
    decreases |path|
  {
    if path != [] { ReachesDoesNotPart(path[1..], place[1..]); }
  }

  /** A field renamed inside a list whose length alone is compared, or inside an excluded list, never shows. */
  lemma {:induction false} RenameInListIsHidden(value: Node, text: Json -> string)
    requires WellKeyed(value)
    ensures var a := Object([Field("items", List([Object([Field("id", value)])]))]);
            var b := Object([Field("items", List([Object([Field("ref", value)])]))]);
            && Project(a, Rules([], [], [([Key("items")], Length)], []), text) == Project(b, Rules([], [], [([Key("items")], Length)], []), text)
            && Project(a, Rules([], [[Key("items")]], [], []), text) == Project(b, Rules([], [[Key("items")]], [], []), text)
            && Project(a, Rules([], [], [], [[Key("items")]]), text) != Project(b, Rules([], [], [], [[Key("items")]]), text)
  {
    hide Project, Render, Apply;
    var x, y := Object([Field("id", value)]), Object([Field("ref", value)]);
    var a, b := Object([Field("items", List([x]))]), Object([Field("items", List([y]))]);
    var place := [Key("items"), Index(0)];
    var path := [Key("items")];
    RenameDiffers(value);
    var byLength := Rules([], [], [(path, Length)], []);
    assert path[1..] == [] && place[1..] == [Index(0)] && place[1..][1..] == [];
    assert SelectsAt(byLength.normalize[0].0, place, 1);
    assert LengthAt(byLength, place, 1);
    KeyChangeIsHidden(a, b, place, byLength, text);
    var excluding := Rules([], [path], [], []);
    assert Reaches(excluding.exclude[0], place);
    KeyChangeIsHidden(a, b, place, excluding, text);
    var comparing := Rules([], [], [], [path]);
    KeyChangeIsHidden(a, b, place, comparing, text);
  }

  lemma {:induction false} RenameDiffers(value: Node)
    requires WellKeyed(value)
    ensures var a := Object([Field("items", List([Object([Field("id", value)])]))]);
            var b := Object([Field("items", List([Object([Field("ref", value)])]))]);
            WellKeyed(a) && WellKeyed(b) && Differs(a, b, [Key("items"), Index(0)], OtherKeys)
  {
    var x, y := Object([Field("id", value)]), Object([Field("ref", value)]);
    var place: seq<Segment> := [Key("items"), Index(0)];
    assert place[1..] == [Index(0)] && place[1..][1..] == [];
    assert Names(x)[0] == "id" && Names(y)[0] == "ref";
    assert HasName(x, "id") && !HasName(y, "id");
    assert Differs(x, y, [], OtherKeys);
    assert SameBeside(List([x]), List([y]), Index(0)) && Differs(List([x]), List([y]), place[1..], OtherKeys);
  }
}

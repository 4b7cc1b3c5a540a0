/**
  Match rules over response bodies: redaction and exclusion quiet a value, normalization and
  comparison change how it is rendered, and no rule hides which keys an object has.
*/
module Match {
  import opened Common
  import opened Json
  import Pagination

  datatype Rule = Sorted | Length

  /** A parsed body with the marks rules leave in it. */
  datatype Node =
    | Scalar(value: Json)
    | List(items: seq<Node>)
    | Object(fields: seq<Field>)
    | Redacted
    | Excluded
    | Verbatim(inner: Node)
    | Normalized(rule: Rule, inner: Node)

  datatype Field = Field(name: string, node: Node)

  function FieldAt(fields: seq<Field>, name: string): (k: nat)
    ensures k <= |fields|
    ensures k < |fields| ==> fields[k].name == name
    ensures forall j :: 0 <= j < k ==> fields[j].name != name
  {
    if fields == [] || fields[0].name == name then 0 else 1 + FieldAt(fields[1..], name)
  }

  /** The properties a path may step into: a mark is an object too. */
  function Entries(node: Node): seq<Field> {
    match node
    case Object(fields) => fields
    case Redacted => [Field("$redacted", Scalar(Bool(true)))]
    case Excluded => [Field("$excluded", Scalar(Bool(true)))]
    case Verbatim(inner) => [Field("value", inner)]
    case Normalized(rule, inner) => [Field("rule", Scalar(Str(if rule.Sorted? then "sorted" else "length"))), Field("value", inner)]
    case _ => []
  }

  predicate HasField(node: Node, name: string) {
    FieldAt(Entries(node), name) < |Entries(node)|
  }

  /** What a rule puts in place of the node it selects. */
  datatype Edit = Redact | Exclude | Normalize(rule: Rule) | Compare

  function Edited(edit: Edit, node: Node): Node {
    match edit
    case Redact => Redacted
    case Exclude => Excluded
    case Normalize(rule) => if node.Redacted? || node.Excluded? then node else Normalized(rule, node)
    case Compare => if node.Redacted? || node.Excluded? then node else Verbatim(node)
  }

  /** Edit what a path selects; a path that selects nothing changes nothing. */
  function ReplaceAt(node: Node, path: seq<Segment>, edit: Edit): Node
    decreases |path|
  {
    if path == [] then Edited(edit, node)
    else
      match path[0]
      case Each =>
        if node.List? then List(seq(|node.items|, i requires 0 <= i < |node.items| => ReplaceAt(node.items[i], path[1..], edit))) else node
      case Index(k) =>
        if node.List? && k < |node.items| then List(node.items[k := ReplaceAt(node.items[k], path[1..], edit)]) else node
      case Key(name) =>
        if HasField(node, name) then
          var es := Entries(node);
          var k := FieldAt(es, name);
          Object(es[k := Field(name, ReplaceAt(es[k].node, path[1..], edit))])
        else node
  }

  // ---- applying the rules ----

  /** One rule: the path it targets and what it does there. */
  datatype Target = Target(path: seq<Segment>, edit: Edit)

  datatype Rules = Rules(redact: seq<seq<Segment>>, exclude: seq<seq<Segment>>, normalize: seq<(seq<Segment>, Rule)>, compare: seq<seq<Segment>>)

  function AsTargets(paths: seq<seq<Segment>>, edit: Edit): (r: seq<Target>)
    ensures |r| == |paths|
  {
    seq(|paths|, i requires 0 <= i < |paths| => Target(paths[i], edit))
  }

  function Normalizations(rules: seq<(seq<Segment>, Rule)>): (r: seq<Target>)
    ensures |r| == |rules|
  {
    seq(|rules|, i requires 0 <= i < |rules| => Target(rules[i].0, Normalize(rules[i].1)))
  }

  /** The rules that suppress values; they run first, so that no later rule can bring a value back. */
  function Quieting(rules: Rules): seq<Target> {
    AsTargets(rules.redact, Redact) + AsTargets(rules.exclude, Exclude)
  }

  /** All rules in the order they run. */
  function Targets(rules: Rules): seq<Target> {
    Quieting(rules) + (Normalizations(rules.normalize) + AsTargets(rules.compare, Compare))
  }

  function Apply(node: Node, targets: seq<Target>): Node {
    if targets == [] then node
    else ReplaceAt(Apply(node, targets[..|targets| - 1]), targets[|targets| - 1].path, targets[|targets| - 1].edit)
  }

  function Applied(body: Node, rules: Rules): Node {
    Apply(body, Targets(rules))
  }

  lemma {:induction false} ApplyMore(node: Node, a: seq<Target>, b: seq<Target>)
    ensures Apply(node, a + b) == Apply(Apply(node, a), b)
  {
    hide ReplaceAt;
    if b == [] {
      assert a + b == a;
    } else {
      assert (a + b)[..|a + b| - 1] == a + b[..|b| - 1];
      ApplyMore(node, a, b[..|b| - 1]);
    }
  }

  /** Run some of the rules, in order. */
  method ReplaceEach(node: Node, targets: seq<Target>) returns (out: Node)
    ensures out == Apply(node, targets)
  {
    hide ReplaceAt;
    out := node;
    var i := 0;
    while i < |targets|
      invariant 0 <= i <= |targets|
      invariant out == Apply(node, targets[..i])
    {
      assert targets[..i + 1][..i] == targets[..i];
      out := ReplaceAt(out, targets[i].path, targets[i].edit);
      i := i + 1;
    }
    assert targets[..i] == targets;
  }

  /** Redact, exclude, normalize, compare. */
  method ApplyMatchRules(body: Node, rules: Rules) returns (out: Node)
    ensures out == Applied(body, rules)
  {
    hide Apply;
    var redact, exclude := AsTargets(rules.redact, Redact), AsTargets(rules.exclude, Exclude);
    var normalize, compare := Normalizations(rules.normalize), AsTargets(rules.compare, Compare);
    out := ReplaceEach(body, redact);
    out := ReplaceEach(out, exclude);
    out := ReplaceEach(out, normalize);
    out := ReplaceEach(out, compare);
    ApplyMore(body, redact, exclude);
    ApplyMore(body, redact + exclude, normalize + compare);
    ApplyMore(Apply(body, redact + exclude), normalize, compare);
  }

  // ---- rendering ----

  function TypeName(value: Json): string {
    match value
    case Null => "null"
    case Bool(_) => "boolean"
    case Num(_) => "number"
    case Str(_) => "string"
    case _ => "object"
  }

  /** Put a member at its key's place. */
  function InsertMember(members: seq<Member>, m: Member): seq<Member> {
    if members == [] || Pagination.Less(m.key, members[0].key) then [m] + members else [members[0]] + InsertMember(members[1..], m)
  }

  function SortMembers(members: seq<Member>): seq<Member> {
    if members == [] then [] else InsertMember(SortMembers(members[..|members| - 1]), members[|members| - 1])
  }

  function InsertByText(values: seq<Json>, v: Json, text: Json -> string): seq<Json> {
    if values == [] || Pagination.Less(text(v), text(values[0])) then [v] + values else [values[0]] + InsertByText(values[1..], v, text)
  }

  function SortByText(values: seq<Json>, text: Json -> string): seq<Json> {
    if values == [] then [] else InsertByText(SortByText(values[..|values| - 1], text), values[|values| - 1], text)
  }

  /** The projection of a node: its shape, or its values where a comparison encloses it. `text` writes a value as JSON. */
  function Render(node: Node, literal: bool, text: Json -> string): Json
    decreases node
  {
    match node
    case Redacted => Str("[redacted]")
    case Excluded => Str("[excluded]")
    case Verbatim(inner) => Render(inner, true, text)
    case Normalized(rule, inner) =>
      if rule.Length? && inner.List? then Obj([Member("length", Num(|inner.items|))])
      else if rule.Length? && inner.Scalar? && inner.value.Str? then Obj([Member("length", Num(|inner.value.text|))])
      else if rule.Sorted? && inner.List? then
        Arr(SortByText(seq(|inner.items|, i requires 0 <= i < |inner.items| => Render(inner.items[i], literal, text)), text))
      else Render(inner, literal, text)
    case Scalar(value) => if literal then value else Str(TypeName(value))
    case List(items) => Arr(seq(|items|, i requires 0 <= i < |items| => Render(items[i], literal, text)))
    case Object(fields) => Obj(SortMembers(Rendered(fields, literal, text)))
  }

  function Rendered(fields: seq<Field>, literal: bool, text: Json -> string): (r: seq<Member>)
    ensures |r| == |fields|
    ensures forall i :: 0 <= i < |fields| ==> r[i] == Member(fields[i].name, Render(fields[i].node, literal, text))
    decreases fields
  {
    seq(|fields|, i requires 0 <= i < |fields| => Member(fields[i].name, Render(fields[i].node, literal, text)))
  }

  function Project(body: Node, rules: Rules, text: Json -> string): Json {
    Render(Applied(body, rules), false, text)
  }

  // ---- what a rule quiets ----

  /** Two nodes that differ at most in what a path selects. */
  predicate AgreeOff(a: Node, b: Node, path: seq<Segment>)
    decreases |path|
  {
    if path == [] || a == b then true
    else
      match path[0]
      case Each => a.List? && b.List? && |a.items| == |b.items| && forall i :: 0 <= i < |a.items| ==> AgreeOff(a.items[i], b.items[i], path[1..])
      case Index(k) =>
        && a.List? && b.List? && |a.items| == |b.items| && k < |a.items|
        && (forall i :: 0 <= i < |a.items| && i != k ==> a.items[i] == b.items[i])
        && AgreeOff(a.items[k], b.items[k], path[1..])
      case Key(name) =>
        && a.Object? && b.Object? && |a.fields| == |b.fields|
        && var k := FieldAt(a.fields, name);
           && k < |a.fields| && b.fields[k].name == name
           && (forall i :: 0 <= i < |a.fields| && i != k ==> a.fields[i] == b.fields[i])
           && AgreeOff(a.fields[k].node, b.fields[k].node, path[1..])
  }

  lemma {:induction false} SameField(a: seq<Field>, b: seq<Field>, name: string)
    requires |a| == |b| && forall i :: 0 <= i < |a| ==> a[i].name == b[i].name
    ensures FieldAt(a, name) == FieldAt(b, name)
  {
    var i, j := FieldAt(a, name), FieldAt(b, name);
    if i != j { assert false; }
  }

  predicate Overwrites(edit: Edit) {
    edit.Redact? || edit.Exclude?
  }

  /** Overwriting what a path selects forgets what was there. */
  lemma {:induction false} OverwriteForgets(a: Node, b: Node, path: seq<Segment>, edit: Edit)
    requires AgreeOff(a, b, path) && Overwrites(edit)
    ensures ReplaceAt(a, path, edit) == ReplaceAt(b, path, edit)
    decreases |path|
  {
    if path != [] && a != b {
      match path[0]
      case Each =>
        forall i | 0 <= i < |a.items| ensures ReplaceAt(a.items[i], path[1..], edit) == ReplaceAt(b.items[i], path[1..], edit) {
          OverwriteForgets(a.items[i], b.items[i], path[1..], edit);
        }
      case Index(k) =>
        OverwriteForgets(a.items[k], b.items[k], path[1..], edit);
        assert ReplaceAt(a, path, edit).items == ReplaceAt(b, path, edit).items;
      case Key(name) =>
        var k := FieldAt(a.fields, name);
        FieldsAgree(a, b, path);
        OverwriteForgets(a.fields[k].node, b.fields[k].node, path[1..], edit);
        assert ReplaceAt(a, path, edit).fields == ReplaceAt(b, path, edit).fields;
    }
  }

  /** Objects that agree off a key have the same keys. */
  lemma {:induction false} FieldsAgree(a: Node, b: Node, path: seq<Segment>)
    requires path != [] && path[0].Key? && AgreeOff(a, b, path) && a != b
    ensures forall name :: FieldAt(a.fields, name) == FieldAt(b.fields, name)
  {
    forall name ensures FieldAt(a.fields, name) == FieldAt(b.fields, name) {
      SameField(a.fields, b.fields, name);
    }
  }

  /** An overwriting rule keeps two nodes in agreement, wherever it works. */
  lemma {:induction false} OverwriteAgrees(a: Node, b: Node, path: seq<Segment>, other: seq<Segment>, edit: Edit)
    requires AgreeOff(a, b, path) && Overwrites(edit)
    ensures AgreeOff(ReplaceAt(a, other, edit), ReplaceAt(b, other, edit), path)
    decreases |path|
  {
    if path != [] && a != b && other != [] {
      match path[0]
      case Each => AgreeInEach(a, b, path, other, edit);
      case Index(k) => AgreeInIndex(a, b, path, other, edit);
      case Key(name) => AgreeInKey(a, b, path, other, edit);
    }
  }

  lemma {:induction false} AgreeInEach(a: Node, b: Node, path: seq<Segment>, other: seq<Segment>, edit: Edit)
    requires AgreeOff(a, b, path) && Overwrites(edit) && path != [] && a != b && other != [] && path[0].Each?
    ensures AgreeOff(ReplaceAt(a, other, edit), ReplaceAt(b, other, edit), path)
    decreases |path|, 0
  {
    forall i | 0 <= i < |a.items| ensures AgreeOff(ReplaceAt(a.items[i], other[1..], edit), ReplaceAt(b.items[i], other[1..], edit), path[1..]) {
      OverwriteAgrees(a.items[i], b.items[i], path[1..], other[1..], edit);
    }
  }

  lemma {:induction false} AgreeInIndex(a: Node, b: Node, path: seq<Segment>, other: seq<Segment>, edit: Edit)
    requires AgreeOff(a, b, path) && Overwrites(edit) && path != [] && a != b && other != [] && path[0].Index?
    ensures AgreeOff(ReplaceAt(a, other, edit), ReplaceAt(b, other, edit), path)
    decreases |path|, 0
  {
    var k := path[0].index;
    OverwriteAgrees(a.items[k], b.items[k], path[1..], other[1..], edit);
  }

  lemma {:induction false} AgreeInKey(a: Node, b: Node, path: seq<Segment>, other: seq<Segment>, edit: Edit)
    requires AgreeOff(a, b, path) && Overwrites(edit) && path != [] && a != b && other != [] && path[0].Key?
    ensures AgreeOff(ReplaceAt(a, other, edit), ReplaceAt(b, other, edit), path)
    decreases |path|, 0
  {
    hide Overwrites, ReplaceAt, Entries;
    FieldsAgree(a, b, path);
    ObjectEntries(a);
    ObjectEntries(b);
    var k := FieldAt(a.fields, path[0].key);
    if !(other[0].Key? && HasField(a, other[0].key)) {
      Unselected(a, other, edit);
      Unselected(b, other, edit);
    } else {
      OverwriteAgrees(a.fields[k].node, b.fields[k].node, path[1..], other[1..], edit);
      ReplacedField(a, other, edit);
      ReplacedField(b, other, edit);
      var x := ReplaceAt(a, other, edit);
      SameField(x.fields, a.fields, path[0].key);
    }
  }

  lemma ObjectEntries(node: Node)
    requires node.Object?
    ensures Entries(node) == node.fields
  {}

  lemma Unselected(node: Node, path: seq<Segment>, edit: Edit)
    requires node.Object? && path != [] && !(path[0].Key? && HasField(node, path[0].key))
    ensures ReplaceAt(node, path, edit) == node
  {}

  /** Editing below a key rewrites that field and keeps the others. */
  lemma ReplacedField(node: Node, path: seq<Segment>, edit: Edit)
    requires node.Object? && path != [] && path[0].Key? && HasField(node, path[0].key)
    ensures var out, k := ReplaceAt(node, path, edit), FieldAt(node.fields, path[0].key);
            && k < |node.fields| && out.Object? && |out.fields| == |node.fields|
            && out.fields[k] == Field(node.fields[k].name, ReplaceAt(node.fields[k].node, path[1..], edit))
            && (forall i :: 0 <= i < |node.fields| ==> out.fields[i].name == node.fields[i].name)
            && (forall i :: 0 <= i < |node.fields| && i != k ==> out.fields[i] == node.fields[i])
  {}

  lemma {:induction false} QuietedSame(a: Node, b: Node, targets: seq<Target>, k: nat)
    requires k < |targets| && AgreeOff(a, b, targets[k].path)
    requires forall i :: 0 <= i < |targets| ==> Overwrites(targets[i].edit)
    ensures Apply(a, targets) == Apply(b, targets)
  {
    hide ReplaceAt, AgreeOff, Overwrites;
    var front, last := targets[..|targets| - 1], targets[|targets| - 1];
    if k < |targets| - 1 {
      QuietedSame(a, b, front, k);
    } else {
      StillAgree(a, b, front, last.path);
      OverwriteForgets(Apply(a, front), Apply(b, front), last.path, last.edit);
    }
  }

  lemma {:induction false} StillAgree(a: Node, b: Node, targets: seq<Target>, path: seq<Segment>)
    requires AgreeOff(a, b, path) && forall i :: 0 <= i < |targets| ==> Overwrites(targets[i].edit)
    ensures AgreeOff(Apply(a, targets), Apply(b, targets), path)
  {
    hide ReplaceAt, AgreeOff, Overwrites;
    if targets != [] {
      var front, last := targets[..|targets| - 1], targets[|targets| - 1];
      StillAgree(a, b, front, path);
      OverwriteAgrees(Apply(a, front), Apply(b, front), path, last.path, last.edit);
    }
  }

  /** Bodies that differ only in what one redaction or exclusion selects have one projection, whatever the other rules say. */
  lemma {:induction false} QuietValuesNeverShow(a: Node, b: Node, rules: Rules, k: nat, text: Json -> string)
    requires k < |Quieting(rules)| && AgreeOff(a, b, Quieting(rules)[k].path)
    ensures Project(a, rules, text) == Project(b, rules, text)
  {
    hide Apply, AgreeOff, Render;
    var quieting, rest := Quieting(rules), Normalizations(rules.normalize) + AsTargets(rules.compare, Compare);
    QuietedSame(a, b, quieting, k);
    ApplyMore(a, quieting, rest);
    ApplyMore(b, quieting, rest);
  }

  // ---- what no rule hides ----

  /** The node at a concrete path through lists and objects, marks not entered. */
  function At(node: Node, place: seq<Segment>): Option<Node>
    decreases |place|
  {
    if place == [] then Some(node)
    else
      match place[0]
      case Each => None
      case Index(k) => if node.List? && k < |node.items| then At(node.items[k], place[1..]) else None
      case Key(name) =>
        if node.Object? && HasField(node, name) then At(node.fields[FieldAt(node.fields, name)].node, place[1..]) else None
  }

  /** Does a rule's path select this place, or something above it? */
  predicate Reaches(path: seq<Segment>, place: seq<Segment>)
    decreases |path|
  {
    path == [] ||
    (place != [] && (path[0] == place[0] || (path[0].Each? && place[0].Index?)) && Reaches(path[1..], place[1..]))
  }

  function Names(node: Node): seq<string> {
    if node.Object? then seq(|node.fields|, i requires 0 <= i < |node.fields| => node.fields[i].name) else []
  }

  /** A rule that does not reach a place leaves the object there with its keys. */
  lemma {:induction false} KeysStay(node: Node, place: seq<Segment>, path: seq<Segment>, edit: Edit)
    requires At(node, place).Some? && At(node, place).value.Object? && !Reaches(path, place)
    ensures var out := At(ReplaceAt(node, path, edit), place);
            out.Some? && out.value.Object? && Names(out.value) == Names(At(node, place).value)
    decreases |place|
  {
    if place == [] {
      if path[0].Key? && HasField(node, path[0].key) {
        assert Names(ReplaceAt(node, path, edit)) == Names(node);
      }
    } else if place[0].Key? {
      KeysStayInObject(node, place, path, edit);
    } else {
      KeysStayInList(node, place, path, edit);
    }
  }

  lemma {:induction false} KeysStayInList(node: Node, place: seq<Segment>, path: seq<Segment>, edit: Edit)
    requires At(node, place).Some? && At(node, place).value.Object? && !Reaches(path, place) && place != [] && place[0].Index?
    ensures var out := At(ReplaceAt(node, path, edit), place);
            out.Some? && out.value.Object? && Names(out.value) == Names(At(node, place).value)
    decreases |place|, 0
  {
    var k := place[0].index;
    if path[0].Each? || path[0] == place[0] {
      KeysStay(node.items[k], place[1..], path[1..], edit);
    }
  }

  lemma {:induction false} KeysStayInObject(node: Node, place: seq<Segment>, path: seq<Segment>, edit: Edit)
    requires At(node, place).Some? && At(node, place).value.Object? && !Reaches(path, place) && place != [] && place[0].Key?
    ensures var out := At(ReplaceAt(node, path, edit), place);
            out.Some? && out.value.Object? && Names(out.value) == Names(At(node, place).value)
    decreases |place|, 0
  {
    var k := FieldAt(node.fields, place[0].key);
    if path[0].Key? && HasField(node, path[0].key) {
      var out := ReplaceAt(node, path, edit);
      SameField(out.fields, node.fields, place[0].key);
      if path[0] == place[0] {
        KeysStay(node.fields[k].node, place[1..], path[1..], edit);
      } else {
        assert out.fields[k] == node.fields[k];
      }
    }
  }

  lemma {:induction false} KeysStayThrough(node: Node, place: seq<Segment>, targets: seq<Target>)
    requires At(node, place).Some? && At(node, place).value.Object?
    requires forall i :: 0 <= i < |targets| ==> !Reaches(targets[i].path, place)
    ensures var out := At(Apply(node, targets), place);
            out.Some? && out.value.Object? && Names(out.value) == Names(At(node, place).value)
  {
    hide ReplaceAt, At, Reaches, Names;
    if targets != [] {
      var front, last := targets[..|targets| - 1], targets[|targets| - 1];
      KeysStayThrough(node, place, front);
      KeysStay(Apply(node, front), place, last.path, last.edit);
    }
  }

  // ---- rendering keeps keys in view ----

  function Keys(members: seq<Member>): (r: seq<string>)
    ensures |r| == |members|
  {
    seq(|members|, i requires 0 <= i < |members| => members[i].key)
  }

  lemma {:induction false} InsertKeeps(members: seq<Member>, m: Member)
    ensures multiset(InsertMember(members, m)) == multiset(members) + multiset{m}
  {
    if members != [] && !Pagination.Less(m.key, members[0].key) {
      InsertKeeps(members[1..], m);
      assert members == [members[0]] + members[1..];
    }
  }

  lemma {:induction false} SortKeeps(members: seq<Member>)
    ensures multiset(SortMembers(members)) == multiset(members)
  {
    if members != [] {
      var front, last := members[..|members| - 1], members[|members| - 1];
      SortKeeps(front);
      InsertKeeps(SortMembers(front), last);
      assert members == front + [last];
    }
  }

  ghost predicate DistinctNames(fields: seq<Field>) {
    forall i, j :: 0 <= i < j < |fields| ==> fields[i].name != fields[j].name
  }

  /** No object anywhere has two fields of one name. */
  ghost predicate WellKeyed(node: Node)
    decreases node
  {
    match node
    case List(items) => forall i :: 0 <= i < |items| ==> WellKeyed(items[i])
    case Object(fields) => DistinctNames(fields) && forall i :: 0 <= i < |fields| ==> WellKeyed(fields[i].node)
    case Verbatim(inner) => WellKeyed(inner)
    case Normalized(_, inner) => WellKeyed(inner)
    case _ => true
  }

  lemma {:induction false} EditKeeps(node: Node, path: seq<Segment>, edit: Edit)
    requires WellKeyed(node)
    ensures WellKeyed(ReplaceAt(node, path, edit))
    decreases |path|
  {
    if path != [] {
      match path[0]
      case Each => if node.List? { forall i | 0 <= i < |node.items| ensures WellKeyed(ReplaceAt(node.items[i], path[1..], edit)) {
        EditKeeps(node.items[i], path[1..], edit);
      } }
      case Index(k) => if node.List? && k < |node.items| { EditKeeps(node.items[k], path[1..], edit); }
      case Key(name) =>
        if HasField(node, name) {
          EntriesKeyed(node);
          EditKeeps(Entries(node)[FieldAt(Entries(node), name)].node, path[1..], edit);
        }
    }
  }

  lemma EntriesKeyed(node: Node)
    requires WellKeyed(node)
    ensures DistinctNames(Entries(node)) && forall i :: 0 <= i < |Entries(node)| ==> WellKeyed(Entries(node)[i].node)
  {}

  lemma {:induction false} ApplyKeeps(node: Node, targets: seq<Target>)
    requires WellKeyed(node)
    ensures WellKeyed(Apply(node, targets))
  {
    hide ReplaceAt, WellKeyed;
    if targets != [] {
      ApplyKeeps(node, targets[..|targets| - 1]);
      EditKeeps(Apply(node, targets[..|targets| - 1]), targets[|targets| - 1].path, targets[|targets| - 1].edit);
    }
  }

  /** Reading a key of a rendered object gives the rendered field. */
  lemma {:induction false} RenderedField(fields: seq<Field>, k: nat, literal: bool, text: Json -> string)
    requires k < |fields| && DistinctNames(fields)
    ensures Child(Obj(SortMembers(Rendered(fields, literal, text))), fields[k].name) == Some(Render(fields[k].node, literal, text))
  {
    hide Render, SortMembers;
    var members := Rendered(fields, literal, text);
    var sorted := SortMembers(members);
    SortKeeps(members);
    assert members[k] in multiset(members);
    var j :| 0 <= j < |sorted| && sorted[j] == members[k];
    var at := KeyAt(sorted, fields[k].name);
    assert sorted[j].key == fields[k].name;
    assert sorted[at] in multiset(sorted);
    var i :| 0 <= i < |members| && members[i] == sorted[at];
    assert fields[i].name == fields[k].name;
  }

  /** At every place of a node with plain lists and objects above it, the projection has the rendered node. */
  lemma {:induction false} RendersInPlace(node: Node, place: seq<Segment>, literal: bool, text: Json -> string)
    requires WellKeyed(node) && At(node, place).Some?
    ensures ReadAt(Some(Render(node, literal, text)), place) == Some(Render(At(node, place).value, literal, text))
    decreases |place|
  {
    if place != [] {
      match place[0]
      case Index(k) => RendersInPlace(node.items[k], place[1..], literal, text);
      case Key(name) =>
        var k := FieldAt(node.fields, name);
        RenderedField(node.fields, k, literal, text);
        RendersInPlace(node.fields[k].node, place[1..], literal, text);
    }
  }

  lemma {:induction false} KeysAreSorted(fields: seq<Field>, literal: bool, text: Json -> string, name: string)
    ensures (exists i :: 0 <= i < |fields| && fields[i].name == name) <==>
            Child(Obj(SortMembers(Rendered(fields, literal, text))), name).Some?
  {
    hide Render, SortMembers;
    var members := Rendered(fields, literal, text);
    var sorted := SortMembers(members);
    SortKeeps(members);
    if i :| 0 <= i < |fields| && fields[i].name == name {
      assert members[i] in multiset(members);
      var j :| 0 <= j < |sorted| && sorted[j] == members[i];
      assert sorted[j].key == name;
    }
    var at := KeyAt(sorted, name);
    if at < |sorted| {
      assert sorted[at] in multiset(sorted);
      var i :| 0 <= i < |members| && members[i] == sorted[at];
      assert fields[i].name == name;
    }
  }

  predicate HasName(node: Node, name: string) {
    exists i :: 0 <= i < |Names(node)| && Names(node)[i] == name
  }

  /** In the projection, an object that no rule reaches shows exactly its own keys. */
  lemma {:induction false} KeysShow(body: Node, place: seq<Segment>, rules: Rules, text: Json -> string, name: string)
    requires WellKeyed(body) && At(body, place).Some? && At(body, place).value.Object?
    requires forall i :: 0 <= i < |Targets(rules)| ==> !Reaches(Targets(rules)[i].path, place)
    ensures var shown := ReadAt(Some(Project(body, rules, text)), place);
            shown.Some? && (Child(shown.value, name).Some? <==> HasName(At(body, place).value, name))
  {
    hide Apply, ReadAt, At, Reaches, Targets, SortMembers;
    var targets := Targets(rules);
    KeysStayThrough(body, place, targets);
    ApplyKeeps(body, targets);
    RendersInPlace(Applied(body, rules), place, false, text);
    var node := At(Applied(body, rules), place).value;
    KeysAreSorted(node.fields, false, text, name);
    NamesAre(node, name);
    assert Names(node) == Names(At(body, place).value);
  }

  lemma {:induction false} NamesAre(node: Node, name: string)
    requires node.Object?
    ensures HasName(node, name) <==> exists i :: 0 <= i < |node.fields| && node.fields[i].name == name
  {
    if i :| 0 <= i < |node.fields| && node.fields[i].name == name {
      assert Names(node)[i] == name;
    }
  }

  /** A key added, removed or renamed where no rule reaches always changes the projection. */
  lemma {:induction false} KeyChangesShow(a: Node, b: Node, place: seq<Segment>, rules: Rules, text: Json -> string, name: string)
    requires WellKeyed(a) && At(a, place).Some? && At(a, place).value.Object?
    requires WellKeyed(b) && At(b, place).Some? && At(b, place).value.Object?
    requires forall i :: 0 <= i < |Targets(rules)| ==> !Reaches(Targets(rules)[i].path, place)
    requires HasName(At(a, place).value, name) != HasName(At(b, place).value, name)
    ensures Project(a, rules, text) != Project(b, rules, text)
  {
    hide Project, ReadAt, At, Reaches, Targets, HasName, WellKeyed;
    KeysShow(a, place, rules, text, name);
    KeysShow(b, place, rules, text, name);
  }

  // ---- the sorted rule ----

  function TextsOf(values: seq<Json>, text: Json -> string): (r: seq<string>)
    ensures |r| == |values| && forall i :: 0 <= i < |r| ==> r[i] == text(values[i])
  {
    seq(|values|, i requires 0 <= i < |values| => text(values[i]))
  }

  ghost predicate Ascending(texts: seq<string>) {
    forall i, j :: 0 <= i < j < |texts| ==> !Pagination.Less(texts[j], texts[i])
  }

  lemma {:induction false} InsertTextKeeps(values: seq<Json>, v: Json, text: Json -> string)
    ensures multiset(InsertByText(values, v, text)) == multiset(values) + multiset{v}
  {
    if values != [] && !Pagination.Less(text(v), text(values[0])) {
      InsertTextKeeps(values[1..], v, text);
      assert values == [values[0]] + values[1..];
    }
  }

  lemma {:induction false} InsertTextAscends(values: seq<Json>, v: Json, text: Json -> string)
    requires Ascending(TextsOf(values, text))
    ensures Ascending(TextsOf(InsertByText(values, v, text), text))
  {
    var out := InsertByText(values, v, text);
    if values == [] {
    } else if Pagination.Less(text(v), text(values[0])) {
      forall j | 0 <= j < |values| ensures !Pagination.Less(text(values[j]), text(v)) {
        NotBefore(text(v), text(values[0]), text(values[j]), j == 0 || !Pagination.Less(TextsOf(values, text)[j], TextsOf(values, text)[0]));
      }
    } else {
      AscendingTail(values, text);
      InsertTextAscends(values[1..], v, text);
      InsertTextKeeps(values[1..], v, text);
      var tail := InsertByText(values[1..], v, text);
      forall j | 0 <= j < |tail| ensures !Pagination.Less(text(tail[j]), text(values[0])) {
        assert tail[j] in multiset(tail);
        if tail[j] != v {
          var k :| 0 <= k < |values[1..]| && values[1..][k] == tail[j];
          assert !Pagination.Less(TextsOf(values, text)[k + 1], TextsOf(values, text)[0]);
        }
      }
    }
  }

  lemma {:induction false} AscendingTail(values: seq<Json>, text: Json -> string)
    requires values != [] && Ascending(TextsOf(values, text))
    ensures Ascending(TextsOf(values[1..], text))
  {
    assert TextsOf(values[1..], text) == TextsOf(values, text)[1..];
  }

  lemma {:induction false} NotBefore(v: string, first: string, later: string, ordered: bool)
    requires Pagination.Less(v, first) && ordered && (ordered ==> later == first || !Pagination.Less(later, first))
    ensures !Pagination.Less(later, v)
  {
    if Pagination.Less(later, v) {
      Pagination.LessTransitive(later, v, first);
      Pagination.LessTotal(first, first);
    }
  }

  lemma {:induction false} SortTextSorts(values: seq<Json>, text: Json -> string)
    ensures Ascending(TextsOf(SortByText(values, text), text)) && multiset(SortByText(values, text)) == multiset(values)
  {
    if values != [] {
      var front, last := values[..|values| - 1], values[|values| - 1];
      SortTextSorts(front, text);
      InsertTextKeeps(SortByText(front, text), last, text);
      InsertTextAscends(SortByText(front, text), last, text);
      assert values == front + [last];
    }
  }

  function Map<A, B>(f: A -> B, values: seq<A>): (r: seq<B>)
    ensures |r| == |values| && forall i :: 0 <= i < |r| ==> r[i] == f(values[i])
  {
    seq(|values|, i requires 0 <= i < |values| => f(values[i]))
  }

  lemma {:induction false} WithoutLast<A(!new)>(a: seq<A>, b: seq<A>) returns (k: nat)
    requires a != [] && multiset(a) == multiset(b)
    ensures k < |b| && b[k] == a[|a| - 1] && multiset(a[..|a| - 1]) == multiset(b[..k] + b[k + 1..])
  {
    var front, last := a[..|a| - 1], a[|a| - 1];
    assert a == front + [last];
    assert last in multiset(b);
    k :| 0 <= k < |b| && b[k] == last;
    assert b == b[..k] + ([last] + b[k + 1..]);
    assert multiset(b) == multiset(b[..k]) + multiset{last} + multiset(b[k + 1..]);
    assert multiset(front) == multiset(a) - multiset{last};
    assert multiset(b[..k] + b[k + 1..]) == multiset(b) - multiset{last};
  }

  lemma {:induction false} MapSplit<A, B(!new)>(f: A -> B, p: seq<A>, x: A, q: seq<A>)
    ensures multiset(Map(f, p + [x] + q)) == multiset(Map(f, p + q)) + multiset{f(x)}
  {
    assert Map(f, p + [x] + q) == Map(f, p) + ([f(x)] + Map(f, q));
    assert Map(f, p + q) == Map(f, p) + Map(f, q);
  }

  /** Rearranging values rearranges what is made of each. */
  lemma {:induction false} MapRearranged<A(!new), B(!new)>(f: A -> B, a: seq<A>, b: seq<A>)
    requires multiset(a) == multiset(b)
    ensures multiset(Map(f, a)) == multiset(Map(f, b))
    decreases |a|
  {
    if a == [] {
      assert |multiset(b)| == |b|;
    } else {
      var k := WithoutLast(a, b);
      var front, last := a[..|a| - 1], a[|a| - 1];
      MapRearranged(f, front, b[..k] + b[k + 1..]);
      MapSplit(f, front, last, []);
      MapSplit(f, b[..k], last, b[k + 1..]);
      assert front + [last] + [] == a && front + [] == front && b[..k] + [last] + b[k + 1..] == b;
    }
  }

  lemma {:induction false} SameLeast(a: seq<string>, b: seq<string>)
    requires Ascending(a) && Ascending(b) && a != [] && b != [] && multiset(a) == multiset(b)
    ensures a[0] == b[0]
  {
    assert a[0] in multiset(b) && b[0] in multiset(a);
    var i :| 0 <= i < |b| && b[i] == a[0];
    var j :| 0 <= j < |a| && a[j] == b[0];
    Pagination.LessTotal(a[0], b[0]);
  }

  lemma {:induction false} AscendingUnique(a: seq<string>, b: seq<string>)
    requires Ascending(a) && Ascending(b) && multiset(a) == multiset(b)
    ensures a == b
    decreases |a|
  {
    hide Ascending;
    assert |multiset(a)| == |a| && |multiset(b)| == |b|;
    if a != [] {
      SameLeast(a, b);
      assert a == [a[0]] + a[1..] && b == [b[0]] + b[1..];
      assert multiset(a[1..]) == multiset(a) - multiset{a[0]};
      assert multiset(b[1..]) == multiset(b) - multiset{b[0]};
      AscendingRest(a);
      AscendingRest(b);
      AscendingUnique(a[1..], b[1..]);
    }
  }

  lemma AscendingRest(a: seq<string>)
    requires a != [] && Ascending(a)
    ensures Ascending(a[1..])
  {}

  /** Sorting by text forgets the order the values came in. */
  lemma {:induction false} SortForgetsOrder(a: seq<Json>, b: seq<Json>, text: Json -> string)
    requires multiset(a) == multiset(b)
    ensures TextsOf(SortByText(a, text), text) == TextsOf(SortByText(b, text), text)
  {
    hide SortByText, Ascending;
    SortTextSorts(a, text);
    SortTextSorts(b, text);
    MapRearranged(text, SortByText(a, text), SortByText(b, text));
    assert Map(text, SortByText(a, text)) == TextsOf(SortByText(a, text), text);
    assert Map(text, SortByText(b, text)) == TextsOf(SortByText(b, text), text);
    AscendingUnique(TextsOf(SortByText(a, text), text), TextsOf(SortByText(b, text), text));
  }

  /** Under the `sorted` rule a list's projection is the same, text for text, in whatever order its elements came. */
  lemma {:induction false} SortedRuleIgnoresOrder(a: seq<Node>, b: seq<Node>, literal: bool, text: Json -> string)
    requires multiset(a) == multiset(b)
    ensures var x, y := Render(Normalized(Sorted, List(a)), literal, text), Render(Normalized(Sorted, List(b)), literal, text);
            && x.Arr? && y.Arr? && TextsOf(x.items, text) == TextsOf(y.items, text)
            && ((forall u, v :: text(u) == text(v) ==> u == v) ==> x == y)
  {
    hide SortByText;
    var f := (n: Node) => Render(n, literal, text);
    MapRearranged(f, a, b);
    var x, y := Render(Normalized(Sorted, List(a)), literal, text), Render(Normalized(Sorted, List(b)), literal, text);
    assert Map(f, a) == seq(|a|, i requires 0 <= i < |a| => Render(a[i], literal, text));
    assert Map(f, b) == seq(|b|, i requires 0 <= i < |b| => Render(b[i], literal, text));
    SortForgetsOrder(Map(f, a), Map(f, b), text);
    if forall u, v :: text(u) == text(v) ==> u == v {
      assert |TextsOf(x.items, text)| == |TextsOf(y.items, text)|;
      assert forall i :: 0 <= i < |x.items| ==> text(x.items[i]) == TextsOf(x.items, text)[i] == text(y.items[i]);
      assert x.items == y.items;
    }
  }

  // ---- the order of keys ----

  ghost predicate InKeyOrder(members: seq<Member>) {
    forall i, j :: 0 <= i < j < |members| ==> Pagination.Less(members[i].key, members[j].key)
  }

  lemma {:induction false} InsertOrders(members: seq<Member>, m: Member)
    requires InKeyOrder(members) && forall i :: 0 <= i < |members| ==> members[i].key != m.key
    ensures InKeyOrder(InsertMember(members, m))
  {
    if members == [] {
    } else if Pagination.Less(m.key, members[0].key) {
      forall j | 0 <= j < |members| ensures Pagination.Less(m.key, members[j].key) {
        if j > 0 { Pagination.LessTransitive(m.key, members[0].key, members[j].key); }
      }
    } else {
      InsertOrders(members[1..], m);
      InsertKeeps(members[1..], m);
      Pagination.LessTotal(m.key, members[0].key);
      var tail := InsertMember(members[1..], m);
      forall j | 0 <= j < |tail| ensures Pagination.Less(members[0].key, tail[j].key) {
        assert tail[j] in multiset(tail);
      }
    }
  }

  lemma {:induction false} SortOrders(members: seq<Member>)
    requires forall i, j :: 0 <= i < j < |members| ==> members[i].key != members[j].key
    ensures InKeyOrder(SortMembers(members))
  {
    if members != [] {
      var front, last := members[..|members| - 1], members[|members| - 1];
      SortOrders(front);
      SortKeeps(front);
      forall i | 0 <= i < |SortMembers(front)| ensures SortMembers(front)[i].key != last.key {
        assert SortMembers(front)[i] in multiset(front);
      }
      InsertOrders(SortMembers(front), last);
    }
  }

  lemma {:induction false} SameFirst(a: seq<Member>, b: seq<Member>)
    requires InKeyOrder(a) && InKeyOrder(b) && a != [] && b != [] && multiset(a) == multiset(b)
    ensures a[0] == b[0]
  {
    assert a[0] in multiset(b) && b[0] in multiset(a);
    var i :| 0 <= i < |b| && b[i] == a[0];
    var j :| 0 <= j < |a| && a[j] == b[0];
    Pagination.LessTotal(a[0].key, b[0].key);
  }

  lemma InKeyOrderRest(a: seq<Member>)
    requires a != [] && InKeyOrder(a)
    ensures InKeyOrder(a[1..])
  {}

  lemma {:induction false} OneKeyOrder(a: seq<Member>, b: seq<Member>)
    requires InKeyOrder(a) && InKeyOrder(b) && multiset(a) == multiset(b)
    ensures a == b
    decreases |a|
  {
    hide InKeyOrder;
    assert |multiset(a)| == |a| && |multiset(b)| == |b|;
    if a != [] {
      SameFirst(a, b);
      assert a == [a[0]] + a[1..] && b == [b[0]] + b[1..];
      assert multiset(a[1..]) == multiset(a) - multiset{a[0]};
      assert multiset(b[1..]) == multiset(b) - multiset{b[0]};
      InKeyOrderRest(a);
      InKeyOrderRest(b);
      OneKeyOrder(a[1..], b[1..]);
    }
  }

  /** The keys of a projection come in ascending order, and the order of an object's fields never shows. */
  lemma {:induction false} FieldOrderNeverShows(a: seq<Field>, b: seq<Field>, literal: bool, text: Json -> string)
    requires DistinctNames(a) && multiset(a) == multiset(b)
    ensures Render(Object(a), literal, text) == Render(Object(b), literal, text)
    ensures InKeyOrder(Render(Object(a), literal, text).members)
  {
    hide SortMembers;
    var f := (field: Field) => Member(field.name, Render(field.node, literal, text));
    var u, v := Rendered(a, literal, text), Rendered(b, literal, text);
    MapRearranged(f, a, b);
    assert Map(f, a) == u && Map(f, b) == v;
    SortKeeps(u);
    SortKeeps(v);
    SortOrders(u);
    assert forall i, j :: 0 <= i < j < |b| ==> b[i].name != b[j].name by { StillDistinct(a, b); }
    SortOrders(v);
    OneKeyOrder(SortMembers(u), SortMembers(v));
  }

  lemma {:induction false} StillDistinct(a: seq<Field>, b: seq<Field>)
    requires DistinctNames(a) && multiset(a) == multiset(b)
    ensures DistinctNames(b)
    decreases |a|
  {
    if a != [] {
      var k := WithoutLast(a, b);
      var front, others := a[..|a| - 1], b[..k] + b[k + 1..];
      StillDistinct(front, others);
      forall j | 0 <= j < |b| && j != k ensures b[j].name != b[k].name {
        assert others[if j < k then j else j - 1] == b[j];
        assert b[j] in multiset(front);
        var i :| 0 <= i < |front| && front[i] == b[j];
        assert a[i].name != a[|a| - 1].name;
      }
      forall i, j | 0 <= i < j < |b| ensures b[i].name != b[j].name {
        if i != k && j != k {
          assert others[if i < k then i else i - 1] == b[i] && others[if j < k then j else j - 1] == b[j];
        }
      }
    } else {
      assert |multiset(b)| == |b|;
    }
  }
}

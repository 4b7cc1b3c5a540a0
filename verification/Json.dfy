/**
  Parsed JSON documents and the field paths that walk them. `undefined` is None; an
  object keeps its members in insertion order, as the engine does.
*/
module Json {
  import opened Common

  datatype Json = Null | Bool(flag: bool) | Num(value: int) | Str(text: string) | Arr(items: seq<Json>) | Obj(members: seq<Member>)

  datatype Member = Member(key: string, value: Json)

  datatype Segment = Key(key: string) | Each | Index(index: nat)

  /** No object has two members of one name; parsing a text never gives one that has. */
  ghost predicate DistinctKeys(node: Json)
    decreases node
  {
    match node
    case Arr(items) => forall i :: 0 <= i < |items| ==> DistinctKeys(items[i])
    case Obj(members) =>
      && (forall i, j :: 0 <= i < j < |members| ==> members[i].key != members[j].key)
      && (forall i :: 0 <= i < |members| ==> DistinctKeys(members[i].value))
    case _ => true
  }

  /** Position of the member with this key, or the number of members. */
  function KeyAt(members: seq<Member>, key: string): (k: nat)
    ensures k <= |members|
    ensures k < |members| ==> members[k].key == key
    ensures forall j :: 0 <= j < k ==> members[j].key != key
  {
    if members == [] || members[0].key == key then 0 else 1 + KeyAt(members[1..], key)
  }

  /** The member a step names, when the node is an object that has it. */
  function Child(node: Json, key: string): (r: Option<Json>)
    ensures r.Some? ==> r.value < node
  {
    if node.Obj? && KeyAt(node.members, key) < |node.members| then Some(node.members[KeyAt(node.members, key)].value) else None
  }

  function Element(node: Json, index: nat): (r: Option<Json>)
    ensures r.Some? ==> r.value < node
  {
    if node.Arr? && index < |node.items| then Some(node.items[index]) else None
  }

  /** The node a path selects; `[*]` yields the first element that resolves. */
  function ReadAt(node: Option<Json>, path: seq<Segment>): Option<Json>
    decreases |path|, 0
  {
    if path == [] || node.None? then node
    else
      match path[0]
      case Key(key) => ReadAt(Child(node.value, key), path[1..])
      case Index(index) => ReadAt(Element(node.value, index), path[1..])
      case Each => if node.value.Arr? then FirstAt(node.value.items, path[1..]) else None
  }

  function FirstAt(items: seq<Json>, path: seq<Segment>): Option<Json>
    decreases |path|, 1, |items|
  {
    if items == [] then None
    else
      var found := ReadAt(Some(items[0]), path);
      if found.Some? then found else FirstAt(items[1..], path)
  }

  /** Every node a path selects, all elements under `[*]`. */
  function CollectAt(node: Option<Json>, path: seq<Segment>): seq<Json>
    decreases |path|, 0
  {
    if node.None? then []
    else if path == [] then [node.value]
    else
      match path[0]
      case Key(key) => CollectAt(Child(node.value, key), path[1..])
      case Index(index) => CollectAt(Element(node.value, index), path[1..])
      case Each => if node.value.Arr? then CollectEach(node.value.items, path[1..]) else []
  }

  function CollectEach(items: seq<Json>, path: seq<Segment>): seq<Json>
    decreases |path|, 1, |items|
  {
    if items == [] then [] else CollectAt(Some(items[0]), path) + CollectEach(items[1..], path)
  }

  /** What a path reads is the first of what it collects. */
  lemma {:induction false} ReadsFirst(node: Option<Json>, path: seq<Segment>)
    ensures ReadAt(node, path) == if CollectAt(node, path) == [] then None else Some(CollectAt(node, path)[0])
    decreases |path|, 0
  {
    if node.Some? && path != [] {
      match path[0]
      case Key(key) => ReadsFirst(Child(node.value, key), path[1..]);
      case Index(index) => ReadsFirst(Element(node.value, index), path[1..]);
      case Each => if node.value.Arr? { FirstOfEach(node.value.items, path[1..]); }
    }
  }

  lemma {:induction false} FirstOfEach(items: seq<Json>, path: seq<Segment>)
    ensures FirstAt(items, path) == if CollectEach(items, path) == [] then None else Some(CollectEach(items, path)[0])
    decreases |path|, 1, |items|
  {
    if items != [] {
      ReadsFirst(Some(items[0]), path);
      FirstOfEach(items[1..], path);
    }
  }
}

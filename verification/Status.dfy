/**
  Step-scoped status equivalence: which two observed statuses count as the same for drift,
  and the one token that stands for a status when snapshots are compared.
*/
module Status {
  import opened Common
  import opened Text
  import Pagination

  /** A declared group: a class such as "2xx", or a list of statuses. */
  datatype Group = Class(pattern: string) | Listed(members: seq<string>)

  predicate IsStatus(s: string) {
    |s| == 3 && IsDigit(s[0]) && IsDigit(s[1]) && IsDigit(s[2])
  }

  predicate IsX(c: char) {
    c == 'x' || c == 'X'
  }

  predicate IsClass(p: string) {
    |p| == 3 && '1' <= p[0] <= '5' && IsX(p[1]) && IsX(p[2])
  }

  predicate Matches(pattern: string, status: string) {
    if IsClass(pattern) then IsStatus(status) && status[0] == pattern[0] else pattern == status
  }

  predicate Has(g: Group, status: string) {
    match g
    case Class(pattern) => Matches(pattern, status)
    case Listed(members) => status in members
  }

  // ---- what equivalence means ----

  ghost predicate Equivalent(groups: seq<Group>, a: string, b: string) {
    a == b || exists k :: 0 <= k < |groups| && Has(groups[k], a) && Has(groups[k], b)
  }

  /** Position of the first group that has this status, or the number of groups. */
  function GroupOf(groups: seq<Group>, status: string): (k: nat)
    ensures k <= |groups|
    ensures k < |groups| ==> Has(groups[k], status)
    ensures forall j :: 0 <= j < k ==> !Has(groups[j], status)
  {
    if groups == [] || Has(groups[0], status) then 0 else 1 + GroupOf(groups[1..], status)
  }

  /** The first of a list in string order. */
  function Lowest(members: seq<string>): (r: string)
    requires members != []
    ensures r in members
  {
    if |members| == 1 then members[0]
    else
      var rest := Lowest(members[1..]);
      if Pagination.Less(rest, members[0]) then rest else members[0]
  }

  function Canonical(groups: seq<Group>, status: string): string {
    var k := GroupOf(groups, status);
    if k == |groups| then status
    else
      match groups[k]
      case Class(pattern) => pattern
      case Listed(members) => Lowest(members)
  }

  lemma {:induction false} LowestIsLeast(members: seq<string>)
    requires members != []
    ensures forall k :: 0 <= k < |members| ==> !Pagination.Less(members[k], Lowest(members))
  {
    if |members| == 1 {
      Pagination.LessTotal(members[0], members[0]);
    } else {
      LowestIsLeast(members[1..]);
      var rest := Lowest(members[1..]);
      Pagination.LessTotal(rest, members[0]);
      forall k | 0 <= k < |members| ensures !Pagination.Less(members[k], Lowest(members)) {
        if k > 0 {
          assert members[k] == members[1..][k - 1];
          if Pagination.Less(members[k], members[0]) && Lowest(members) == members[0] {
            NotBelow(members[k], members[0], rest);
          }
        } else {
          Pagination.LessTotal(members[0], members[0]);
        }
      }
    }
  }

  lemma {:induction false} NotBelow(x: string, y: string, rest: string)
    requires Pagination.Less(x, y) && !Pagination.Less(x, rest)
    ensures Pagination.Less(rest, y)
  {
    Pagination.LessTotal(x, rest);
    if x != rest { Pagination.LessTransitive(rest, x, y); }
  }

  // ---- the source's loops ----

  method StatusesEquivalent(groups: seq<Group>, a: string, b: string) returns (same: bool)
    ensures same <==> Equivalent(groups, a, b)
  {
    if a == b { return true; }
    var i := 0;
    while i < |groups|
      invariant 0 <= i <= |groups|
      invariant forall k :: 0 <= k < i ==> !(Has(groups[k], a) && Has(groups[k], b))
    {
      match groups[i] {
        case Class(pattern) =>
          if Matches(pattern, a) && Matches(pattern, b) { return true; }
        case Listed(members) =>
          if a in members && b in members { return true; }
      }
      i := i + 1;
    }
    same := false;
  }

  method CanonicalStatus(groups: seq<Group>, status: string) returns (token: string)
    requires forall k :: 0 <= k < |groups| && groups[k].Listed? ==> groups[k].members != []
    ensures token == Canonical(groups, status)
  {
    var i := 0;
    while i < |groups|
      invariant 0 <= i <= |groups|
      invariant forall k :: 0 <= k < i ==> !Has(groups[k], status)
    {
      assert Has(groups[i], status) ==> GroupOf(groups, status) == i;
      match groups[i] {
        case Class(pattern) =>
          if Matches(pattern, status) { return pattern; }
        case Listed(members) =>
          if status in members { token := SortedFirst(members); return; }
      }
      i := i + 1;
    }
    token := status;
  }

  /** The first element after sorting: one pass keeping the least. */
  method SortedFirst(members: seq<string>) returns (first: string)
    requires members != []
    ensures first == Lowest(members)
  {
    var i := |members| - 1;
    first := members[i];
    while i > 0
      invariant 0 <= i < |members|
      invariant first == Lowest(members[i..])
    {
      i := i - 1;
      assert members[i..][1..] == members[i + 1..];
      if !Pagination.Less(first, members[i]) { first := members[i]; }
    }
  }

  // ---- configuration ----

  /** What a suite may write for one group, already as text. */
  datatype Declared = Text(text: string) | List(entries: seq<string>) | Other

  function Lower(c: char): char {
    if 'A' <= c <= 'Z' then ((c as int) + 32) as char else c
  }

  predicate Normalized(g: Group) {
    match g
    case Class(pattern) => IsClass(pattern) && pattern[1..] == "xx"
    case Listed(members) => |members| >= 2 && forall k :: 0 <= k < |members| ==> IsStatus(members[k])
  }

  /** The group a declaration stands for; None is a configuration error. Texts arrive trimmed. */
  function GroupFor(d: Declared): Option<Group> {
    match d
    case Text(text) => if IsClass(text) then Some(Class([text[0], Lower(text[1]), Lower(text[2])])) else None
    case List(entries) => if |entries| >= 2 && forall k :: 0 <= k < |entries| ==> IsStatus(entries[k]) then Some(Listed(entries)) else None
    case Other => None
  }

  /** A declared class stands for the statuses of its first digit, in whatever case it is written; a list for its entries. */
  lemma GroupMeans(d: Declared, status: string)
    ensures GroupFor(d).Some? ==>
              (Has(GroupFor(d).value, status) <==>
                 match d
                 case Text(text) => text != "" && IsStatus(status) && status[0] == text[0]
                 case List(entries) => status in entries
                 case Other => false)
  {}

  method NormalizeGroups(declared: seq<Declared>) returns (r: Option<seq<Group>>)
    ensures r.None? <==> exists k :: 0 <= k < |declared| && GroupFor(declared[k]).None?
    ensures r.Some? ==> |r.value| == |declared| && forall k :: 0 <= k < |declared| ==>
              GroupFor(declared[k]) == Some(r.value[k]) && Normalized(r.value[k])
  {
    var groups, i := [], 0;
    while i < |declared|
      invariant 0 <= i <= |declared| && |groups| == i
      invariant forall k :: 0 <= k < i ==> GroupFor(declared[k]) == Some(groups[k]) && Normalized(groups[k])
    {
      var g := GroupFor(declared[i]);
      if g.None? { return None; }
      groups := groups + [g.value];
      i := i + 1;
    }
    r := Some(groups);
  }

  // ---- the theorems ----

  ghost predicate Disjoint(groups: seq<Group>) {
    forall i, j, s :: 0 <= i < j < |groups| && Has(groups[i], s) ==> !Has(groups[j], s)
  }

  ghost predicate AllNormalized(groups: seq<Group>) {
    forall k :: 0 <= k < |groups| ==> Normalized(groups[k])
  }

  ghost predicate Transitive(groups: seq<Group>) {
    forall a, b, c :: Equivalent(groups, a, b) && Equivalent(groups, b, c) ==> Equivalent(groups, a, c)
  }

  /** Overlapping groups that already relate their members pairwise. */
  ghost predicate OverlapsAgree(groups: seq<Group>) {
    forall i, j, s, a, c ::
      (0 <= i < |groups| && 0 <= j < |groups| && Has(groups[i], s) && Has(groups[j], s) && Has(groups[i], a) && Has(groups[j], c))
      ==> Equivalent(groups, a, c)
  }

  /** Equivalence is always reflexive and symmetric; it is transitive exactly when overlapping groups agree. */
  lemma {:induction false} EquivalenceWhen(groups: seq<Group>)
    ensures forall a :: Equivalent(groups, a, a)
    ensures forall a, b :: Equivalent(groups, a, b) ==> Equivalent(groups, b, a)
    ensures Transitive(groups) <==> OverlapsAgree(groups)
    ensures Disjoint(groups) ==> Transitive(groups)
  {
    if Transitive(groups) {
      forall i, j, s, a, c | 0 <= i < |groups| && 0 <= j < |groups| && Has(groups[i], s) && Has(groups[j], s)
                             && Has(groups[i], a) && Has(groups[j], c)
        ensures Equivalent(groups, a, c)
      {
        assert Equivalent(groups, a, s) && Equivalent(groups, s, c);
      }
    }
    if OverlapsAgree(groups) {
      forall a, b, c | Equivalent(groups, a, b) && Equivalent(groups, b, c) ensures Equivalent(groups, a, c) {
        if a != b && b != c {
          var i :| 0 <= i < |groups| && Has(groups[i], a) && Has(groups[i], b);
          var j :| 0 <= j < |groups| && Has(groups[j], b) && Has(groups[j], c);
        }
      }
    }
    if Disjoint(groups) {
      forall i, j, s, a, c | 0 <= i < |groups| && 0 <= j < |groups| && Has(groups[i], s) && Has(groups[j], s)
                             && Has(groups[i], a) && Has(groups[j], c)
        ensures Equivalent(groups, a, c)
      {
        assert i == j;
      }
    }
  }

  function Token(g: Group): string
    requires Normalized(g)
  {
    match g
    case Class(pattern) => pattern
    case Listed(members) => Lowest(members)
  }

  /** The group that gives a status its token. */
  predicate First(groups: seq<Group>, i: nat, s: string) {
    i < |groups| && IsStatus(s) && GroupOf(groups, s) == i
  }

  /** Within a group, the first groups of all its members have one token. */
  ghost predicate OneTokenWithin(groups: seq<Group>)
    requires AllNormalized(groups)
  {
    forall k, i: nat, j: nat, a, b ::
      (0 <= k < |groups| && First(groups, i, a) && First(groups, j, b) && Has(groups[k], a) && Has(groups[k], b))
      ==> Token(groups[i]) == Token(groups[j])
  }

  /** Two lists with one lowest member relate, pair by pair, the statuses they give that token to. */
  ghost predicate SharedLowestRelate(groups: seq<Group>)
    requires AllNormalized(groups)
  {
    forall i: nat, j: nat, a, b ::
      (First(groups, i, a) && First(groups, j, b) && groups[i].Listed? && groups[j].Listed?
       && Lowest(groups[i].members) == Lowest(groups[j].members))
      ==> Equivalent(groups, a, b)
  }

  ghost predicate TokensDecide(groups: seq<Group>) {
    forall a, b :: IsStatus(a) && IsStatus(b) ==> (Canonical(groups, a) == Canonical(groups, b) <==> Equivalent(groups, a, b))
  }

  lemma {:induction false} TokenOf(groups: seq<Group>, s: string)
    requires AllNormalized(groups) && IsStatus(s)
    ensures var k := GroupOf(groups, s); k < |groups| ==> Canonical(groups, s) == Token(groups[k])
  {}

  lemma {:induction false} TokenKind(g: Group)
    requires Normalized(g)
    ensures g.Class? <==> !IsStatus(Token(g))
    ensures g.Listed? ==> Has(g, Token(g))
  {}

  /** A shared token comes from one group, or from two groups of a kind. */
  lemma {:induction false} SharedToken(groups: seq<Group>, a: string, b: string)
    requires AllNormalized(groups) && IsStatus(a) && IsStatus(b) && a != b && Canonical(groups, a) == Canonical(groups, b)
    ensures var i, j := GroupOf(groups, a), GroupOf(groups, b);
            && i < |groups| && j < |groups|
            && (i == j || (groups[i].Listed? && groups[j].Listed? && Lowest(groups[i].members) == Lowest(groups[j].members)))
  {
    hide Lowest;
    var i, j := GroupOf(groups, a), GroupOf(groups, b);
    TokenOf(groups, a);
    TokenOf(groups, b);
    if i < |groups| { assert Normalized(groups[i]); TokenKind(groups[i]); }
    if j < |groups| { assert Normalized(groups[j]); TokenKind(groups[j]); }
    if i < |groups| && j < |groups| && groups[i].Class? {
      assert groups[i].pattern == groups[j].pattern;
      assert Has(groups[i], b) && Has(groups[j], a);
    }
  }

  /** In normalized groups, tokens agree exactly with equivalence when these two conditions on the groups hold, and only then. */
  lemma {:induction false} CanonicalDecides(groups: seq<Group>)
    requires AllNormalized(groups)
    ensures TokensDecide(groups) <==> OneTokenWithin(groups) && SharedLowestRelate(groups)
    ensures Disjoint(groups) ==> TokensDecide(groups)
  {
    hide IsStatus, Normalized, Lowest;
    forall s | IsStatus(s) ensures var k := GroupOf(groups, s); k < |groups| ==> Canonical(groups, s) == Token(groups[k]) { TokenOf(groups, s); }
    if TokensDecide(groups) {
      ConditionsHold(groups);
    }
    if OneTokenWithin(groups) && SharedLowestRelate(groups) {
      forall a, b | IsStatus(a) && IsStatus(b) ensures Canonical(groups, a) == Canonical(groups, b) <==> Equivalent(groups, a, b) {
        ConditionsDecide(groups, a, b);
      }
    }
    if Disjoint(groups) {
      DisjointConditions(groups);
    }
  }

  lemma {:induction false} ConditionsHold(groups: seq<Group>)
    requires AllNormalized(groups) && TokensDecide(groups)
    ensures OneTokenWithin(groups) && SharedLowestRelate(groups)
  {
    hide IsStatus, Lowest, Has;
    forall k, i: nat, j: nat, a, b | 0 <= k < |groups| && First(groups, i, a) && First(groups, j, b) && Has(groups[k], a) && Has(groups[k], b)
      ensures Token(groups[i]) == Token(groups[j])
    {
      assert Equivalent(groups, a, b);
      TokenOf(groups, a);
      TokenOf(groups, b);
    }
    forall i: nat, j: nat, a, b | First(groups, i, a) && First(groups, j, b) && groups[i].Listed? && groups[j].Listed?
                        && Lowest(groups[i].members) == Lowest(groups[j].members)
      ensures Equivalent(groups, a, b)
    {
      TokenOf(groups, a);
      TokenOf(groups, b);
    }
  }

  lemma {:induction false} ConditionsDecide(groups: seq<Group>, a: string, b: string)
    requires AllNormalized(groups) && OneTokenWithin(groups) && SharedLowestRelate(groups) && IsStatus(a) && IsStatus(b)
    ensures Canonical(groups, a) == Canonical(groups, b) <==> Equivalent(groups, a, b)
  {
    hide IsStatus, Lowest, Has;
    if a != b {
      var i, j := GroupOf(groups, a), GroupOf(groups, b);
      if Canonical(groups, a) == Canonical(groups, b) {
        SharedToken(groups, a, b);
        assert First(groups, i, a) && First(groups, j, b);
      }
      if Equivalent(groups, a, b) {
        var k :| 0 <= k < |groups| && Has(groups[k], a) && Has(groups[k], b);
        assert First(groups, i, a) && First(groups, j, b);
        TokenOf(groups, a);
        TokenOf(groups, b);
      }
    }
  }

  lemma {:induction false} DisjointConditions(groups: seq<Group>)
    requires AllNormalized(groups) && Disjoint(groups)
    ensures OneTokenWithin(groups) && SharedLowestRelate(groups)
  {
    hide IsStatus;
    forall i: nat, j: nat, a, b | First(groups, i, a) && First(groups, j, b) && groups[i].Listed? && groups[j].Listed?
                        && Lowest(groups[i].members) == Lowest(groups[j].members)
      ensures Equivalent(groups, a, b)
    {
      assert Has(groups[i], Lowest(groups[i].members)) && Has(groups[j], Lowest(groups[i].members));
      assert i == j;
    }
  }

  // ---- the order things are written in ----

  predicate SameMembers(g: Group, h: Group) {
    match g
    case Class(pattern) => g == h
    case Listed(members) => h.Listed? && multiset(members) == multiset(h.members)
  }

  lemma {:induction false} LowestOfSame(a: seq<string>, b: seq<string>)
    requires a != [] && multiset(a) == multiset(b)
    ensures b != [] && Lowest(a) == Lowest(b)
  {
    hide Lowest;
    assert a[0] in multiset(b);
    assert forall s :: s in a <==> s in multiset(a);
    assert forall s :: s in b <==> s in multiset(b);
    LowestIsLeast(a);
    LowestIsLeast(b);
    Pagination.LessTotal(Lowest(a), Lowest(b));
  }

  /** Reordering the members of groups never changes a token. */
  lemma {:induction false} MemberOrderIsIrrelevant(groups: seq<Group>, others: seq<Group>, status: string)
    requires |groups| == |others| && forall k :: 0 <= k < |groups| ==> SameMembers(groups[k], others[k])
    requires forall k :: 0 <= k < |groups| && groups[k].Listed? ==> groups[k].members != []
    ensures forall k :: 0 <= k < |others| && others[k].Listed? ==> others[k].members != []
    ensures Canonical(others, status) == Canonical(groups, status)
  {
    hide Lowest, Matches;
    forall k | 0 <= k < |groups|
      ensures Has(groups[k], status) <==> Has(others[k], status)
      ensures groups[k].Listed? ==> others[k].members != [] && Lowest(groups[k].members) == Lowest(others[k].members)
    {
      if groups[k].Listed? {
        LowestOfSame(groups[k].members, others[k].members);
        assert forall s :: s in groups[k].members <==> s in multiset(groups[k].members);
        assert forall s :: s in others[k].members <==> s in multiset(others[k].members);
      }
    }
    assert GroupOf(groups, status) == GroupOf(others, status) by {
      var i, j := GroupOf(groups, status), GroupOf(others, status);
      if i != j { assert false; }
    }
  }

  ghost predicate OneTokenFor(groups: seq<Group>, status: string)
    requires AllNormalized(groups)
  {
    forall i, j :: 0 <= i < |groups| && 0 <= j < |groups| && Has(groups[i], status) && Has(groups[j], status) ==>
      Token(groups[i]) == Token(groups[j])
  }

  /** Reordering the groups never changes a status's token exactly when all groups that have it give it one token. */
  lemma {:induction false} GroupOrderMatters(groups: seq<Group>, status: string)
    requires AllNormalized(groups) && IsStatus(status)
    ensures (forall q: seq<Group> :: multiset(q) == multiset(groups) && AllNormalized(q) ==> Canonical(q, status) == Canonical(groups, status))
       <==> OneTokenFor(groups, status)
  {
    hide Normalized, Lowest, IsStatus, Matches;
    TokenOf(groups, status);
    if OneTokenFor(groups, status) {
      forall q: seq<Group> | multiset(q) == multiset(groups) && AllNormalized(q) ensures Canonical(q, status) == Canonical(groups, status) {
        SameTokenIn(groups, q, status);
      }
    } else {
      var i, j :| 0 <= i < |groups| && 0 <= j < |groups| && Has(groups[i], status) && Has(groups[j], status)
                  && Token(groups[i]) != Token(groups[j]);
      var a, b := Brought(groups, i), Brought(groups, j);
      BroughtFirst(groups, i, status);
      BroughtFirst(groups, j, status);
      assert Canonical(a, status) != Canonical(b, status);
    }
  }

  /** The groups with one of them brought to the front. */
  function Brought(groups: seq<Group>, i: nat): seq<Group>
    requires i < |groups|
  {
    [groups[i]] + groups[..i] + groups[i + 1..]
  }

  lemma {:induction false} BroughtFirst(groups: seq<Group>, i: nat, status: string)
    requires AllNormalized(groups) && i < |groups| && IsStatus(status) && Has(groups[i], status)
    ensures var q := Brought(groups, i);
            multiset(q) == multiset(groups) && AllNormalized(q) && Canonical(q, status) == Token(groups[i])
  {
    hide Normalized, Lowest, IsStatus, Has;
    var q := Brought(groups, i);
    assert groups == groups[..i] + [groups[i]] + groups[i + 1..];
    forall k | 0 <= k < |q| ensures q[k] in groups {}
    assert GroupOf(q, status) == 0;
    TokenOf(q, status);
  }

  lemma {:induction false} SameTokenIn(groups: seq<Group>, q: seq<Group>, status: string)
    requires AllNormalized(groups) && AllNormalized(q) && multiset(q) == multiset(groups) && IsStatus(status) && OneTokenFor(groups, status)
    ensures Canonical(q, status) == Canonical(groups, status)
  {
    hide Normalized, Lowest, IsStatus, Has;
    assert forall g :: g in groups <==> g in multiset(groups);
    assert forall g :: g in q <==> g in multiset(q);
    TokenOf(groups, status);
    TokenOf(q, status);
    var i, j := GroupOf(groups, status), GroupOf(q, status);
    if i < |groups| { assert groups[i] in q; }
    if j < |q| { assert q[j] in groups; }
  }

  /** In [200, 201], [200, 202] both fail: 201 ~ 200 and 200 ~ 202, but not 201 ~ 202, and all three have one token. */
  lemma {:induction false} OverlapBreaksEquivalence()
    ensures var groups := [Listed(["200", "201"]), Listed(["200", "202"])];
            && AllNormalized(groups) && Equivalent(groups, "201", "200") && Equivalent(groups, "200", "202")
            && !Equivalent(groups, "201", "202") && Canonical(groups, "201") == Canonical(groups, "202")
  {
    var groups := [Listed(["200", "201"]), Listed(["200", "202"])];
    var first, second := ["200", "201"], ["200", "202"];
    assert first[0] == "200" && first[1] == "201" && second[0] == "200" && second[1] == "202";
    assert "201"[2] == '1' && "202"[2] == '2' && "200"[2] == '0';
    assert Has(groups[0], "201") && Has(groups[0], "200") && Has(groups[1], "200") && Has(groups[1], "202");
    assert !Has(groups[0], "202") && !Has(groups[1], "201");
    assert GroupOf(groups, "201") == 0;
    assert groups[1..][0] == groups[1] && GroupOf(groups[1..], "202") == 0 && GroupOf(groups, "202") == 1;
    assert first[1..] == ["201"] && second[1..] == ["202"];
    assert !Pagination.Less("201", "200") by { Digits("201", "200"); }
    assert !Pagination.Less("202", "200") by { Digits("202", "200"); }
  }

  lemma {:induction false} Digits(a: string, b: string)
    requires |a| == |b| == 3 && a[0] == b[0] && a[1] == b[1]
    ensures Pagination.Less(a, b) <==> a[2] < b[2]
  {
    var x, y := a[1..][1..], b[1..][1..];
    assert x == [a[2]] && y == [b[2]] && x[1..] == [] && y[1..] == [];
    assert Pagination.Less(x, y) <==> a[2] < b[2];
    assert Pagination.Less(a[1..], b[1..]) <==> a[2] < b[2];
  }
}

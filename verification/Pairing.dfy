/**
  Greedy pairing of two lists by key: the j-th item of a key on the left takes the j-th item of
  that key on the right. Both the gate (envelope requests and HAR entries) and the drift report
  (removed and added fields) pair this way, each with a loop of its own.
*/
module Pairing {
  import opened Common

  function Count<K(==)>(keys: seq<K>, k: K): nat {
    if keys == [] then 0 else Count(keys[..|keys| - 1], k) + if keys[|keys| - 1] == k then 1 else 0
  }

  /** The position of the c-th occurrence of k, counting from 0. */
  function NthAt<K(==)>(keys: seq<K>, k: K, c: nat): Option<nat> {
    if keys == [] then None
    else
      var front, last := keys[..|keys| - 1], |keys| - 1;
      var before := NthAt(front, k, c);
      if before.Some? then before else if keys[last] == k && Count(front, k) == c then Some(last) else None
  }

  /** The right position paired with left position i. */
  function Twin<K(==)>(left: seq<K>, right: seq<K>, i: nat): Option<nat>
    requires i < |left|
  {
    NthAt(right, left[i], Count(left[..i], left[i]))
  }

  /** Is right position j left over once these keys have been paired? */
  predicate IsLeft<K(==)>(left: seq<K>, right: seq<K>, j: nat)
    requires j < |right|
  {
    Count(right[..j], right[j]) >= Count(left, right[j])
  }

  /** The right positions nobody took, in order, among the first n. */
  function Leftover<K(==)>(left: seq<K>, right: seq<K>, n: nat): seq<nat>
    requires n <= |right|
  {
    if n == 0 then [] else Leftover(left, right, n - 1) + if IsLeft(left, right, n - 1) then [n - 1] else []
  }

  // ---- counting and finding ----

  lemma {:induction false} CountGrows<K>(keys: seq<K>, k: K, i: nat, j: nat)
    requires i <= j <= |keys|
    ensures Count(keys[..i], k) <= Count(keys[..j], k)
    ensures i < j && keys[i] == k ==> Count(keys[..i], k) < Count(keys[..j], k)
    decreases j
  {
    if i < j {
      assert keys[..j][..j - 1] == keys[..j - 1];
      CountGrows(keys, k, i, j - 1);
    }
  }

  lemma {:induction false} NthIs<K>(keys: seq<K>, k: K, c: nat)
    ensures NthAt(keys, k, c).Some? <==> c < Count(keys, k)
    ensures var p := NthAt(keys, k, c); p.Some? ==> p.value < |keys| && keys[p.value] == k && Count(keys[..p.value], k) == c
  {
    if keys != [] {
      var front := keys[..|keys| - 1];
      NthIs(front, k, c);
      var p := NthAt(front, k, c);
      if p.Some? { assert keys[..p.value] == front[..p.value]; }
    }
  }

  /** An item is the occurrence its rank says. */
  lemma {:induction false} NthOfRank<K>(keys: seq<K>, j: nat)
    requires j < |keys|
    ensures NthAt(keys, keys[j], Count(keys[..j], keys[j])) == Some(j)
  {
    var c := Count(keys[..j], keys[j]);
    assert keys[..|keys|] == keys;
    CountGrows(keys, keys[j], j, |keys|);
    NthIs(keys, keys[j], c);
    var p := NthAt(keys, keys[j], c).value;
    if p < j { CountGrows(keys, keys[j], p, j); }
    if j < p { CountGrows(keys, keys[j], j, p); }
  }

  // ---- what the pairing is ----

  /** Paired items have one key, and no right item is taken twice. */
  lemma {:induction false} TwinsAreDistinct<K>(left: seq<K>, right: seq<K>, i: nat, m: nat)
    requires i < m < |left| && Twin(left, right, i).Some? && Twin(left, right, m).Some?
    ensures Twin(left, right, i) != Twin(left, right, m)
    ensures Twin(left, right, i).value < |right| && right[Twin(left, right, i).value] == left[i]
  {
    NthIs(right, left[i], Count(left[..i], left[i]));
    NthIs(right, left[m], Count(left[..m], left[m]));
    CountGrows(left, left[i], i, m);
  }

  /** Of one key, earlier left items take earlier right items, and have a twin when a later one has. */
  lemma {:induction false} TwinsInOrder<K>(left: seq<K>, right: seq<K>, i: nat, m: nat)
    requires i < m < |left| && left[i] == left[m] && Twin(left, right, m).Some?
    ensures Twin(left, right, i).Some? && Twin(left, right, i).value < Twin(left, right, m).value
  {
    var k := left[i];
    CountGrows(left, k, i, m);
    NthIs(right, k, Count(left[..i], k));
    NthIs(right, k, Count(left[..m], k));
    var a, b := Twin(left, right, i).value, Twin(left, right, m).value;
    if b <= a { CountGrows(right, k, b, a); }
  }

  /** A right item before somebody's twin, of the same key, is the twin of somebody before. */
  lemma {:induction false} NoneSkipped<K>(left: seq<K>, right: seq<K>, i: nat, j: nat)
    requires i < |left| && Twin(left, right, i).Some? && j < Twin(left, right, i).value && j < |right| && right[j] == left[i]
    ensures exists m :: 0 <= m < i && left[m] == left[i] && Twin(left, right, m) == Some(j)
  {
    var k, t := left[i], Twin(left, right, i).value;
    NthIs(right, k, Count(left[..i], k));
    CountGrows(right, k, j, t);
    var c := Count(right[..j], k);
    NthIs(left[..i], k, c);
    var m := NthAt(left[..i], k, c).value;
    assert left[..i][..m] == left[..m];
    NthOfRank(right, j);
    assert Twin(left, right, m) == Some(j);
  }

  /** Every right item is either left over or somebody's twin, and never both. */
  lemma {:induction false} TakenOrLeft<K>(left: seq<K>, right: seq<K>, j: nat)
    requires j < |right|
    ensures IsLeft(left, right, j) <==> forall i :: 0 <= i < |left| ==> Twin(left, right, i) != Some(j)
  {
    var k, rank := right[j], Count(right[..j], right[j]);
    NthOfRank(right, j);
    assert left[..|left|] == left;
    if IsLeft(left, right, j) {
      forall i | 0 <= i < |left| ensures Twin(left, right, i) != Some(j) {
        CountGrows(left, k, i, |left|);
        NthIs(right, left[i], Count(left[..i], left[i]));
      }
    } else {
      NthIs(left, k, rank);
      var i := NthAt(left, k, rank).value;
      assert Twin(left, right, i) == Some(j);
    }
  }

  lemma {:induction false} LeftoverIs<K>(left: seq<K>, right: seq<K>, n: nat)
    requires n <= |right|
    ensures forall i :: 0 <= i < |Leftover(left, right, n)| ==> Leftover(left, right, n)[i] < n && IsLeft(left, right, Leftover(left, right, n)[i])
    ensures forall x: nat :: x < n && IsLeft(left, right, x) ==> x in Leftover(left, right, n)
    ensures forall a, b :: 0 <= a < b < |Leftover(left, right, n)| ==> Leftover(left, right, n)[a] < Leftover(left, right, n)[b]
  {
    hide IsLeft;
    if n > 0 {
      LeftoverIs(left, right, n - 1);
      var before := Leftover(left, right, n - 1);
      forall x: nat | x < n && IsLeft(left, right, x) ensures x in Leftover(left, right, n) {
        if x < n - 1 { assert x in before; }
      }
    }
  }

  function KeysAt<K>(keys: seq<K>, at: seq<nat>): (r: seq<K>)
    requires forall i :: 0 <= i < |at| ==> at[i] < |keys|
    ensures |r| == |at|
  {
    seq(|at|, i requires 0 <= i < |at| => keys[at[i]])
  }

  lemma {:induction false} CountMore<K>(keys: seq<K>, last: K, k: K)
    ensures Count(keys + [last], k) == Count(keys, k) + if last == k then 1 else 0
  {
    assert (keys + [last])[..|keys|] == keys;
  }

  /** For each key, as many right items are left over as the right has more than the left. */
  lemma {:induction false} LeftoverCount<K>(left: seq<K>, right: seq<K>, n: nat, k: K)
    requires n <= |right|
    ensures forall i :: 0 <= i < |Leftover(left, right, n)| ==> Leftover(left, right, n)[i] < |right|
    ensures Count(KeysAt(right, Leftover(left, right, n)), k) == Max(0, Count(right[..n], k) - Count(left, k))
  {
    hide Count, KeysAt, IsLeft;
    LeftoverIs(left, right, n);
    if n == 0 {
      NothingCounted(right, k);
    } else {
      var before := Leftover(left, right, n - 1);
      LeftoverCount(left, right, n - 1, k);
      assert right[..n] == right[..n - 1] + [right[n - 1]];
      CountMore(right[..n - 1], right[n - 1], k);
      LeftMeans(left, right, n - 1);
      if IsLeft(left, right, n - 1) {
        KeysMore(right, before, n - 1);
        CountMore(KeysAt(right, before), right[n - 1], k);
      } else {
        assert before + [] == before;
      }
    }
  }

  lemma NothingCounted<K>(keys: seq<K>, k: K)
    ensures Count(KeysAt(keys, []), k) == 0 && Count(keys[..0], k) == 0
  {}

  lemma LeftMeans<K>(left: seq<K>, right: seq<K>, j: nat)
    requires j < |right|
    ensures IsLeft(left, right, j) <==> Count(right[..j], right[j]) >= Count(left, right[j])
  {}

  lemma KeysMore<K>(keys: seq<K>, at: seq<nat>, j: nat)
    requires j < |keys| && forall i :: 0 <= i < |at| ==> at[i] < |keys|
    ensures KeysAt(keys, at + [j]) == KeysAt(keys, at) + [keys[j]]
  {}

  /** The left positions of key k that found a twin, among the first n. */
  function Pairs<K(==)>(left: seq<K>, right: seq<K>, n: nat, k: K): nat
    requires n <= |left|
  {
    if n == 0 then 0 else Pairs(left, right, n - 1, k) + if left[n - 1] == k && Twin(left, right, n - 1).Some? then 1 else 0
  }

  /** For each key there are as many pairs as the smaller side allows. */
  lemma {:induction false} PairCount<K>(left: seq<K>, right: seq<K>, n: nat, k: K)
    requires n <= |left|
    ensures Pairs(left, right, n, k) == Min(Count(left[..n], k), Count(right, k))
  {
    if n > 0 {
      PairCount(left, right, n - 1, k);
      assert left[..n] == left[..n - 1] + [left[n - 1]];
      CountMore(left[..n - 1], left[n - 1], k);
      NthIs(right, left[n - 1], Count(left[..n - 1], left[n - 1]));
    }
  }

  // ---- one more left item takes the first right item of its key that is left ----

  lemma {:induction false} NextTwin<K>(left: seq<K>, right: seq<K>, k: K)
    ensures var t := Twin(left + [k], right, |left|);
            if t.None? then forall j :: 0 <= j < |right| && IsLeft(left, right, j) ==> right[j] != k
            else
              && t.value < |right| && right[t.value] == k && IsLeft(left, right, t.value)
              && (forall j :: 0 <= j < t.value && IsLeft(left, right, j) ==> right[j] != k)
  {
    assert (left + [k])[..|left|] == left;
    var c := Count(left, k);
    NthIs(right, k, c);
    assert right[..|right|] == right;
    var t := NthAt(right, k, c);
    forall j | 0 <= j < |right| && right[j] == k && (t.None? || j < t.value) ensures !IsLeft(left, right, j) {
      CountGrows(right, k, j, if t.None? then |right| else t.value);
    }
  }

  lemma {:induction false} OneMoreTaken<K>(left: seq<K>, right: seq<K>, k: K, j: nat)
    requires j < |right|
    ensures IsLeft(left + [k], right, j) <==> IsLeft(left, right, j) && Twin(left + [k], right, |left|) != Some(j)
  {
    assert (left + [k])[..|left|] == left;
    CountMore(left, k, right[j]);
    NthIs(right, k, Count(left, k));
    NthOfRank(right, j);
  }
}

/**
  The run's requests as the gate selects over them: every request an envelope recorded, joined
  with its HAR twin, and after them the HAR entries no envelope recorded.
*/
module Gate {
  import opened Common
  import opened Pairing

  /** What a request is paired by: its method, upper-cased, and its path. */
  datatype Key = Key(method_: string, path: string)

  datatype Request = Request(key: Key, status: Option<nat>, mime: Option<string>, observation: bool)

  datatype Envelope = Envelope(step: Option<nat>, requests: seq<Request>, harEntries: seq<nat>)

  datatype HarEntry = HarEntry(key: Key, status: nat, mime: string, body: Option<string>, observation: bool)

  datatype Embedded = Embedded(request: Request, step: Option<nat>)

  datatype Row = Row(key: Key, status: nat, mime: string, body: Option<string>, step: Option<nat>)

  // ---- the two lists ----

  function EmbeddedOf(e: Envelope): seq<Embedded> {
    Kept(e.requests, e.step)
  }

  function Kept(requests: seq<Request>, step: Option<nat>): seq<Embedded> {
    if requests == [] then []
    else Kept(requests[..|requests| - 1], step)
         + if requests[|requests| - 1].observation then [] else [Embedded(requests[|requests| - 1], step)]
  }

  function AllEmbedded(trajectory: seq<Envelope>): seq<Embedded> {
    if trajectory == [] then [] else AllEmbedded(trajectory[..|trajectory| - 1]) + EmbeddedOf(trajectory[|trajectory| - 1])
  }

  /** The step that owns a HAR entry: the first numbered envelope that names it. */
  function OwnerOf(trajectory: seq<Envelope>, entry: nat): Option<nat> {
    if trajectory == [] then None
    else
      var before, last := OwnerOf(trajectory[..|trajectory| - 1], entry), trajectory[|trajectory| - 1];
      if before.Some? then before else if last.step.Some? && entry in last.harEntries then last.step else None
  }

  /** The HAR rows, observation traffic left out. */
  function HarRows(trajectory: seq<Envelope>, entries: seq<HarEntry>): seq<Row> {
    if entries == [] then []
    else
      var n := |entries| - 1;
      var e := entries[n];
      HarRows(trajectory, entries[..n])
      + if e.observation then [] else [Row(e.key, e.status, e.mime, e.body, OwnerOf(trajectory, n))]
  }

  // ---- the join ----

  function Joined(e: Embedded, twin: Option<Row>): Row {
    Row(e.request.key,
        if e.request.status.Some? then e.request.status.value else if twin.Some? then twin.value.status else 0,
        if e.request.mime.Some? then e.request.mime.value else if twin.Some? then twin.value.mime else "",
        if twin.Some? then twin.value.body else None,
        if e.step.Some? then e.step else if twin.Some? then twin.value.step else None)
  }

  function EmbeddedKeys(embedded: seq<Embedded>): (r: seq<Key>)
    ensures |r| == |embedded|
  {
    seq(|embedded|, i requires 0 <= i < |embedded| => embedded[i].request.key)
  }

  function RowKeys(rows: seq<Row>): (r: seq<Key>)
    ensures |r| == |rows|
  {
    seq(|rows|, i requires 0 <= i < |rows| => rows[i].key)
  }

  /** The HAR row paired with an embedded request, if any. */
  function TwinRow(embedded: seq<Embedded>, har: seq<Row>, i: nat): Option<Row>
    requires i < |embedded|
  {
    var t := Twin(EmbeddedKeys(embedded), RowKeys(har), i);
    if t.Some? && t.value < |har| then Some(har[t.value]) else None
  }

  function JoinedRows(embedded: seq<Embedded>, har: seq<Row>, n: nat): seq<Row>
    requires n <= |embedded|
  {
    if n == 0 then [] else JoinedRows(embedded, har, n - 1) + [Joined(embedded[n - 1], TwinRow(embedded, har, n - 1))]
  }

  function RowsAt(har: seq<Row>, at: seq<nat>): (r: seq<Row>)
    ensures |r| == |at|
  {
    seq(|at|, i requires 0 <= i < |at| => if at[i] < |har| then har[at[i]] else Row(Key("", ""), 0, "", None, None))
  }

  /** Every embedded request in order, then every HAR row nobody took. */
  function Selectable(embedded: seq<Embedded>, har: seq<Row>): seq<Row> {
    JoinedRows(embedded, har, |embedded|) + RowsAt(har, Leftover(EmbeddedKeys(embedded), RowKeys(har), |har|))
  }

  // ---- the source's loops ----

  method HarOwners(trajectory: seq<Envelope>) returns (owners: map<nat, nat>)
    ensures forall x: nat :: (x in owners <==> OwnerOf(trajectory, x).Some?) && (x in owners ==> Some(owners[x]) == OwnerOf(trajectory, x))
  {
    owners := map[];
    var i := 0;
    while i < |trajectory|
      invariant 0 <= i <= |trajectory|
      invariant forall x: nat :: (x in owners <==> OwnerOf(trajectory[..i], x).Some?)
      invariant forall x: nat :: x in owners ==> Some(owners[x]) == OwnerOf(trajectory[..i], x)
    {
      var e := trajectory[i];
      assert trajectory[..i + 1][..i] == trajectory[..i];
      if e.step.Some? {
        ghost var before := owners;
        var j := 0;
        while j < |e.harEntries|
          invariant 0 <= j <= |e.harEntries|
          invariant forall x: nat :: x in owners <==> x in before || x in e.harEntries[..j]
          invariant forall x: nat :: x in owners ==> owners[x] == if x in before then before[x] else e.step.value
        {
          assert e.harEntries[..j + 1] == e.harEntries[..j] + [e.harEntries[j]];
          if e.harEntries[j] !in owners {
            owners := owners[e.harEntries[j] := e.step.value];
          }
          j := j + 1;
        }
        assert e.harEntries[..j] == e.harEntries;
      }
      i := i + 1;
    }
    assert trajectory[..i] == trajectory;
  }

  method CollectEmbedded(trajectory: seq<Envelope>) returns (embedded: seq<Embedded>)
    ensures embedded == AllEmbedded(trajectory)
  {
    embedded := [];
    var i := 0;
    while i < |trajectory|
      invariant 0 <= i <= |trajectory|
      invariant embedded == AllEmbedded(trajectory[..i])
    {
      var e, j := trajectory[i], 0;
      ghost var before := embedded;
      assert trajectory[..i + 1][..i] == trajectory[..i];
      assert e.requests[..0] == [] && before + [] == before;
      while j < |e.requests|
        invariant 0 <= j <= |e.requests|
        invariant embedded == before + Kept(e.requests[..j], e.step)
      {
        assert e.requests[..j + 1][..j] == e.requests[..j];
        if !e.requests[j].observation {
          embedded := embedded + [Embedded(e.requests[j], e.step)];
        }
        j := j + 1;
      }
      assert e.requests[..j] == e.requests;
      i := i + 1;
    }
    assert trajectory[..i] == trajectory;
  }

  method CollectHar(trajectory: seq<Envelope>, entries: seq<HarEntry>) returns (har: seq<Row>)
    ensures har == HarRows(trajectory, entries)
  {
    var owners := HarOwners(trajectory);
    har := [];
    var i := 0;
    while i < |entries|
      invariant 0 <= i <= |entries|
      invariant har == HarRows(trajectory, entries[..i])
    {
      var e := entries[i];
      assert entries[..i + 1][..i] == entries[..i];
      if !e.observation {
        har := har + [Row(e.key, e.status, e.mime, e.body, if i in owners then Some(owners[i]) else None)];
      }
      i := i + 1;
    }
    assert entries[..i] == entries;
  }

  /** Left positions still to give, once the keys of the first i requests have been paired. */
  ghost predicate Holds(remaining: seq<nat>, keys: seq<Key>, harKeys: seq<Key>) {
    remaining == Leftover(keys, harKeys, |harKeys|)
  }

  /** Taking the first remaining item of a key leaves what one more paired key leaves. */
  lemma {:induction false} TakeFirst(keys: seq<Key>, harKeys: seq<Key>, key: Key, remaining: seq<nat>, k: nat)
    requires Holds(remaining, keys, harKeys) && k <= |remaining|
    requires forall i :: 0 <= i < |remaining| ==> remaining[i] < |harKeys|
    requires forall i :: 0 <= i < k ==> harKeys[remaining[i]] != key
    requires k < |remaining| ==> harKeys[remaining[k]] == key
    ensures Twin(keys + [key], harKeys, |keys|) == if k < |remaining| then Some(remaining[k]) else None
    ensures Holds(if k < |remaining| then remaining[..k] + remaining[k + 1..] else remaining, keys + [key], harKeys)
  {
    hide Twin, IsLeft, Leftover;
    LeftoverIs(keys, harKeys, |harKeys|);
    NextTwin(keys, harKeys, key);
    var t := Twin(keys + [key], harKeys, |keys|);
    if t.Some? {
      var j :| 0 <= j < |remaining| && remaining[j] == t.value;
      assert k <= j;
      if k < j { assert false; }
    }
    var rest := if k < |remaining| then remaining[..k] + remaining[k + 1..] else remaining;
    var after := Leftover(keys + [key], harKeys, |harKeys|);
    LeftoverIs(keys + [key], harKeys, |harKeys|);
    forall x: nat | x < |harKeys| ensures IsLeft(keys + [key], harKeys, x) <==> IsLeft(keys, harKeys, x) && t != Some(x) {
      OneMoreTaken(keys, harKeys, key, x);
    }
    RestMembers(remaining, k, rest);
    AscendingUnique(rest, after);
  }

  lemma {:induction false} RestMembers(remaining: seq<nat>, k: nat, rest: seq<nat>)
    requires k <= |remaining| && forall a, b :: 0 <= a < b < |remaining| ==> remaining[a] < remaining[b]
    requires rest == if k < |remaining| then remaining[..k] + remaining[k + 1..] else remaining
    ensures forall a, b :: 0 <= a < b < |rest| ==> rest[a] < rest[b]
    ensures forall x: nat :: x in rest <==> x in remaining && (k < |remaining| ==> x != remaining[k])
  {
    if k < |remaining| {
      forall x: nat | x in remaining && x != remaining[k] ensures x in rest {
        var j :| 0 <= j < |remaining| && remaining[j] == x;
        assert rest[if j < k then j else j - 1] == x;
      }
    }
  }

  lemma {:induction false} HasFirst(b: seq<nat>)
    ensures b == [] || exists x: nat :: x in b
  {
    if b != [] { assert b[0] in b; }
  }

  lemma {:induction false} AscendingUnique(a: seq<nat>, b: seq<nat>)
    requires forall i, j :: 0 <= i < j < |a| ==> a[i] < a[j]
    requires forall i, j :: 0 <= i < j < |b| ==> b[i] < b[j]
    requires forall x: nat :: x in a <==> x in b
    ensures a == b
    decreases |a|
  {
    if a == [] {
      HasFirst(b);
    } else {
      assert a[|a| - 1] in b;
      var x, y := a[|a| - 1], b[|b| - 1];
      assert y in a && x in b;
      var front, before := a[..|a| - 1], b[..|b| - 1];
      assert a == front + [x] && b == before + [y];
      assert x == y;
      forall z: nat ensures z in front <==> z in before {
        assert z in front ==> z in a && z != x;
        assert z in before ==> z in b && z != y;
      }
      AscendingUnique(front, before);
    }
  }

  /** The first remaining HAR row of this method and path. */
  method FindRemaining(har: seq<Row>, remaining: seq<nat>, key: Key) returns (k: nat)
    requires forall j :: 0 <= j < |remaining| ==> remaining[j] < |har|
    ensures k <= |remaining| && (k < |remaining| ==> har[remaining[k]].key == key)
    ensures forall j :: 0 <= j < k ==> har[remaining[j]].key != key
  {
    k := 0;
    while k < |remaining| && har[remaining[k]].key != key
      invariant 0 <= k <= |remaining|
      invariant forall j :: 0 <= j < k ==> har[remaining[j]].key != key
    {
      k := k + 1;
    }
  }

  /** Pair each embedded request with the first remaining HAR row of its method and path; what remains follows. */
  method SelectableRequests(trajectory: seq<Envelope>, entries: seq<HarEntry>) returns (rows: seq<Row>)
    ensures rows == Selectable(AllEmbedded(trajectory), HarRows(trajectory, entries))
    ensures EmbeddedKeys(AllEmbedded(trajectory)) <= RowKeys(rows)
  {
    hide Leftover, Twin, HarRows, AllEmbedded, JoinedRows, Joined, IsLeft, OwnerOf;
    var embedded := CollectEmbedded(trajectory);
    var har := CollectHar(trajectory, entries);
    ghost var keys, harKeys := EmbeddedKeys(embedded), RowKeys(har);
    rows := [];
    var remaining: seq<nat> := seq(|har|, i requires 0 <= i < |har| => i);
    NobodyTaken(harKeys, |harKeys|);
    NothingJoined(embedded, har);
    assert keys[..0] == [];
    var i := 0;
    while i < |embedded|
      invariant 0 <= i <= |embedded|
      invariant rows == JoinedRows(embedded, har, i)
      invariant Holds(remaining, keys[..i], harKeys)
    {
      LeftoverIs(keys[..i], harKeys, |harKeys|);
      var key := embedded[i].request.key;
      var k := FindRemaining(har, remaining, key);
      TakeFirst(keys[..i], harKeys, key, remaining, k);
      assert keys[..i + 1] == keys[..i] + [key];
      SameTwin(keys, harKeys, i);
      var twin := if k < |remaining| then Some(har[remaining[k]]) else None;
      if k < |remaining| {
        remaining := remaining[..k] + remaining[k + 1..];
      }
      JoinedMore(embedded, har, i);
      rows := rows + [Joined(embedded[i], twin)];
      i := i + 1;
    }
    assert keys[..i] == keys;
    LeftoverIs(keys, harKeys, |harKeys|);
    rows := rows + RowsAt(har, remaining);
    EmbeddedFirst(embedded, har);
  }

  lemma NothingJoined(embedded: seq<Embedded>, har: seq<Row>)
    ensures JoinedRows(embedded, har, 0) == []
  {}

  lemma JoinedMore(embedded: seq<Embedded>, har: seq<Row>, i: nat)
    requires i < |embedded|
    ensures JoinedRows(embedded, har, i + 1) == JoinedRows(embedded, har, i) + [Joined(embedded[i], TwinRow(embedded, har, i))]
  {}

  lemma {:induction false} NobodyTaken(harKeys: seq<Key>, n: nat)
    requires n <= |harKeys|
    ensures Leftover([], harKeys, n) == seq(n, i requires 0 <= i < n => i)
  {
    if n > 0 { NobodyTaken(harKeys, n - 1); }
  }

  lemma {:induction false} SameTwin(keys: seq<Key>, harKeys: seq<Key>, i: nat)
    requires i < |keys|
    ensures Twin(keys[..i] + [keys[i]], harKeys, i) == Twin(keys, harKeys, i)
  {
    assert (keys[..i] + [keys[i]])[..i] == keys[..i];
  }

  // ---- what the join guarantees ----

  lemma {:induction false} CountConcat<K>(a: seq<K>, b: seq<K>, k: K)
    ensures Count(a + b, k) == Count(a, k) + Count(b, k)
  {
    if b == [] {
      assert a + b == a;
    } else {
      assert (a + b)[..|a + b| - 1] == a + b[..|b| - 1];
      CountConcat(a, b[..|b| - 1], k);
    }
  }

  lemma {:induction false} JoinedKeys(embedded: seq<Embedded>, har: seq<Row>, n: nat)
    requires n <= |embedded|
    ensures |JoinedRows(embedded, har, n)| == n && RowKeys(JoinedRows(embedded, har, n)) == EmbeddedKeys(embedded)[..n]
  {
    hide TwinRow;
    if n > 0 { JoinedKeys(embedded, har, n - 1); }
  }

  lemma {:induction false} EmbeddedFirst(embedded: seq<Embedded>, har: seq<Row>)
    ensures EmbeddedKeys(embedded) <= RowKeys(Selectable(embedded, har))
  {
    hide Leftover, JoinedRows;
    JoinedKeys(embedded, har, |embedded|);
    var keys, left := EmbeddedKeys(embedded), RowsAt(har, Leftover(EmbeddedKeys(embedded), RowKeys(har), |har|));
    assert keys[..|embedded|] == keys;
    assert RowKeys(Selectable(embedded, har)) == keys + RowKeys(left);
  }

  /** For every method and path there are as many rows as the longer list has; embedded requests come first, in order. */
  lemma {:induction false} RowsPerKey(embedded: seq<Embedded>, har: seq<Row>, key: Key)
    ensures Count(RowKeys(Selectable(embedded, har)), key) == Max(Count(EmbeddedKeys(embedded), key), Count(RowKeys(har), key))
    ensures EmbeddedKeys(embedded) <= RowKeys(Selectable(embedded, har))
  {
    hide Count, Leftover, JoinedRows;
    var keys, harKeys := EmbeddedKeys(embedded), RowKeys(har);
    var left := Leftover(keys, harKeys, |har|);
    JoinedKeys(embedded, har, |embedded|);
    LeftoverCount(keys, harKeys, |har|, key);
    assert harKeys[..|har|] == harKeys && keys[..|embedded|] == keys;
    assert RowKeys(RowsAt(har, left)) == KeysAt(harKeys, left);
    assert RowKeys(Selectable(embedded, har)) == keys + KeysAt(harKeys, left);
    CountConcat(keys, KeysAt(harKeys, left), key);
  }

  /** Every HAR row appears exactly once: as one request's twin, of the same method and path, or after them all. */
  lemma {:induction false} EachHarOnce(embedded: seq<Embedded>, har: seq<Row>, j: nat)
    requires j < |har|
    ensures var keys, harKeys := EmbeddedKeys(embedded), RowKeys(har);
            && (j in Leftover(keys, harKeys, |har|) <==> forall i :: 0 <= i < |embedded| ==> Twin(keys, harKeys, i) != Some(j))
            && (forall i, m :: 0 <= i < m < |embedded| && Twin(keys, harKeys, i) == Some(j) ==> Twin(keys, harKeys, m) != Some(j))
            && (forall i :: 0 <= i < |embedded| && Twin(keys, harKeys, i) == Some(j) ==> embedded[i].request.key == har[j].key)
  {
    hide Twin, Leftover, IsLeft;
    var keys, harKeys := EmbeddedKeys(embedded), RowKeys(har);
    TakenOrLeft(keys, harKeys, j);
    LeftoverIs(keys, harKeys, |har|);
    forall i, m | 0 <= i < m < |embedded| && Twin(keys, harKeys, i) == Some(j) ensures Twin(keys, harKeys, m) != Some(j) {
      if Twin(keys, harKeys, m) == Some(j) { TwinsAreDistinct(keys, harKeys, i, m); }
    }
    forall i | 0 <= i < |embedded| && Twin(keys, harKeys, i) == Some(j) ensures embedded[i].request.key == har[j].key {
      TwinKey(keys, harKeys, i);
    }
  }

  lemma {:induction false} TwinKey(keys: seq<Key>, harKeys: seq<Key>, i: nat)
    requires i < |keys| && Twin(keys, harKeys, i).Some?
    ensures Twin(keys, harKeys, i).value < |harKeys| && harKeys[Twin(keys, harKeys, i).value] == keys[i]
  {
    NthIs(harKeys, keys[i], Count(keys[..i], keys[i]));
  }

  // ---- what a row says ----

  function Or<T>(own: Option<T>, otherwise: T): T {
    if own.Some? then own.value else otherwise
  }

  /**
    The row of an embedded request carries what the envelope recorded, and what its twin has where the envelope recorded
    nothing; the body is the twin's. The rows after them are HAR rows, unaltered and in their order.
  */
  lemma {:induction false} RowsSay(embedded: seq<Embedded>, har: seq<Row>)
    ensures var rows, left := Selectable(embedded, har), Leftover(EmbeddedKeys(embedded), RowKeys(har), |har|);
            && |rows| == |embedded| + |left|
            && (forall i :: 0 <= i < |embedded| ==> Says(rows[i], embedded[i], har, Twin(EmbeddedKeys(embedded), RowKeys(har), i)))
            && (forall m :: 0 <= m < |left| ==> left[m] < |har| && rows[|embedded| + m] == har[left[m]])
  {
    hide Leftover, Twin, Joined, Says;
    var keys, harKeys := EmbeddedKeys(embedded), RowKeys(har);
    JoinedIs(embedded, har, |embedded|);
    LeftoverIs(keys, harKeys, |har|);
    forall i | 0 <= i < |embedded| ensures Says(Selectable(embedded, har)[i], embedded[i], har, Twin(keys, harKeys, i)) {
      if Twin(keys, harKeys, i).Some? { TwinKey(keys, harKeys, i); }
      JoinedSays(embedded[i], har, Twin(keys, harKeys, i));
    }
  }

  predicate Says(row: Row, e: Embedded, har: seq<Row>, twin: Option<nat>) {
    && row.key == e.request.key
    && match twin
       case None => row.status == Or(e.request.status, 0) && row.mime == Or(e.request.mime, "") && row.body == None && row.step == e.step
       case Some(j) =>
         && j < |har| && row.key == har[j].key
         && row.status == Or(e.request.status, har[j].status)
         && row.mime == Or(e.request.mime, har[j].mime)
         && row.body == har[j].body
         && row.step == (if e.step.Some? then e.step else har[j].step)
  }

  lemma JoinedSays(e: Embedded, har: seq<Row>, twin: Option<nat>)
    requires twin.Some? ==> twin.value < |har| && har[twin.value].key == e.request.key
    ensures Says(Joined(e, if twin.Some? then Some(har[twin.value]) else None), e, har, twin)
  {}

  lemma {:induction false} JoinedIs(embedded: seq<Embedded>, har: seq<Row>, n: nat)
    requires n <= |embedded|
    ensures |JoinedRows(embedded, har, n)| == n
    ensures forall i :: 0 <= i < n ==> JoinedRows(embedded, har, n)[i] == Joined(embedded[i], TwinRow(embedded, har, i))
  {
    hide TwinRow, Joined;
    if n > 0 { JoinedIs(embedded, har, n - 1); }
  }

  /** How many of these are no observations. */
  function Acted(observed: seq<bool>): nat {
    if observed == [] then 0 else Acted(observed[..|observed| - 1]) + if observed[|observed| - 1] then 0 else 1
  }

  function ObservedEntries(entries: seq<HarEntry>): (r: seq<bool>)
    ensures |r| == |entries|
  {
    seq(|entries|, i requires 0 <= i < |entries| => entries[i].observation)
  }

  function ObservedRequests(requests: seq<Request>): (r: seq<bool>)
    ensures |r| == |requests|
  {
    seq(|requests|, i requires 0 <= i < |requests| => requests[i].observation)
  }

  lemma {:induction false} ActedMore(observed: seq<bool>, o: bool)
    ensures Acted(observed + [o]) == Acted(observed) + if o then 0 else 1
  {
    assert (observed + [o])[..|observed|] == observed;
  }

  /** An entry of the actor is a row at its rank among such entries, attributed to the first numbered envelope that names it. */
  lemma {:induction false} HarRowOf(trajectory: seq<Envelope>, entries: seq<HarEntry>, n: nat)
    requires n < |entries|
    ensures var rows, at := HarRows(trajectory, entries), Acted(ObservedEntries(entries)[..n]);
            && |rows| == Acted(ObservedEntries(entries))
            && (!entries[n].observation ==>
                  && at < |rows| && rows[at].key == entries[n].key && rows[at].status == entries[n].status
                  && rows[at].mime == entries[n].mime && rows[at].body == entries[n].body
                  && (forall i: nat :: i < |trajectory| && Names(trajectory, i, n) && (forall j: nat :: j < i ==> !Names(trajectory, j, n)) ==>
                        rows[at].step == trajectory[i].step)
                  && ((forall i: nat :: i < |trajectory| ==> !Names(trajectory, i, n)) ==> rows[at].step == None))
    decreases |entries|
  {
    hide OwnerOf, Names;
    var front, last := entries[..|entries| - 1], |entries| - 1;
    var flags := ObservedEntries(entries);
    assert flags == ObservedEntries(front) + [entries[last].observation];
    ActedMore(ObservedEntries(front), entries[last].observation);
    if n < last {
      HarRowOf(trajectory, front, n);
      assert flags[..n] == ObservedEntries(front)[..n];
    } else {
      HarCount(trajectory, front);
      assert flags[..n] == ObservedEntries(front);
      FirstOwner(trajectory, n);
    }
  }

  lemma {:induction false} HarCount(trajectory: seq<Envelope>, entries: seq<HarEntry>)
    ensures |HarRows(trajectory, entries)| == Acted(ObservedEntries(entries))
  {
    hide OwnerOf;
    if entries != [] {
      var front, last := entries[..|entries| - 1], |entries| - 1;
      HarCount(trajectory, front);
      assert ObservedEntries(entries) == ObservedEntries(front) + [entries[last].observation];
      ActedMore(ObservedEntries(front), entries[last].observation);
    }
  }

  /** Does this numbered envelope name the entry? */
  predicate Names(trajectory: seq<Envelope>, i: nat, entry: nat) {
    i < |trajectory| && trajectory[i].step.Some? && entry in trajectory[i].harEntries
  }

  lemma {:induction false} FirstOwner(trajectory: seq<Envelope>, entry: nat)
    ensures forall i: nat :: Names(trajectory, i, entry) && (forall j: nat :: j < i ==> !Names(trajectory, j, entry)) ==>
                             OwnerOf(trajectory, entry) == trajectory[i].step
    ensures (forall i: nat :: i < |trajectory| ==> !Names(trajectory, i, entry)) ==> OwnerOf(trajectory, entry) == None
    ensures OwnerOf(trajectory, entry).Some? ==> exists i: nat :: Names(trajectory, i, entry)
  {
    if trajectory != [] {
      var front := trajectory[..|trajectory| - 1];
      FirstOwner(front, entry);
      forall j: nat | j < |front| ensures Names(front, j, entry) <==> Names(trajectory, j, entry) {}
      if OwnerOf(front, entry).Some? {
        var j: nat :| Names(front, j, entry);
        assert Names(trajectory, j, entry);
      } else if Names(trajectory, |front|, entry) {
        assert forall j: nat :: j < |front| ==> !Names(front, j, entry) by { NoOwner(front, entry); }
      }
    }
  }

  lemma {:induction false} NoOwner(trajectory: seq<Envelope>, entry: nat)
    ensures OwnerOf(trajectory, entry).None? <==> forall j: nat :: j < |trajectory| ==> !Names(trajectory, j, entry)
  {
    if trajectory != [] {
      var front := trajectory[..|trajectory| - 1];
      NoOwner(front, entry);
      forall j: nat | j < |front| ensures Names(front, j, entry) <==> Names(trajectory, j, entry) {}
      assert Names(trajectory, |front|, entry) <==> trajectory[|front|].step.Some? && entry in trajectory[|front|].harEntries;
    }
  }

  /** How many requests of the actor these envelopes recorded. */
  function Recorded(trajectory: seq<Envelope>): nat {
    if trajectory == [] then 0
    else Recorded(trajectory[..|trajectory| - 1]) + Acted(ObservedRequests(trajectory[|trajectory| - 1].requests))
  }

  lemma {:induction false} KeptIs(requests: seq<Request>, step: Option<nat>)
    ensures |Kept(requests, step)| == Acted(ObservedRequests(requests))
    ensures forall j :: 0 <= j < |requests| && !requests[j].observation ==>
              Acted(ObservedRequests(requests)[..j]) < |Kept(requests, step)|
              && Kept(requests, step)[Acted(ObservedRequests(requests)[..j])] == Embedded(requests[j], step)
  {
    if requests != [] {
      var front, last := requests[..|requests| - 1], requests[|requests| - 1];
      KeptIs(front, step);
      assert ObservedRequests(requests) == ObservedRequests(front) + [last.observation];
      ActedMore(ObservedRequests(front), last.observation);
      forall j | 0 <= j < |requests| ensures ObservedRequests(requests)[..j] == ObservedRequests(front)[..j] {}
    }
  }

  /** A request of the actor is embedded once, at its rank in the trajectory, with its envelope's step. */
  lemma {:induction false} EmbeddedOnce(trajectory: seq<Envelope>, i: nat, j: nat)
    requires i < |trajectory| && j < |trajectory[i].requests| && !trajectory[i].requests[j].observation
    ensures |AllEmbedded(trajectory)| == Recorded(trajectory)
    ensures var at := Recorded(trajectory[..i]) + Acted(ObservedRequests(trajectory[i].requests)[..j]);
            at < |AllEmbedded(trajectory)| && AllEmbedded(trajectory)[at] == Embedded(trajectory[i].requests[j], trajectory[i].step)
    decreases |trajectory|
  {
    hide Kept, Acted;
    var front, last := trajectory[..|trajectory| - 1], trajectory[|trajectory| - 1];
    KeptIs(last.requests, last.step);
    EmbeddedCount(front);
    if i < |front| {
      EmbeddedOnce(front, i, j);
      assert front[..i] == trajectory[..i];
    }
  }

  lemma {:induction false} EmbeddedCount(trajectory: seq<Envelope>)
    ensures |AllEmbedded(trajectory)| == Recorded(trajectory)
  {
    hide Kept, Acted;
    if trajectory != [] {
      EmbeddedCount(trajectory[..|trajectory| - 1]);
      KeptIs(trajectory[|trajectory| - 1].requests, trajectory[|trajectory| - 1].step);
    }
  }

  // ---- the steps of some requests ----

  /** Distinct steps in ascending order. */
  method StepsOf(rows: seq<Row>) returns (steps: seq<nat>)
    ensures forall x: nat :: x in steps <==> exists i :: 0 <= i < |rows| && rows[i].step == Some(x)
    ensures forall a, b :: 0 <= a < b < |steps| ==> steps[a] < steps[b]
  {
    steps := [];
    var i := 0;
    while i < |rows|
      invariant 0 <= i <= |rows|
      invariant forall x: nat :: x in steps <==> exists j :: 0 <= j < i && rows[j].step == Some(x)
      invariant forall a, b :: 0 <= a < b < |steps| ==> steps[a] < steps[b]
    {
      if rows[i].step.Some? && rows[i].step.value !in steps {
        var s, k := rows[i].step.value, 0;
        while k < |steps| && steps[k] < s
          invariant 0 <= k <= |steps| && forall j :: 0 <= j < k ==> steps[j] < s
        {
          k := k + 1;
        }
        assert k < |steps| ==> steps[k] != s;
        ghost var was := steps;
        steps := steps[..k] + [s] + steps[k..];
        assert forall x: nat :: x in steps <==> x in was || x == s by { InsertedAt(was, k, s); }
      }
      i := i + 1;
    }
  }

  lemma {:induction false} InsertedAt(steps: seq<nat>, k: nat, s: nat)
    requires k <= |steps|
    ensures forall x: nat :: x in steps[..k] + [s] + steps[k..] <==> x in steps || x == s
  {
    assert steps == steps[..k] + steps[k..];
  }
}

/**
  The case scheduler as a state machine.

  The source is single-threaded and cooperative, so what runs between two awaits is one
  atomic step: a worker looking for work, a task announcing `release`, a task settling,
  and the pool forgetting a settled task. Tasks are opaque: they may release any number
  of times and settle at any moment, with or without an error.
*/
module PoolSpec {
  import opened Common

  /** `records[i]` says whether item i is recording-class; the others are checks. */
  datatype Config = Config(records: seq<bool>, record: Cap, tailCap: nat, workers: nat)

  datatype Worker = Ready | Parked | Busy(item: nat) | Done

  datatype Task = Task(holdsRecord: bool, detached: bool, settled: bool, reaped: bool)

  datatype State = State(
    queue: seq<nat>,
    recordsInFlight: int,
    tailsInFlight: int,
    wantsTail: seq<nat>,
    waiters: seq<nat>,
    workers: seq<Worker>,
    tasks: map<nat, Task>,
    dispatched: seq<nat>,
    firstError: Option<nat>)

  // ---- the steps ----

  function Iota(n: nat): (s: seq<nat>)
    ensures |s| == n && forall i :: 0 <= i < n ==> s[i] == i
  {
    seq(n, i => i)
  }

  function Init(c: Config): State {
    State(Iota(|c.records|), 0, 0, [], [], seq(c.workers, _ => Ready), map[], [], None)
  }

  predicate IsRecord(c: Config, i: nat) {
    i < |c.records| && c.records[i]
  }

  /** Position of the first check in the queue, or its length. */
  function FirstCheck(c: Config, q: seq<nat>): (k: nat)
    ensures k <= |q|
    ensures k < |q| ==> !IsRecord(c, q[k])
    ensures forall j :: 0 <= j < k ==> IsRecord(c, q[j])
  {
    if q == [] then 0
    else if !IsRecord(c, q[0]) then 0
    else 1 + FirstCheck(c, q[1..])
  }

  /** Where the next item comes from: a check when there is one, else a record if permitted. */
  function NextIndex(c: Config, q: seq<nat>, recordsInFlight: int): (k: int)
    ensures -1 <= k < |q|
  {
    if FirstCheck(c, q) < |q| then FirstCheck(c, q)
    else if q != [] && Below(recordsInFlight, c.record) then 0
    else -1
  }

  function Without<T>(q: seq<T>, k: nat): (r: seq<T>)
    requires k < |q|
    ensures |r| == |q| - 1
    ensures forall j {:trigger r[j]} :: 0 <= j < |r| ==> r[j] == if j < k then q[j] else q[j + 1]
  {
    q[..k] + q[k + 1..]
  }

  function Wake(c: Config, s: State, w: nat): State
    requires w < |s.workers|
  {
    if s.queue == [] then
      s.(workers := s.workers[w := Done])
    else
      var k := NextIndex(c, s.queue, s.recordsInFlight);
      if k == -1 then
        s.(workers := s.workers[w := Parked], waiters := s.waiters + [w])
      else
        var item := s.queue[k];
        var rec := IsRecord(c, item);
        s.(queue := Without(s.queue, k),
           recordsInFlight := if rec then s.recordsInFlight + 1 else s.recordsInFlight,
           workers := s.workers[w := Busy(item)],
           tasks := s.tasks[item := Task(rec, false, false, false)],
           dispatched := s.dispatched + [item])
  }

  /** Every parked worker resumes. */
  function Woken(workers: seq<Worker>, waiters: seq<nat>): (r: seq<Worker>)
    ensures |r| == |workers|
  {
    seq(|workers|, w requires 0 <= w < |workers| => if w in waiters then Ready else workers[w])
  }

  /** The worker that dispatched item i, if it still waits for it, resumes. */
  function Freed(workers: seq<Worker>, i: nat): (r: seq<Worker>)
    ensures |r| == |workers|
  {
    seq(|workers|, w requires 0 <= w < |workers| => if workers[w] == Busy(i) then Ready else workers[w])
  }

  function DropRecord(s: State, i: nat): State
    requires i in s.tasks
  {
    if s.tasks[i].holdsRecord then
      s.(tasks := s.tasks[i := s.tasks[i].(holdsRecord := false)],
         recordsInFlight := s.recordsInFlight - 1,
         workers := Woken(s.workers, s.waiters),
         waiters := [])
    else s
  }

  predicate Claimable(c: Config, s: State, i: nat)
    requires i in s.tasks
  {
    !s.tasks[i].detached && !s.tasks[i].settled && s.tailsInFlight < c.tailCap
  }

  function Claim(s: State, i: nat): State
    requires i in s.tasks
  {
    s.(tasks := s.tasks[i := s.tasks[i].(detached := true)],
       tailsInFlight := s.tailsInFlight + 1,
       workers := Freed(s.workers, i))
  }

  function Release(c: Config, s: State, i: nat): State
    requires i in s.tasks
  {
    var d := DropRecord(s, i);
    if Claimable(c, d, i) then Claim(d, i)
    else if !d.tasks[i].detached && !d.tasks[i].settled then d.(wantsTail := d.wantsTail + [i])
    else d
  }

  predicate Known(s: State) {
    forall k :: 0 <= k < |s.wantsTail| ==> s.wantsTail[k] in s.tasks
  }

  /** Hand freed tail slots to the oldest claimant that still wants one. */
  function AdmitTails(c: Config, s: State): State
    requires Known(s)
    decreases |s.wantsTail|
  {
    if s.tailsInFlight < c.tailCap && s.wantsTail != [] then
      var head := s.wantsTail[0];
      var t := s.(wantsTail := s.wantsTail[1..]);
      if Claimable(c, t, head) then Claim(t, head) else AdmitTails(c, t)
    else s
  }

  /** What settling does before the tail queue is looked at. */
  function MarkSettled(s: State, i: nat, failed: bool): State
    requires i in s.tasks
  {
    DropRecord(s.(tasks := s.tasks[i := s.tasks[i].(settled := true)],
                  firstError := if failed && s.firstError.None? then Some(i) else s.firstError), i)
  }

  function Settle(c: Config, s: State, i: nat, failed: bool): State
    requires i in s.tasks && Known(s)
  {
    var a := MarkSettled(s, i, failed);
    var b := if a.tasks[i].detached then AdmitTails(c, a.(tailsInFlight := a.tailsInFlight - 1)) else a;
    b.(workers := Freed(b.workers, i))
  }

  function Reap(s: State, i: nat): State
    requires i in s.tasks
  {
    s.(tasks := s.tasks[i := s.tasks[i].(reaped := true)])
  }

  // ---- what must hold between steps ----

  function Holders(s: State): set<nat> {
    set i | i in s.tasks && s.tasks[i].holdsRecord
  }

  function Tails(s: State): set<nat> {
    set i | i in s.tasks && s.tasks[i].detached && !s.tasks[i].settled
  }

  /** Tasks that still own a worker. */
  function Attached(s: State): set<nat> {
    set i | i in s.tasks && !s.tasks[i].detached && !s.tasks[i].settled
  }

  function Checks(c: Config, q: seq<nat>): (r: seq<nat>) {
    if q == [] then [] else (if IsRecord(c, q[0]) then [] else [q[0]]) + Checks(c, q[1..])
  }

  function Records(c: Config, q: seq<nat>): (r: seq<nat>) {
    if q == [] then [] else (if IsRecord(c, q[0]) then [q[0]] else []) + Records(c, q[1..])
  }

  /** The promised dispatch order: every check in item order, then every record in item order. */
  function Order(c: Config): seq<nat> {
    Checks(c, Iota(|c.records|)) + Records(c, Iota(|c.records|))
  }

  ghost predicate OrderKept(c: Config, s: State) {
    s.dispatched + Checks(c, s.queue) + Records(c, s.queue) == Order(c)
  }

  ghost predicate QueueOk(c: Config, s: State) {
    QueueFacts(|c.records|, s.queue, s.dispatched, s.tasks.Keys)
  }

  ghost predicate QueueFacts(n: nat, queue: seq<nat>, dispatched: seq<nat>, known: set<nat>) {
    && (forall i :: i in known <==> i in dispatched)
    && (forall i :: i in known ==> i < n)
    && (forall i, j :: 0 <= i < j < |queue| ==> queue[i] != queue[j])
    && (forall k :: 0 <= k < |queue| ==> queue[k] !in known && queue[k] < n)
    && (forall i :: 0 <= i < n ==> i in known || i in queue)
  }

  ghost predicate TasksOk(s: State) {
    && (forall i :: i in s.tasks && (s.tasks[i].detached || s.tasks[i].settled) ==> !s.tasks[i].holdsRecord)
    && (forall i :: i in s.tasks && s.tasks[i].reaped ==> s.tasks[i].settled)
  }

  ghost predicate OwnersOk(s: State) {
    && (forall w :: 0 <= w < |s.workers| && s.workers[w].Busy? ==> s.workers[w].item in Attached(s))
    && (forall i :: i in Attached(s) ==> Busy(i) in s.workers)
    && (forall v, w :: 0 <= v < w < |s.workers| && s.workers[v].Busy? ==> s.workers[v] != s.workers[w])
  }

  ghost predicate WaitersOk(c: Config, s: State) {
    && (forall w :: w in s.waiters <==> 0 <= w < |s.workers| && s.workers[w].Parked?)
    && (s.waiters != [] ==>
          && c.record.AtMost? && s.recordsInFlight == c.record.n
          && s.queue != [] && FirstCheck(c, s.queue) == |s.queue|)
    && (Done in s.workers ==> s.queue == [])
  }

  ghost predicate ClaimsOk(s: State) {
    && Known(s)
    && (forall k :: 0 <= k < |s.wantsTail| ==> !s.tasks[s.wantsTail[k]].holdsRecord)
  }

  /** A case still queued for a tail slot means every tail slot is taken. */
  ghost predicate QueuedOnlyWhenFull(c: Config, s: State) {
    forall k :: 0 <= k < |s.wantsTail| && s.wantsTail[k] in Attached(s) ==> s.tailsInFlight == c.tailCap
  }

  ghost predicate CountsOk(c: Config, s: State) {
    && s.recordsInFlight == |Holders(s)| && Within(s.recordsInFlight, c.record)
    && s.tailsInFlight == |Tails(s)| <= c.tailCap
    && |s.workers| == c.workers
  }

  /** Everything but the tail-slot rule, which one settling step breaks and then restores. */
  ghost predicate Base(c: Config, s: State) {
    OrderKept(c, s) && QueueOk(c, s) && TasksOk(s) && OwnersOk(s) && WaitersOk(c, s) && ClaimsOk(s) && CountsOk(c, s)
  }

  ghost predicate Inv(c: Config, s: State) {
    Base(c, s) && QueuedOnlyWhenFull(c, s)
  }

  lemma {:induction false} InitInv(c: Config)
    ensures Inv(c, Init(c))
  {
    var s := Init(c);
    assert Holders(s) == {} && Tails(s) == {} && Attached(s) == {};
    assert [] + Checks(c, s.queue) + Records(c, s.queue) == Order(c);
    forall i | 0 <= i < |c.records| ensures i in s.queue { assert s.queue[i] == i; }
  }

  lemma {:induction false} RemoveFirstCheck(c: Config, q: seq<nat>)
    requires FirstCheck(c, q) < |q|
    ensures var k := FirstCheck(c, q);
            Checks(c, q) == [q[k]] + Checks(c, Without(q, k)) && Records(c, q) == Records(c, Without(q, k))
  {
    var k := FirstCheck(c, q);
    if IsRecord(c, q[0]) {
      RemoveFirstCheck(c, q[1..]);
      assert Without(q, k) == [q[0]] + Without(q[1..], k - 1);
    } else {
      assert Without(q, 0) == q[1..];
    }
  }

  lemma {:induction false} OnlyRecords(c: Config, q: seq<nat>)
    requires FirstCheck(c, q) == |q|
    ensures Checks(c, q) == [] && Records(c, q) == q
  {
    if q != [] {
      OnlyRecords(c, q[1..]);
    }
  }

  lemma {:induction false} WakeInv(c: Config, s: State, w: nat)
    requires Inv(c, s) && w < |s.workers| && s.workers[w].Ready?
    ensures Inv(c, Wake(c, s, w))
  {
    var t := Wake(c, s, w);
    var k := NextIndex(c, s.queue, s.recordsInFlight);
    if s.queue == [] || k == -1 {
      NothingTaken(c, s, w);
    } else {
      var item := s.queue[k];
      TakenKeepsOrder(c, s, w);
      TakenQueue(c, s, w);
      TakenOwners(c, s, w);
      TakenCounts(c, s, w);
      assert TasksOk(t);
      assert s.waiters == [];
      assert Attached(t) == Attached(s) + {item};
      assert item !in s.tasks;
    }
  }

  lemma {:induction false} NothingTaken(c: Config, s: State, w: nat)
    requires Inv(c, s) && w < |s.workers| && s.workers[w].Ready?
    requires s.queue == [] || NextIndex(c, s.queue, s.recordsInFlight) == -1
    ensures Inv(c, Wake(c, s, w))
  {
    var t := Wake(c, s, w);
    assert Holders(t) == Holders(s) && Tails(t) == Tails(s) && Attached(t) == Attached(s);
    forall i | i in Attached(t) ensures Busy(i) in t.workers {
      var v :| 0 <= v < |s.workers| && s.workers[v] == Busy(i);
      assert t.workers[v] == Busy(i);
    }
    assert OwnersOk(t);
    if s.queue != [] {
      assert Done in t.workers ==> Done in s.workers;
    }
  }

  lemma {:induction false} TakenKeepsOrder(c: Config, s: State, w: nat)
    requires OrderKept(c, s) && w < |s.workers|
    requires s.queue != [] && NextIndex(c, s.queue, s.recordsInFlight) != -1
    ensures OrderKept(c, Wake(c, s, w))
  {
    TakenSequence(c, s.dispatched, s.queue, NextIndex(c, s.queue, s.recordsInFlight));
  }

  lemma MoveFirst<T>(done: seq<T>, x: T, a: seq<T>, b: seq<T>)
    ensures done + [x] + a + b == done + ([x] + a) + b
    ensures done + [x] + [] + b == done + [] + ([x] + b)
  {}

  lemma {:induction false} TakenSequence(c: Config, done: seq<nat>, q: seq<nat>, k: nat)
    requires q != [] && k == if FirstCheck(c, q) < |q| then FirstCheck(c, q) else 0
    ensures done + [q[k]] + Checks(c, Without(q, k)) + Records(c, Without(q, k)) == done + Checks(c, q) + Records(c, q)
  {
    MoveFirst(done, q[k], Checks(c, Without(q, k)), Records(c, Without(q, k)));
    if FirstCheck(c, q) < |q| {
      RemoveFirstCheck(c, q);
    } else {
      OnlyRecords(c, q);
      OnlyRecordsRest(c, q);
    }
  }

  lemma {:induction false} OnlyRecordsRest(c: Config, q: seq<nat>)
    requires q != [] && FirstCheck(c, q) == |q|
    ensures Checks(c, Without(q, 0)) == [] && Records(c, Without(q, 0)) == Without(q, 0)
    ensures q == [q[0]] + Without(q, 0)
  {
    assert Without(q, 0) == q[1..];
    OnlyRecords(c, q[1..]);
  }

  lemma {:induction false} TakenQueue(c: Config, s: State, w: nat)
    requires QueueOk(c, s) && w < |s.workers|
    requires s.queue != [] && NextIndex(c, s.queue, s.recordsInFlight) != -1
    ensures QueueOk(c, Wake(c, s, w))
  {
    var t := Wake(c, s, w);
    var k := NextIndex(c, s.queue, s.recordsInFlight);
    var item := s.queue[k];
    assert t.queue == Without(s.queue, k) && t.dispatched == s.dispatched + [item];
    assert t.tasks.Keys == s.tasks.Keys + {item};
    forall i | 0 <= i < |c.records| ensures i in t.tasks || i in t.queue {
      if i in s.queue && i != item {
        var j :| 0 <= j < |s.queue| && s.queue[j] == i;
        assert i == if j < k then t.queue[j] else t.queue[j - 1];
      }
    }
  }

  lemma {:induction false} TakenOwners(c: Config, s: State, w: nat)
    requires Inv(c, s) && w < |s.workers| && s.workers[w].Ready?
    requires s.queue != [] && NextIndex(c, s.queue, s.recordsInFlight) != -1
    ensures OwnersOk(Wake(c, s, w)) && WaitersOk(c, Wake(c, s, w))
  {
    var t := Wake(c, s, w);
    var item := s.queue[NextIndex(c, s.queue, s.recordsInFlight)];
    assert Attached(t) == Attached(s) + {item};
    assert item !in Attached(s);
    forall i | i in Attached(t) ensures Busy(i) in t.workers {
      if i == item {
        assert t.workers[w] == Busy(i);
      } else {
        var v :| 0 <= v < |s.workers| && s.workers[v] == Busy(i);
        assert t.workers[v] == Busy(i);
      }
    }
    assert s.waiters == [];
    assert Done !in s.workers;
  }

  lemma AddedTask(s: State, t: State, item: nat, rec: bool)
    requires item !in s.tasks && t.tasks == s.tasks[item := Task(rec, false, false, false)]
    ensures item !in Holders(s) && Holders(t) == (if rec then Holders(s) + {item} else Holders(s))
    ensures Tails(t) == Tails(s)
  {}

  lemma {:induction false} TakenCounts(c: Config, s: State, w: nat)
    requires CountsOk(c, s) && QueueOk(c, s) && w < |s.workers|
    requires s.queue != [] && NextIndex(c, s.queue, s.recordsInFlight) != -1
    ensures CountsOk(c, Wake(c, s, w))
  {
    var t := Wake(c, s, w);
    var item := s.queue[NextIndex(c, s.queue, s.recordsInFlight)];
    AddedTask(s, t, item, IsRecord(c, item));
    assert |t.workers| == |s.workers|;
  }
}

/**
  What every run of the case scheduler keeps, and why it always finishes.
*/
module PoolRuns {
  import opened Common
  import opened PoolSpec

  // ---- every step keeps the invariant ----

  lemma {:induction false} DropRecordBase(c: Config, s: State, i: nat)
    requires Base(c, s) && i in s.tasks
    ensures Base(c, DropRecord(s, i)) && Attached(DropRecord(s, i)) == Attached(s)
  {
    var t := DropRecord(s, i);
    if s.tasks[i].holdsRecord {
      assert Holders(t) == Holders(s) - {i} && i in Holders(s);
      assert Tails(t) == Tails(s);
      assert Attached(t) == Attached(s);
      WokenOwners(s, t);
    }
  }

  lemma {:induction false} WokenOwners(s: State, t: State)
    requires OwnersOk(s) && Attached(t) == Attached(s)
    requires forall w :: w in s.waiters ==> 0 <= w < |s.workers| && s.workers[w].Parked?
    requires t.workers == Woken(s.workers, s.waiters)
    ensures OwnersOk(t)
  {
    forall i | i in Attached(t) ensures Busy(i) in t.workers {
      var v :| 0 <= v < |s.workers| && s.workers[v] == Busy(i);
      assert t.workers[v] == Busy(i);
    }
  }

  lemma {:induction false} FreedOwners(s: State, t: State, i: nat)
    requires OwnersOk(s) && Attached(t) == Attached(s) - {i}
    requires t.workers == Freed(s.workers, i)
    ensures OwnersOk(t)
  {
    forall j | j in Attached(t) ensures Busy(j) in t.workers {
      var v :| 0 <= v < |s.workers| && s.workers[v] == Busy(j);
      assert t.workers[v] == Busy(j);
    }
  }

  lemma {:induction false} FreedWaiters(c: Config, s: State, t: State, i: nat)
    requires WaitersOk(c, s) && t.workers == Freed(s.workers, i)
    requires t.waiters == s.waiters && t.queue == s.queue && t.recordsInFlight == s.recordsInFlight
    ensures WaitersOk(c, t)
  {
    if Done in t.workers {
      var v :| 0 <= v < |t.workers| && t.workers[v] == Done;
      assert s.workers[v] == Done;
    }
  }

  lemma {:induction false} ClaimBase(c: Config, s: State, i: nat)
    requires Base(c, s) && i in s.tasks && Claimable(c, s, i) && !s.tasks[i].holdsRecord
    ensures Base(c, Claim(s, i)) && Attached(Claim(s, i)) == Attached(s) - {i}
  {
    var t := Claim(s, i);
    assert t.tasks.Keys == s.tasks.Keys;
    assert Attached(t) == Attached(s) - {i};
    FreedOwners(s, t, i);
    FreedWaiters(c, s, t, i);
    assert CountsOk(c, t) by {
      assert Holders(t) == Holders(s);
      assert Tails(t) == Tails(s) + {i} && i !in Tails(s);
    }
  }

  lemma {:induction false} ReleaseInv(c: Config, s: State, i: nat)
    requires Inv(c, s) && i in s.tasks
    ensures Inv(c, Release(c, s, i))
  {
    var d := DropRecord(s, i);
    DropRecordBase(c, s, i);
    assert TasksOk(d);
    assert !d.tasks[i].holdsRecord;
    var t := Release(c, s, i);
    if Claimable(c, d, i) {
      ClaimBase(c, d, i);
    } else if !d.tasks[i].detached && !d.tasks[i].settled {
      assert Attached(t) == Attached(d) && Holders(t) == Holders(d) && Tails(t) == Tails(d);
    }
  }

  lemma {:induction false} AdmitTailsInv(c: Config, s: State)
    requires Base(c, s)
    requires QueuedOnlyWhenFull(c, s) || s.tailsInFlight + 1 >= c.tailCap
    ensures Inv(c, AdmitTails(c, s))
    ensures forall i :: i in s.tasks && s.tasks[i].settled ==>
              i in AdmitTails(c, s).tasks && AdmitTails(c, s).tasks[i] == s.tasks[i]
    decreases |s.wantsTail|
  {
    if s.tailsInFlight < c.tailCap && s.wantsTail != [] {
      var head := s.wantsTail[0];
      var t := s.(wantsTail := s.wantsTail[1..]);
      assert Attached(t) == Attached(s) && Holders(t) == Holders(s) && Tails(t) == Tails(s);
      if Claimable(c, t, head) {
        assert !t.tasks[head].holdsRecord;
        ClaimBase(c, t, head);
        assert s.wantsTail[0] in Attached(s);
      } else {
        AdmitTailsInv(c, t);
      }
    }
  }

  /** The settling task's own bookkeeping, before the tail queue is looked at. */
  function AfterSettle(s: State, i: nat, failed: bool): State
    requires i in s.tasks
  {
    var a := MarkSettled(s, i, failed);
    a.(tailsInFlight := if s.tasks[i].detached then a.tailsInFlight - 1 else a.tailsInFlight,
       workers := Freed(a.workers, i))
  }

  lemma {:induction false} SettledBase(c: Config, d: State, t: State, i: nat)
    requires Base(c, d) && i in d.tasks && !d.tasks[i].settled && !d.tasks[i].holdsRecord
    requires t == d.(tasks := d.tasks[i := d.tasks[i].(settled := true)],
                     tailsInFlight := if d.tasks[i].detached then d.tailsInFlight - 1 else d.tailsInFlight,
                     workers := Freed(d.workers, i), firstError := t.firstError)
    ensures Base(c, t) && Attached(t) == Attached(d) - {i}
  {
    assert t.tasks.Keys == d.tasks.Keys;
    assert Attached(t) == Attached(d) - {i};
    FreedOwners(d, t, i);
    FreedWaiters(c, d, t, i);
    assert CountsOk(c, t) by {
      assert Holders(t) == Holders(d);
      if d.tasks[i].detached {
        assert Tails(t) == Tails(d) - {i} && i in Tails(d);
      } else {
        assert Tails(t) == Tails(d);
      }
    }
  }

  lemma {:induction false} AfterSettleBase(c: Config, s: State, i: nat, failed: bool)
    requires Base(c, s) && i in s.tasks && !s.tasks[i].settled
    ensures Base(c, AfterSettle(s, i, failed)) && Attached(AfterSettle(s, i, failed)) == Attached(s) - {i}
  {
    var d := DropRecord(s, i);
    DropRecordBase(c, s, i);
    assert !d.tasks[i].holdsRecord;
    var t := AfterSettle(s, i, failed);
    assert t == d.(tasks := d.tasks[i := d.tasks[i].(settled := true)],
                   tailsInFlight := t.tailsInFlight, workers := Freed(d.workers, i), firstError := t.firstError);
    SettledBase(c, d, t, i);
  }

  lemma FreedNoOwner(workers: seq<Worker>, i: nat)
    requires Busy(i) !in workers
    ensures Freed(workers, i) == workers
  {}

  lemma {:induction false} SettleInv(c: Config, s: State, i: nat, failed: bool)
    requires Inv(c, s) && i in s.tasks && !s.tasks[i].settled
    ensures Inv(c, Settle(c, s, i, failed))
    ensures Settle(c, s, i, failed) ==
            if s.tasks[i].detached then AdmitTails(c, AfterSettle(s, i, failed)) else AfterSettle(s, i, failed)
  {
    var a := MarkSettled(s, i, failed);
    var t := AfterSettle(s, i, failed);
    AfterSettleBase(c, s, i, failed);
    if s.tasks[i].detached {
      assert i !in Attached(s) && i !in Attached(t);
      assert Busy(i) !in t.workers;
      FreedNoOwner(a.workers, i) by { SettledNotBusy(c, s, i, failed); }
      AdmitTailsInv(c, t);
      var b := AdmitTails(c, t);
      assert i in b.tasks && b.tasks[i].settled;
      assert i !in Attached(b);
      FreedNoOwner(b.workers, i);
    }
  }

  lemma {:induction false} SettledNotBusy(c: Config, s: State, i: nat, failed: bool)
    requires Base(c, s) && i in s.tasks && s.tasks[i].detached
    ensures Busy(i) !in MarkSettled(s, i, failed).workers
  {
    assert i !in Attached(s);
    assert Busy(i) !in s.workers;
  }

  lemma {:induction false} ReapInv(c: Config, s: State, i: nat)
    requires Inv(c, s) && i in s.tasks && s.tasks[i].settled
    ensures Inv(c, Reap(s, i))
  {
    var t := Reap(s, i);
    assert Attached(t) == Attached(s) && Holders(t) == Holders(s) && Tails(t) == Tails(s);
  }

  // ---- runs ----

  datatype Event = Wakes(w: nat) | Releases(i: nat) | Settles(i: nat, failed: bool) | Reaps(i: nat)

  predicate Enabled(s: State, e: Event) {
    match e
    case Wakes(w) => w < |s.workers| && s.workers[w].Ready?
    case Releases(i) => i in s.tasks
    case Settles(i, _) => i in s.tasks && !s.tasks[i].settled
    case Reaps(i) => i in s.tasks && s.tasks[i].settled && !s.tasks[i].reaped
  }

  function Step(c: Config, s: State, e: Event): State
    requires Enabled(s, e) && Known(s)
  {
    match e
    case Wakes(w) => Wake(c, s, w)
    case Releases(i) => Release(c, s, i)
    case Settles(i, failed) => Settle(c, s, i, failed)
    case Reaps(i) => Reap(s, i)
  }

  lemma {:induction false} StepInv(c: Config, s: State, e: Event)
    requires Inv(c, s) && Enabled(s, e)
    ensures Inv(c, Step(c, s, e))
  {
    match e
    case Wakes(w) => WakeInv(c, s, w);
    case Releases(i) => ReleaseInv(c, s, i);
    case Settles(i, failed) => SettleInv(c, s, i, failed);
    case Reaps(i) => ReapInv(c, s, i);
  }

  /** The state a sequence of events leads to, or None when one of them cannot happen. */
  ghost function Run(c: Config, s: State, es: seq<Event>): Option<State>
    decreases |es|
  {
    if es == [] then Some(s)
    else if Known(s) && Enabled(s, es[0]) then Run(c, Step(c, s, es[0]), es[1..])
    else None
  }

  ghost predicate Reachable(c: Config, s: State) {
    exists es :: Run(c, Init(c), es) == Some(s)
  }

  lemma {:induction false} RunInv(c: Config, s: State, es: seq<Event>)
    requires Inv(c, s) && Run(c, s, es).Some?
    ensures Inv(c, Run(c, s, es).value)
    decreases |es|
  {
    if es != [] {
      StepInv(c, s, es[0]);
      RunInv(c, Step(c, s, es[0]), es[1..]);
    }
  }

  lemma {:induction false} BusyBound(workers: seq<Worker>, items: set<nat>)
    requires forall i :: i in items ==> Busy(i) in workers
    ensures |items| <= |workers|
  {
    if workers == [] {
      if i :| i in items { assert false; }
    } else {
      var last := workers[|workers| - 1];
      var fewer := workers[..|workers| - 1];
      var rest := if last.Busy? then items - {last.item} else items;
      forall i | i in rest ensures Busy(i) in fewer {
        var v :| 0 <= v < |workers| && workers[v] == Busy(i);
        assert fewer[v] == Busy(i);
      }
      BusyBound(fewer, rest);
      if last.Busy? && last.item in items {
        assert |items| == |rest| + 1;
      } else {
        assert rest == items;
      }
    }
  }

  /** At every moment of every run all three limits hold, and the dispatch log follows the promised order. */
  lemma {:induction false} Safety(c: Config, s: State)
    requires Reachable(c, s)
    ensures Inv(c, s)
    ensures Within(|Holders(s)|, c.record)
    ensures |Tails(s)| <= c.tailCap
    ensures |Attached(s)| <= c.workers
    ensures s.dispatched <= Order(c)
  {
    var es :| Run(c, Init(c), es) == Some(s);
    InitInv(c);
    RunInv(c, Init(c), es);
    BusyBound(s.workers, Attached(s));
    StartsWith(s.dispatched, Checks(c, s.queue), Records(c, s.queue));
  }

  lemma StartsWith<T>(a: seq<T>, b: seq<T>, c: seq<T>)
    ensures a <= a + b + c
  {}

  lemma {:induction false} PartitionCounts(c: Config, q: seq<nat>)
    ensures multiset(Checks(c, q) + Records(c, q)) == multiset(q)
  {
    if q != [] {
      PartitionCounts(c, q[1..]);
      assert q == [q[0]] + q[1..];
    }
  }

  /** Once the pool is finished every item ran exactly once, in the promised order, and has settled. */
  lemma {:induction false} FinishedMeansAllRan(c: Config, s: State)
    requires Reachable(c, s) && Finished(s) && c.workers >= 1
    ensures s.dispatched == Order(c) && multiset(s.dispatched) == multiset(Iota(|c.records|))
    ensures forall i :: 0 <= i < |c.records| ==> i in s.tasks && s.tasks[i].settled
    ensures s.recordsInFlight == 0 && s.tailsInFlight == 0
  {
    Safety(c, s);
    assert s.workers[0] == Done;
    assert Done in s.workers;
    assert s.dispatched + [] + [] == s.dispatched;
    PartitionCounts(c, Iota(|c.records|));
    assert Holders(s) == {} && Tails(s) == {};
  }

  // ---- progress ----

  /** What `schedulePool` waits for before it returns: every worker gone and every tail drained. */
  predicate Finished(s: State) {
    && (forall w :: 0 <= w < |s.workers| ==> s.workers[w] == Done)
    && (forall i :: i in s.tasks ==> s.tasks[i].reaped)
  }

  /** A release that changes nothing but the queue for tail slots. */
  predicate Idle(c: Config, s: State, e: Event) {
    e.Releases? && e.i in s.tasks && !s.tasks[e.i].holdsRecord && !Claimable(c, s, e.i)
  }

  predicate RecordsCanRun(c: Config) {
    c.record.Unlimited? || c.record.n >= 1 || (forall i :: 0 <= i < |c.records| ==> !c.records[i])
  }

  lemma FirstCheckIsRecord(c: Config, q: seq<nat>)
    requires q != [] && FirstCheck(c, q) == |q|
    ensures IsRecord(c, q[0])
  {}

  /** No reachable state is stuck: unless the pool is finished, something other than an idle release can happen. */
  lemma {:induction false} Progress(c: Config, s: State) returns (e: Event)
    requires Inv(c, s) && RecordsCanRun(c) && !Finished(s)
    ensures Enabled(s, e) && !Idle(c, s, e) && !e.Releases?
  {
    if w :| 0 <= w < |s.workers| && s.workers[w].Ready? {
      return Wakes(w);
    }
    if w :| 0 <= w < |s.workers| && s.workers[w].Busy? {
      assert s.workers[w].item in Attached(s);
      return Settles(s.workers[w].item, false);
    }
    if w :| 0 <= w < |s.workers| && s.workers[w].Parked? {
      assert w in s.waiters;
      FirstCheckIsRecord(c, s.queue);
      assert |Holders(s)| >= 1;
      var i :| i in Holders(s);
      return Settles(i, false);
    }
    assert forall w :: 0 <= w < |s.workers| ==> s.workers[w] == Done;
    var i :| i in s.tasks && !s.tasks[i].reaped;
    return if s.tasks[i].settled then Reaps(i) else Settles(i, false);
  }

  // What is left to do, as sets: not settled, not detached, not past its recording, not forgotten.

  function Unsettled(c: Config, s: State): set<nat> {
    set i | 0 <= i < |c.records| && !(i in s.tasks && s.tasks[i].settled)
  }

  function Undetached(c: Config, s: State): set<nat> {
    set i | 0 <= i < |c.records| && !(i in s.tasks && s.tasks[i].detached)
  }

  function Unrecorded(c: Config, s: State): set<nat> {
    set i | 0 <= i < |c.records| && !(i in s.tasks && !s.tasks[i].holdsRecord)
  }

  function Unreaped(c: Config, s: State): set<nat> {
    set i | 0 <= i < |c.records| && !(i in s.tasks && s.tasks[i].reaped)
  }

  function ReadyWorkers(s: State): set<nat> {
    set w | 0 <= w < |s.workers| && s.workers[w].Ready?
  }

  function Work(c: Config, s: State): nat {
    |Unsettled(c, s)| + |Undetached(c, s)| + |Unrecorded(c, s)| + |Unreaped(c, s)|
  }

  lemma {:induction false} Shrinks(a: set<nat>, b: set<nat>)
    requires a <= b
    ensures |a| <= |b|
    ensures a != b ==> |a| < |b|
  {
    var d := b - a;
    assert b == a + d;
    if a != b { assert d != {}; }
  }

  /** t has no more left to do than s, and strictly less when one of the four sets shrank. */
  lemma {:induction false} WorkShrinks(c: Config, s: State, t: State)
    requires Unsettled(c, t) <= Unsettled(c, s) && Undetached(c, t) <= Undetached(c, s)
    requires Unrecorded(c, t) <= Unrecorded(c, s) && Unreaped(c, t) <= Unreaped(c, s)
    ensures Work(c, t) <= Work(c, s)
    ensures (|| Unsettled(c, t) != Unsettled(c, s) || Undetached(c, t) != Undetached(c, s)
             || Unrecorded(c, t) != Unrecorded(c, s) || Unreaped(c, t) != Unreaped(c, s)) ==> Work(c, t) < Work(c, s)
  {
    Shrinks(Unsettled(c, t), Unsettled(c, s));
    Shrinks(Undetached(c, t), Undetached(c, s));
    Shrinks(Unrecorded(c, t), Unrecorded(c, s));
    Shrinks(Unreaped(c, t), Unreaped(c, s));
  }

  /** Task t carries task s further: no flag is taken back. */
  predicate Later(s: Task, t: Task) {
    && (s.settled ==> t.settled) && (s.detached ==> t.detached)
    && (t.holdsRecord ==> s.holdsRecord) && (s.reaped ==> t.reaped)
  }

  predicate Advances(s: State, t: State) {
    forall i :: i in s.tasks ==> i in t.tasks && Later(s.tasks[i], t.tasks[i])
  }

  lemma {:induction false} AdvancesShrinks(c: Config, s: State, t: State)
    requires Advances(s, t)
    ensures Unsettled(c, t) <= Unsettled(c, s) && Undetached(c, t) <= Undetached(c, s)
    ensures Unrecorded(c, t) <= Unrecorded(c, s) && Unreaped(c, t) <= Unreaped(c, s)
    ensures Work(c, t) <= Work(c, s)
  {
    WorkShrinks(c, s, t);
  }

  lemma {:induction false} AdmitTailsAdvances(c: Config, s: State)
    requires Known(s)
    ensures Advances(s, AdmitTails(c, s))
    decreases |s.wantsTail|
  {
    if s.tailsInFlight < c.tailCap && s.wantsTail != [] {
      var head := s.wantsTail[0];
      var t := s.(wantsTail := s.wantsTail[1..]);
      if !Claimable(c, t, head) {
        AdmitTailsAdvances(c, t);
      }
    }
  }

  /** Every step but an idle release uses up work, or else parks or retires one ready worker. */
  lemma {:induction false} StepUsesWork(c: Config, s: State, e: Event)
    requires Inv(c, s) && Enabled(s, e)
    ensures var t := Step(c, s, e);
            Work(c, t) <= Work(c, s) &&
            if Idle(c, s, e) then Work(c, t) == Work(c, s) && t.workers == s.workers
            else Work(c, t) < Work(c, s) || |ReadyWorkers(t)| < |ReadyWorkers(s)|
  {
    var t := Step(c, s, e);
    match e {
      case Wakes(w) =>
        WakeUsesReady(c, s, w);
      case Releases(i) =>
        ReleaseUsesWork(c, s, i);
      case Settles(i, failed) =>
        SettleUsesWork(c, s, i, failed);
      case Reaps(i) =>
        ReapUsesWork(c, s, i);
    }
  }

  lemma {:induction false} WakeUsesReady(c: Config, s: State, w: nat)
    requires QueueOk(c, s) && w < |s.workers| && s.workers[w].Ready?
    ensures var t := Wake(c, s, w); Work(c, t) <= Work(c, s) && |ReadyWorkers(t)| < |ReadyWorkers(s)|
  {
    var t := Wake(c, s, w);
    assert Advances(s, t);
    AdvancesShrinks(c, s, t);
    assert ReadyWorkers(t) == ReadyWorkers(s) - {w} && w in ReadyWorkers(s);
  }

  lemma {:induction false} ReapUsesWork(c: Config, s: State, i: nat)
    requires QueueOk(c, s) && i in s.tasks && !s.tasks[i].reaped
    ensures Work(c, Reap(s, i)) < Work(c, s)
  {
    var t := Reap(s, i);
    assert Advances(s, t);
    AdvancesShrinks(c, s, t);
    assert i in Unreaped(c, s) && i !in Unreaped(c, t);
    WorkShrinks(c, s, t);
  }

  lemma {:induction false} ReleaseUsesWork(c: Config, s: State, i: nat)
    requires Inv(c, s) && i in s.tasks
    ensures var t := Release(c, s, i);
            if Idle(c, s, Releases(i)) then Work(c, t) == Work(c, s) && t.workers == s.workers
            else Work(c, t) < Work(c, s)
  {
    var t := Release(c, s, i);
    assert Advances(s, t);
    AdvancesShrinks(c, s, t);
    if Idle(c, s, Releases(i)) {
      assert t.tasks == s.tasks;
    } else {
      if s.tasks[i].holdsRecord {
        assert i in Unrecorded(c, s) && i !in Unrecorded(c, t);
      } else {
        assert i in Undetached(c, s) && i !in Undetached(c, t);
      }
      WorkShrinks(c, s, t);
    }
  }

  lemma {:induction false} AfterSettleUsesWork(c: Config, s: State, i: nat, failed: bool)
    requires QueueOk(c, s) && i in s.tasks && !s.tasks[i].settled
    ensures Work(c, AfterSettle(s, i, failed)) < Work(c, s)
  {
    var a := AfterSettle(s, i, failed);
    assert Advances(s, a);
    AdvancesShrinks(c, s, a);
    assert i in Unsettled(c, s) && i !in Unsettled(c, a);
    WorkShrinks(c, s, a);
  }

  lemma {:induction false} SettleUsesWork(c: Config, s: State, i: nat, failed: bool)
    requires Inv(c, s) && i in s.tasks && !s.tasks[i].settled
    ensures Work(c, Settle(c, s, i, failed)) < Work(c, s)
  {
    var a := AfterSettle(s, i, failed);
    SettleInv(c, s, i, failed);
    AfterSettleBase(c, s, i, failed);
    AfterSettleUsesWork(c, s, i, failed);
    if s.tasks[i].detached {
      AdmitTailsAdvances(c, a);
      AdvancesShrinks(c, a, AdmitTails(c, a));
    }
  }

  lemma {:induction false} RunCons(c: Config, s: State, e: Event, es: seq<Event>)
    requires Known(s) && Enabled(s, e)
    ensures Run(c, s, [e] + es) == Run(c, Step(c, s, e), es)
  {
    assert ([e] + es)[1..] == es;
  }

  /** From any state a run can reach, settling the tasks and waking the workers leads to the end. */
  lemma {:induction false} Finish(c: Config, s: State) returns (es: seq<Event>)
    requires Inv(c, s) && RecordsCanRun(c)
    ensures Run(c, s, es).Some? && Finished(Run(c, s, es).value)
    decreases Work(c, s), |ReadyWorkers(s)|
  {
    if Finished(s) {
      es := [];
    } else {
      var e := Progress(c, s);
      StepInv(c, s, e);
      StepUsesWork(c, s, e);
      var rest := Finish(c, Step(c, s, e));
      RunCons(c, s, e, rest);
      es := [e] + rest;
    }
  }

  lemma {:induction false} CappedRecordNeverRuns(c: Config, s: State, r: nat, es: seq<Event>)
    requires Inv(c, s) && c.record == AtMost(0) && IsRecord(c, r) && r in s.queue && Run(c, s, es).Some?
    ensures r in Run(c, s, es).value.queue
    decreases |es|
  {
    if es != [] {
      StepInv(c, s, es[0]);
      var t := Step(c, s, es[0]);
      if es[0].Wakes? {
        CappedWake(c, s, r, es[0].w);
      } else if es[0].Settles? {
        SettleInv(c, s, es[0].i, es[0].failed);
        AfterSettleBase(c, s, es[0].i, es[0].failed);
        AdmitTailsKeepsQueue(c, AfterSettle(s, es[0].i, es[0].failed));
      }
      CappedRecordNeverRuns(c, t, r, es[1..]);
    }
  }

  lemma {:induction false} CappedWake(c: Config, s: State, r: nat, w: nat)
    requires Inv(c, s) && c.record == AtMost(0) && IsRecord(c, r) && r in s.queue && w < |s.workers|
    ensures r in Wake(c, s, w).queue
  {
    var k := NextIndex(c, s.queue, s.recordsInFlight);
    if k != -1 {
      var j :| 0 <= j < |s.queue| && s.queue[j] == r;
      assert r == Without(s.queue, k)[if j < k then j else j - 1];
    }
  }

  lemma {:induction false} AdmitTailsKeepsQueue(c: Config, s: State)
    requires Known(s)
    ensures AdmitTails(c, s).queue == s.queue
    decreases |s.wantsTail|
  {
    if s.tailsInFlight < c.tailCap && s.wantsTail != [] {
      var t := s.(wantsTail := s.wantsTail[1..]);
      if !Claimable(c, t, s.wantsTail[0]) {
        AdmitTailsKeepsQueue(c, t);
      }
    }
  }

  ghost predicate CanFinish(c: Config) {
    exists es :: Run(c, Init(c), es).Some? && Finished(Run(c, Init(c), es).value)
  }

  /** A pool can finish exactly when its record cap lets at least one record through, or it has no record to run. */
  lemma {:induction false} FinishesIffRecordsCanRun(c: Config)
    requires c.workers >= 1
    ensures CanFinish(c) <==> RecordsCanRun(c)
  {
    InitInv(c);
    if RecordsCanRun(c) {
      var es := Finish(c, Init(c));
    } else {
      var r :| 0 <= r < |c.records| && c.records[r];
      assert Init(c).queue[r] == r;
      forall es | Run(c, Init(c), es).Some? ensures !Finished(Run(c, Init(c), es).value) {
        var t := Run(c, Init(c), es).value;
        CappedRecordNeverRuns(c, Init(c), r, es);
        RunInv(c, Init(c), es);
        assert Done in t.workers ==> t.queue == [];
      }
    }
  }

  // ---- the error the pool rethrows ----

  function FirstFailure(es: seq<Event>): Option<nat> {
    if es == [] then None
    else if es[0].Settles? && es[0].failed then Some(es[0].i)
    else FirstFailure(es[1..])
  }

  lemma {:induction false} AdmitTailsKeepsError(c: Config, s: State)
    requires Known(s)
    ensures AdmitTails(c, s).firstError == s.firstError
    decreases |s.wantsTail|
  {
    if s.tailsInFlight < c.tailCap && s.wantsTail != [] {
      var t := s.(wantsTail := s.wantsTail[1..]);
      if !Claimable(c, t, s.wantsTail[0]) {
        AdmitTailsKeepsError(c, t);
      }
    }
  }

  /** The recorded error is the first one any task settled with, whatever happened in between. */
  lemma {:induction false} RethrowsFirstFailure(c: Config, s: State, es: seq<Event>)
    requires Inv(c, s) && Run(c, s, es).Some?
    ensures Run(c, s, es).value.firstError == if s.firstError.Some? then s.firstError else FirstFailure(es)
    decreases |es|
  {
    if es != [] {
      StepInv(c, s, es[0]);
      if es[0].Settles? {
        SettleInv(c, s, es[0].i, es[0].failed);
        AfterSettleBase(c, s, es[0].i, es[0].failed);
        AdmitTailsKeepsError(c, AfterSettle(s, es[0].i, es[0].failed));
      }
      RethrowsFirstFailure(c, Step(c, s, es[0]), es[1..]);
    }
  }
}

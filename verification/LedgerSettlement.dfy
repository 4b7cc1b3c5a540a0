/**
  Settling in batches: the queue is every pending transfer in creation order, and two
  batches do what one batch of both sizes does.
*/
module LedgerSettlement {
  import opened Common
  import opened LedgerSpec
  import opened LedgerInvariant

  // ---- the queue ----

  lemma {:induction false} QueueHasAll(ts: seq<Transfer>, k: nat, i: nat)
    requires k <= i < |ts| && ts[i].status == Pending
    ensures i in PendingFrom(ts, k)
    decreases |ts| - k
  {
    if i > k { QueueHasAll(ts, k + 1, i); }
  }

  /** The settlement queue holds exactly the pending transfers, strictly ordered by their creation sequence. */
  lemma {:induction false} QueueIsCreationOrder(s: State)
    requires Inv(s)
    ensures InRange(s, Queue(s))
    ensures forall i :: i in Queue(s) <==> 0 <= i < |s.transfers| && s.transfers[i].status == Pending
    ensures forall a, b :: 0 <= a < b < |Queue(s)| ==>
              s.transfers[Queue(s)[a]].sequence < s.transfers[Queue(s)[b]].sequence
  {
    QueueInRange(s.transfers, 0);
    forall i | 0 <= i < |s.transfers| && s.transfers[i].status == Pending ensures i in Queue(s) {
      QueueHasAll(s.transfers, 0, i);
    }
    hide PendingFrom, BalancesOk, EntriesOk, LegsOk, DepositsOk, KeysOk;
  }

  lemma {:induction false} FirstDone(ts: seq<Transfer>, k: nat, i: nat, t: Transfer)
    requires k <= |ts| && i < |ts| && t.status != Pending && PendingFrom(ts, k) != [] && PendingFrom(ts, k)[0] == i
    ensures PendingFrom(ts[i := t], k) == PendingFrom(ts, k)[1..]
    decreases |ts| - k
  {
    if ts[k].status == Pending {
      Unchanged(ts, k + 1, i, t);
    } else {
      assert PendingFrom(ts, k) == PendingFrom(ts, k + 1);
      QueueInRange(ts, k + 1);
      FirstDone(ts, k + 1, i, t);
    }
  }

  lemma {:induction false} Unchanged(ts: seq<Transfer>, k: nat, i: nat, t: Transfer)
    requires i < k <= |ts|
    ensures PendingFrom(ts[i := t], k) == PendingFrom(ts, k)
    decreases |ts| - k
  {
    if k < |ts| { Unchanged(ts, k + 1, i, t); }
  }

  lemma {:induction false} QueueAfterOne(s: State)
    requires Queue(s) != []
    ensures Queue(s)[0] < |s.transfers| && Queue(SettleOne(s, Queue(s)[0])) == Queue(s)[1..]
  {
    QueueInRange(s.transfers, 0);
    var i := Queue(s)[0];
    SettleOneOthers(s, i);
    var u := SettleOne(s, i);
    hide SettleOne, PendingFrom;
    assert u.transfers == s.transfers[i := u.transfers[i]];
    FirstDone(s.transfers, 0, i, u.transfers[i]);
  }

  predicate InRange(s: State, batch: seq<nat>) {
    forall k :: 0 <= k < |batch| ==> batch[k] < |s.transfers|
  }

  /** Settling the front of the queue leaves the rest of it. */
  lemma {:induction false} QueueAfter(s: State, n: nat)
    requires n <= |Queue(s)|
    ensures InRange(s, Queue(s)[..n]) && Queue(SettleAll(s, Queue(s)[..n])) == Queue(s)[n..]
    decreases n
  {
    QueueInRange(s.transfers, 0);
    var q := Queue(s);
    hide PendingFrom;
    if n > 0 {
      QueueAfterOne(s);
      var u := SettleOne(s, q[0]);
      SettleOneOthers(s, q[0]);
      hide SettleOne;
      QueueAfter(u, n - 1);
      assert q[..n][1..] == q[1..][..n - 1] && q[1..][n - 1..] == q[n..];
    }
  }

  lemma {:induction false} SettleSplit(s: State, x: seq<nat>, y: seq<nat>)
    requires InRange(s, x) && InRange(s, y)
    ensures InRange(s, x + y) && InRange(SettleAll(s, x), y)
    ensures SettleAll(s, x + y) == SettleAll(SettleAll(s, x), y)
    decreases |x|
  {
    SettleAllLength(s, x);
    if x == [] {
      assert x + y == y;
    } else {
      SettleOneOthers(s, x[0]);
      hide SettleOne;
      assert (x + y)[1..] == x[1..] + y;
      SettleSplit(SettleOne(s, x[0]), x[1..], y);
    }
  }

  lemma {:induction false} SettleAllOthers(s: State, batch: seq<nat>)
    requires InRange(s, batch)
    ensures var u := SettleAll(s, batch);
            && |u.transfers| == |s.transfers| && u.day == s.day && u.usage == s.usage
            && (forall k :: 0 <= k < |s.transfers| && k !in batch ==> u.transfers[k] == s.transfers[k])
    decreases |batch|
  {
    if batch != [] {
      SettleOneOthers(s, batch[0]);
      hide SettleOne;
      SettleAllOthers(SettleOne(s, batch[0]), batch[1..]);
    }
  }

  lemma {:induction false} EndedSame(s: State, t: State, batch: seq<nat>, status: TransferStatus)
    requires InRange(s, batch) && |s.transfers| == |t.transfers|
    requires forall k :: 0 <= k < |batch| ==> t.transfers[batch[k]] == s.transfers[batch[k]]
    ensures Ended(s, batch, status) == Ended(t, batch, status)
  {
    if batch != [] { EndedSame(s, t, batch[1..], status); }
  }

  lemma {:induction false} EndedSplit(s: State, x: seq<nat>, y: seq<nat>, status: TransferStatus)
    requires InRange(s, x) && InRange(s, y)
    ensures InRange(s, x + y) && Ended(s, x + y, status) == Ended(s, x, status) + Ended(s, y, status)
  {
    if x == [] {
      assert x + y == y;
    } else {
      assert (x + y)[1..] == x[1..] + y;
      EndedSplit(s, x[1..], y, status);
    }
  }

  // ---- the theorem ----

  function BatchSize(s: State, n: int): nat {
    Min(|Queue(s)|, Max(0, n))
  }

  /** Two batches in a row, on the front of the queue: same state, and the two result lists one after the other. */
  lemma {:induction false} BatchesCompose(s: State, a: nat, b: nat)
    requires a + b <= |Queue(s)|
    ensures var q := Queue(s);
            && InRange(s, q[..a]) && InRange(s, q[..a + b])
            && var m := SettleAll(s, q[..a]);
               && Queue(m) == q[a..] && InRange(m, Queue(m)[..b])
               && var u := SettleAll(m, Queue(m)[..b]);
                  && u == SettleAll(s, q[..a + b])
                  && |m.transfers| == |u.transfers| == |s.transfers|
                  && (forall st :: Ended(u, q[..a + b], st) == Ended(m, q[..a], st) + Ended(u, Queue(m)[..b], st))
  {
    hide PendingFrom, SettleAll, Ended;
    var q := Queue(s);
    QueueInRange(s.transfers, 0);
    QueueAfter(s, a);
    var m := SettleAll(s, q[..a]);
    var rest := q[a..][..b];
    assert q[..a] + rest == q[..a + b];
    SettleSplit(s, q[..a], rest);
    SettleAllOthers(s, q[..a]);
    SettleAllOthers(m, rest);
    var u := SettleAll(m, rest);
    forall st ensures Ended(u, q[..a + b], st) == Ended(m, q[..a], st) + Ended(u, rest, st) {
      assert forall k :: 0 <= k < a ==> q[..a][k] !in rest;
      EndedSame(m, u, q[..a], st);
      EndedSplit(u, q[..a], rest, st);
    }
  }

  /**
    Without a day rollover, settling n and then m transfers reaches the state of settling both
    at once, and reports the same settled and failed transfers in the same order.
  */
  lemma {:induction false} TicksCompose(s: State, n: int, m: int)
    ensures var (t, first) := Tick(s, Some(n), false);
            var (u, second) := Tick(t, Some(m), false);
            var (v, both) := Tick(s, Some(Max(0, n) + Max(0, m)), false);
            && u == v
            && both.body.settled == first.body.settled + second.body.settled
            && both.body.failed == first.body.failed + second.body.failed
            && both.body.pending == second.body.pending
  {
    var a := BatchSize(s, n);
    var b := Min(|Queue(s)| - a, Max(0, m));
    hide Queue, SettleAll, Ended, Tick;
    BatchesCompose(s, a, b);
    TickIs(s, n);
    TickIs(SettleAll(s, Queue(s)[..a]), m);
    TickIs(s, Max(0, n) + Max(0, m));
  }

  lemma {:induction false} TickIs(s: State, n: int)
    ensures var batch := Queue(s)[..BatchSize(s, n)];
            && InRange(s, batch) && |SettleAll(s, batch).transfers| == |s.transfers|
            && var u := SettleAll(s, batch);
               Tick(s, Some(n), false) == (u, Done(200, ATick(Ended(u, batch, Settled), Ended(u, batch, Failed), |Queue(u)|, u.day)))
  {
    QueueInRange(s.transfers, 0);
    SettleAllLength(s, Queue(s)[..BatchSize(s, n)]);
  }

  lemma {:induction false} LimitChoosesBatch(s: State, n: int)
    ensures Batch(s, Some(n)) == Queue(s)[..BatchSize(s, n)] && Batch(s, None) == Queue(s)
  {}

  lemma {:induction false} TickSequence(s: State, limit: Option<int>, advanceDay: bool)
    ensures Tick(s, limit, advanceDay).0.sequence == s.sequence + |Batch(s, limit)|
  {
    BatchFacts(s, limit);
    hide PendingFrom, SettleAll, Ended, Batch;
    SequenceCounts(s, Batch(s, limit));
  }

  /** No limit means the whole queue: a limit changes nothing exactly when it reaches the queue's length. */
  lemma {:induction false} NoLimitIsAllPending(s: State, n: int, advanceDay: bool)
    ensures Tick(s, None, advanceDay) == Tick(s, Some(n), advanceDay) <==> Max(0, n) >= |Queue(s)|
  {
    LimitChoosesBatch(s, n);
    TickSequence(s, None, advanceDay);
    TickSequence(s, Some(n), advanceDay);
    if Max(0, n) >= |Queue(s)| {
      assert Queue(s)[..BatchSize(s, n)] == Queue(s);
      SameBatch(s, None, Some(n), advanceDay);
    }
    hide Tick, Batch, Queue;
  }

  lemma {:induction false} SameBatch(s: State, x: Option<int>, y: Option<int>, advanceDay: bool)
    requires Batch(s, x) == Batch(s, y)
    ensures Tick(s, x, advanceDay) == Tick(s, y, advanceDay)
  {
    BatchFacts(s, x);
    hide SettleAll, Ended, Batch;
  }

  lemma {:induction false} SequenceCounts(s: State, batch: seq<nat>)
    requires InRange(s, batch)
    ensures SettleAll(s, batch).sequence == s.sequence + |batch|
    decreases |batch|
  {
    if batch != [] {
      SettleOneOthers(s, batch[0]);
      OneMutation(s, batch[0]);
      hide SettleOne;
      SequenceCounts(SettleOne(s, batch[0]), batch[1..]);
    }
  }

  lemma OneMutation(s: State, i: nat)
    requires i < |s.transfers|
    ensures SettleOne(s, i).sequence == s.sequence + 1
  {}
}

/**
  The scheduler object: the variables `schedulePool` closes over, and the code between
  two awaits as one method each. Every method is proved to take exactly the step that
  PoolSpec describes, so what PoolRuns and PoolClaims prove of runs holds of it.
*/
module Pool {
  import opened Common
  import opened PoolSpec
  import PoolRuns

  class Scheduler {
    const config: Config
    var queue: seq<nat>
    var recordsInFlight: int
    var tailsInFlight: int
    var wantsTail: seq<nat>
    var waiters: seq<nat>
    var workers: seq<Worker>
    var tasks: map<nat, Task>
    ghost var dispatched: seq<nat>
    var firstError: Option<nat>

    ghost function View(): State
      reads this
    {
      State(queue, recordsInFlight, tailsInFlight, wantsTail, waiters, workers, tasks, dispatched, firstError)
    }

    ghost predicate Valid()
      reads this
    {
      Inv(config, View())
    }

    constructor (c: Config)
      ensures config == c && View() == Init(c) && Valid()
    {
      config := c;
      queue := Iota(|c.records|);
      recordsInFlight, tailsInFlight := 0, 0;
      wantsTail, waiters := [], [];
      workers := seq(c.workers, _ => Ready);
      tasks := map[];
      dispatched := [];
      firstError := None;
      new;
      InitInv(c);
    }

    /** Remove and return the next item to run: a check wherever it stands, else the first permitted record. */
    method TakeNext() returns (item: Option<nat>)
      modifies this`queue, this`recordsInFlight
      ensures var k := NextIndex(config, old(queue), old(recordsInFlight));
              if k == -1 then item == None && queue == old(queue) && recordsInFlight == old(recordsInFlight)
              else && item == Some(old(queue)[k]) && queue == Without(old(queue), k)
                   && recordsInFlight == old(recordsInFlight) + if IsRecord(config, old(queue)[k]) then 1 else 0
    {
      var canRecord := Below(recordsInFlight, config.record);
      var idx := -1;
      var i := 0;
      while i < |queue|
        invariant 0 <= i <= |queue|
        invariant forall j :: 0 <= j < i ==> IsRecord(config, queue[j])
        invariant idx == if canRecord && i > 0 then 0 else -1
      {
        if !IsRecord(config, queue[i]) {
          idx := i;
          break;
        }
        if canRecord && idx == -1 {
          idx := i;
        }
        i := i + 1;
      }
      if i < |queue| {
        FirstCheckAt(config, queue, i);
      } else {
        NoCheck(config, queue);
      }
      if idx == -1 {
        return None;
      }
      item := Some(queue[idx]);
      queue := Without(queue, idx);
      if IsRecord(config, item.value) {
        recordsInFlight := recordsInFlight + 1;
      }
    }

    /** One turn of a worker's loop: retire, park, or dispatch the next item and wait for its slot. */
    method TakeTurn(w: nat)
      requires w < |workers|
      modifies this
      ensures View() == Wake(config, old(View()), w)
    {
      if |queue| == 0 {
        workers := workers[w := Done];
        return;
      }
      var next := TakeNext();
      if next == None {
        workers := workers[w := Parked];
        waiters := waiters + [w];
        return;
      }
      tasks := tasks[next.value := Task(IsRecord(config, next.value), false, false, false)];
      workers := workers[w := Busy(next.value)];
      dispatched := dispatched + [next.value];
    }

    method WakeWorker(w: nat)
      requires Valid() && w < |workers| && workers[w].Ready?
      modifies this
      ensures Valid() && View() == Wake(config, old(View()), w)
    {
      WakeInv(config, View(), w);
      TakeTurn(w);
    }

    /** Give the record permit back and resume every parked worker. */
    method ReleaseRecord()
      requires forall w :: w in waiters ==> w < |workers|
      modifies this`recordsInFlight, this`waiters, this`workers
      ensures recordsInFlight == old(recordsInFlight) - 1 && waiters == []
      ensures workers == Woken(old(workers), old(waiters))
    {
      recordsInFlight := recordsInFlight - 1;
      var w := waiters;
      waiters := [];
      for k := 0 to |w|
        invariant w == old(waiters)
        invariant recordsInFlight == old(recordsInFlight) - 1 && waiters == [] && |workers| == |old(workers)|
        invariant forall v :: 0 <= v < |workers| ==> workers[v] == if v in w[..k] then Ready else old(workers)[v]
      {
        assert w[k] in old(waiters);
        workers := workers[w[k] := Ready];
      }
      assert w[..|w|] == w;
    }

    /** Claim a tail slot and hand the worker back; declines when there is nothing to claim with, or no slot. */
    method ClaimTail(i: nat) returns (claimed: bool)
      requires i in tasks
      modifies this`tasks, this`tailsInFlight, this`workers
      ensures claimed == Claimable(config, old(View()), i)
      ensures View() == if claimed then Claim(old(View()), i) else old(View())
    {
      if tasks[i].detached || tasks[i].settled || tailsInFlight >= config.tailCap {
        return false;
      }
      tasks := tasks[i := tasks[i].(detached := true)];
      tailsInFlight := tailsInFlight + 1;
      workers := Freed(workers, i);
      return true;
    }

    /** What the release permit does: record permit first, then the tail slot, else a place in its queue. */
    method Announce(i: nat)
      requires i in tasks && forall w :: w in waiters ==> w < |workers|
      modifies this
      ensures View() == Release(config, old(View()), i)
    {
      if tasks[i].holdsRecord {
        tasks := tasks[i := tasks[i].(holdsRecord := false)];
        ReleaseRecord();
      }
      var claimed := ClaimTail(i);
      if !claimed && !tasks[i].detached && !tasks[i].settled {
        wantsTail := wantsTail + [i];
      }
    }

    /** The permit a task calls when its recording is over. */
    method ReleasePermits(i: nat)
      requires Valid() && i in tasks
      modifies this
      ensures Valid() && View() == Release(config, old(View()), i)
    {
      PoolRuns.ReleaseInv(config, View(), i);
      Announce(i);
    }

    /** Offer a freed slot to the queued cases, oldest first, until one takes it. */
    method OfferTails()
      requires Known(View())
      modifies this`tasks, this`tailsInFlight, this`workers, this`wantsTail
      ensures View() == AdmitTails(config, old(View()))
    {
      while tailsInFlight < config.tailCap && |wantsTail| > 0
        invariant Known(View())
        invariant AdmitTails(config, View()) == AdmitTails(config, old(View()))
        decreases |wantsTail|
      {
        var head := wantsTail[0];
        wantsTail := wantsTail[1..];
        var claimed := ClaimTail(head);
        if claimed {
          return;
        }
      }
    }

    /** A task is over: note its error if it is the first, and give up a record permit it still holds. */
    method EndTask(i: nat, failed: bool)
      requires i in tasks && forall w :: w in waiters ==> w < |workers|
      modifies this`firstError, this`tasks, this`recordsInFlight, this`waiters, this`workers
      ensures View() == MarkSettled(old(View()), i, failed)
    {
      if failed && firstError == None {
        firstError := Some(i);
      }
      tasks := tasks[i := tasks[i].(settled := true)];
      if tasks[i].holdsRecord {
        tasks := tasks[i := tasks[i].(holdsRecord := false)];
        ReleaseRecord();
      }
    }

    /** A task settles: end it, pass its tail slot on if it had one, and free its worker. */
    method FinishTask(i: nat, failed: bool)
      requires i in tasks && Known(View()) && forall w :: w in waiters ==> w < |workers|
      modifies this
      ensures View() == Settle(config, old(View()), i, failed)
    {
      EndTask(i, failed);
      if tasks[i].detached {
        tailsInFlight := tailsInFlight - 1;
        OfferTails();
      }
      workers := Freed(workers, i);
    }

    /** What runs when a task settles, whether or not it threw. */
    method SettleTask(i: nat, failed: bool)
      requires Valid() && i in tasks && !tasks[i].settled
      modifies this
      ensures Valid() && View() == Settle(config, old(View()), i, failed)
    {
      PoolRuns.SettleInv(config, View(), i, failed);
      FinishTask(i, failed);
    }

    /** The settled promise leaves the set the pool still waits for. */
    method ForgetTask(i: nat)
      requires Valid() && i in tasks && tasks[i].settled
      modifies this
      ensures Valid() && View() == Reap(old(View()), i)
    {
      PoolRuns.ReapInv(config, View(), i);
      tasks := tasks[i := tasks[i].(reaped := true)];
    }
  }

  lemma {:induction false} FirstCheckAt(c: Config, q: seq<nat>, k: nat)
    requires k < |q| && !IsRecord(c, q[k]) && forall j :: 0 <= j < k ==> IsRecord(c, q[j])
    ensures FirstCheck(c, q) == k
  {
    if k > 0 { FirstCheckAt(c, q[1..], k - 1); }
  }

  lemma {:induction false} NoCheck(c: Config, q: seq<nat>)
    requires forall j :: 0 <= j < |q| ==> IsRecord(c, q[j])
    ensures FirstCheck(c, q) == |q|
  {
    if q != [] { NoCheck(c, q[1..]); }
  }
}

/**
  The scheduler's limits in terms of what happened in a run: which cases were dispatched, announced `release` and
  settled. Nothing here depends on the flags the scheduler keeps about a case.
*/
module PoolHistory {
  import opened Common
  import opened PoolSpec
  import opened PoolRuns
  import PoolClaims

  predicate Released(es: seq<Event>, i: nat) {
    Releases(i) in es
  }

  predicate Ended(es: seq<Event>, i: nat) {
    Settles(i, true) in es || Settles(i, false) in es
  }

  /** The flags say what happened: who holds the record permit, who has ended, and where a released case is. */
  ghost predicate Tells(c: Config, s: State, es: seq<Event>) {
    && (forall i :: i in s.tasks ==> TaskTells(c, s, es, i))
    && (forall i: nat :: Released(es, i) || Ended(es, i) ==> i in s.tasks)
    && (forall k :: 0 <= k < |s.wantsTail| ==> Released(es, s.wantsTail[k]))
  }

  ghost predicate TaskTells(c: Config, s: State, es: seq<Event>, i: nat)
    requires i in s.tasks
  {
    var t := s.tasks[i];
    && (t.settled <==> Ended(es, i))
    && (t.holdsRecord <==> IsRecord(c, i) && !Released(es, i) && !Ended(es, i))
    && (t.detached ==> Released(es, i))
    && (Released(es, i) && !t.settled && !t.detached ==> i in s.wantsTail)
  }

  lemma {:induction false} StepTells(c: Config, s: State, es: seq<Event>, e: Event)
    requires Inv(c, s) && Tells(c, s, es) && Enabled(s, e)
    ensures Tells(c, Step(c, s, e), es + [e])
  {
    match e
    case Wakes(w) => WakeTells(c, s, es, w);
    case Releases(i) => ReleaseTells(c, s, es, i);
    case Settles(i, failed) => SettleTells(c, s, es, i, failed);
    case Reaps(i) =>
      forall j | j in s.tasks ensures TaskTells(c, Reap(s, i), es + [e], j) { assert TaskTells(c, s, es, j); }
  }

  lemma {:induction false} WakeTells(c: Config, s: State, es: seq<Event>, w: nat)
    requires Inv(c, s) && Tells(c, s, es) && w < |s.workers|
    ensures Tells(c, Wake(c, s, w), es + [Wakes(w)])
  {
    var t := Wake(c, s, w);
    forall j | j in t.tasks ensures TaskTells(c, t, es + [Wakes(w)], j) {
      if j in s.tasks {
        assert TaskTells(c, s, es, j);
        assert t.tasks[j] == s.tasks[j];
      }
    }
  }

  lemma {:induction false} ReleaseTells(c: Config, s: State, es: seq<Event>, i: nat)
    requires Inv(c, s) && Tells(c, s, es) && i in s.tasks
    ensures Tells(c, Release(c, s, i), es + [Releases(i)])
  {
    hide Release, Inv;
    var t, after := Release(c, s, i), es + [Releases(i)];
    PoolClaims.ReleasedNotClaimable(c, s, i);
    ReleasedTask(c, s, i);
    assert after[|es|] == Releases(i);
    forall j: nat ensures Released(after, j) <==> Released(es, j) || j == i {}
    forall j: nat ensures Ended(after, j) <==> Ended(es, j) {}
    forall j | j in t.tasks ensures TaskTells(c, t, after, j) {
      assert TaskTells(c, s, es, j);
    }
  }

  /** A release leaves the others alone, and its case without record permit: detached, or queued for a slot. */
  lemma {:induction false} ReleasedTask(c: Config, s: State, i: nat)
    requires i in s.tasks
    ensures var t := Release(c, s, i);
            && t.tasks.Keys == s.tasks.Keys && (forall j :: j in s.tasks && j != i ==> t.tasks[j] == s.tasks[j])
            && t.tasks[i].settled == s.tasks[i].settled && (s.tasks[i].detached ==> t.tasks[i].detached)
            && (t.wantsTail == s.wantsTail || t.wantsTail == s.wantsTail + [i])
            && (!t.tasks[i].settled && !t.tasks[i].detached ==> i in t.wantsTail)
  {
    var t := Release(c, s, i);
    if t.wantsTail == s.wantsTail + [i] { assert t.wantsTail[|s.wantsTail|] == i; }
  }

  lemma {:induction false} AdmitKeeps(c: Config, s: State)
    requires Known(s)
    ensures var t := AdmitTails(c, s);
            && t.tasks.Keys == s.tasks.Keys
            && (forall j :: j in s.tasks ==>
                  && t.tasks[j].settled == s.tasks[j].settled && t.tasks[j].holdsRecord == s.tasks[j].holdsRecord
                  && (t.tasks[j].detached <==> s.tasks[j].detached || (t.tasks[j].detached && j in s.wantsTail)))
            && (forall j :: j in s.tasks && j in s.wantsTail && !t.tasks[j].settled && !t.tasks[j].detached ==> j in t.wantsTail)
            && (forall j :: j in t.wantsTail ==> j in s.wantsTail)
    decreases |s.wantsTail|
  {
    if s.tailsInFlight < c.tailCap && s.wantsTail != [] {
      var head := s.wantsTail[0];
      var t := s.(wantsTail := s.wantsTail[1..]);
      assert s.wantsTail == [head] + t.wantsTail;
      if !Claimable(c, t, head) { AdmitKeeps(c, t); }
    }
  }

  /** Settling ends one case, and hands tail slots on to queued ones only. */
  lemma {:induction false} SettledTask(c: Config, s: State, i: nat, failed: bool)
    requires Known(s) && i in s.tasks
    ensures var t := Settle(c, s, i, failed);
            && t.tasks.Keys == s.tasks.Keys && t.tasks[i].settled && !t.tasks[i].holdsRecord
            && (forall j :: j in s.tasks && j != i ==>
                  t.tasks[j].settled == s.tasks[j].settled && t.tasks[j].holdsRecord == s.tasks[j].holdsRecord)
            && (forall j :: j in s.tasks && t.tasks[j].detached ==> s.tasks[j].detached || j in s.wantsTail)
            && (forall j :: j in s.tasks && s.tasks[j].detached ==> t.tasks[j].detached)
            && (forall j :: j in s.tasks && j in s.wantsTail && !t.tasks[j].settled && !t.tasks[j].detached ==> j in t.wantsTail)
            && (forall j :: j in t.wantsTail ==> j in s.wantsTail)
  {
    hide AdmitTails, Freed, Woken;
    var a := MarkSettled(s, i, failed);
    if a.tasks[i].detached { AdmitKeeps(c, a.(tailsInFlight := a.tailsInFlight - 1)); }
  }

  lemma {:induction false} SettleTells(c: Config, s: State, es: seq<Event>, i: nat, failed: bool)
    requires Inv(c, s) && Tells(c, s, es) && i in s.tasks && !s.tasks[i].settled
    ensures Tells(c, Settle(c, s, i, failed), es + [Settles(i, failed)])
  {
    hide Settle;
    var t, after := Settle(c, s, i, failed), es + [Settles(i, failed)];
    SettledTask(c, s, i, failed);
    assert after[|es|] == Settles(i, failed);
    forall j: nat ensures Released(after, j) <==> Released(es, j) {}
    forall j: nat ensures Ended(after, j) <==> Ended(es, j) || j == i {}
    forall j | j in t.tasks ensures TaskTells(c, t, after, j) {
      assert TaskTells(c, s, es, j);
      if j in s.wantsTail { var k :| 0 <= k < |s.wantsTail| && s.wantsTail[k] == j; }
    }
    forall k | 0 <= k < |t.wantsTail| ensures Released(after, t.wantsTail[k]) {
      assert t.wantsTail[k] in s.wantsTail;
    }
  }

  lemma {:induction false} RunTells(c: Config, s: State, past: seq<Event>, es: seq<Event>)
    requires Inv(c, s) && Tells(c, s, past) && Run(c, s, es).Some?
    ensures Tells(c, Run(c, s, es).value, past + es)
    decreases |es|
  {
    hide Tells, Inv, Step;
    if es == [] {
      assert past + es == past;
    } else {
      StepInv(c, s, es[0]);
      StepTells(c, s, past, es[0]);
      RunTells(c, Step(c, s, es[0]), past + [es[0]], es[1..]);
      assert past + [es[0]] + es[1..] == past + es;
    }
  }

  lemma {:induction false} EveryRunTells(c: Config, es: seq<Event>)
    requires Run(c, Init(c), es).Some?
    ensures Tells(c, Run(c, Init(c), es).value, es) && Inv(c, Run(c, Init(c), es).value)
  {
    hide Run, Inv;
    InitInv(c);
    RunInv(c, Init(c), es);
    assert Tells(c, Init(c), []);
    RunTells(c, Init(c), [], es);
    assert [] + es == es;
  }

  /** Recording-class cases dispatched, and neither released nor ended since. */
  function Recording(c: Config, s: State, es: seq<Event>): set<nat> {
    set i | i in s.dispatched && IsRecord(c, i) && !Released(es, i) && !Ended(es, i)
  }

  /** Cases dispatched that have not ended. */
  function InFlight(s: State, es: seq<Event>): set<nat> {
    set i | i in s.dispatched && !Ended(es, i)
  }

  /** Cases in flight that have not announced `release`: each still has a worker. */
  function Unreleased(s: State, es: seq<Event>): set<nat> {
    set i | i in s.dispatched && !Ended(es, i) && !Released(es, i)
  }

  /**
    In every run: the cases recording stay within the record cap, and the permits taken are exactly theirs; the cases
    that have not released stay within the workers, and all cases in flight within workers and tail slots together.
  */
  lemma {:induction false} LimitsHold(c: Config, es: seq<Event>)
    requires Run(c, Init(c), es).Some?
    ensures var s := Run(c, Init(c), es).value;
            && s.recordsInFlight == |Recording(c, s, es)| && Within(|Recording(c, s, es)|, c.record)
            && |Unreleased(s, es)| <= c.workers
            && |InFlight(s, es)| <= c.workers + c.tailCap
  {
    hide Run, TaskTells;
    var s := Run(c, Init(c), es).value;
    EveryRunTells(c, es);
    assert Recording(c, s, es) == Holders(s) by { HoldersRecord(c, s, es); }
    BusyBound(s.workers, Attached(s));
    forall i | i in s.dispatched ensures i in s.tasks && (s.tasks[i].settled <==> Ended(es, i)) && (s.tasks[i].detached ==> Released(es, i)) {
      TaskFacts(c, s, es, i);
    }
    assert Unreleased(s, es) <= Attached(s);
    Shrinks(Unreleased(s, es), Attached(s));
    assert InFlight(s, es) == Attached(s) + Tails(s);
  }

  lemma TaskFacts(c: Config, s: State, es: seq<Event>, i: nat)
    requires Inv(c, s) && Tells(c, s, es) && i in s.dispatched
    ensures i in s.tasks && TaskTells(c, s, es, i)
    ensures (s.tasks[i].settled <==> Ended(es, i)) && (s.tasks[i].detached ==> Released(es, i))
  {}

  lemma {:induction false} HoldersRecord(c: Config, s: State, es: seq<Event>)
    requires Inv(c, s) && Tells(c, s, es)
    ensures Recording(c, s, es) == Holders(s)
  {
    forall i: nat ensures i in Holders(s) <==> i in Recording(c, s, es) {
      if i in s.tasks { assert TaskTells(c, s, es, i); }
    }
  }

  /**
    A case that has released gives its worker back at once when a tail slot is free: as long as it has not ended, it is
    detached, or every tail slot is taken by another released case.
  */
  lemma {:induction false} ReleasedHandsOff(c: Config, es: seq<Event>, i: nat)
    requires Run(c, Init(c), es).Some? && Released(es, i) && !Ended(es, i)
    ensures var s := Run(c, Init(c), es).value;
            && i in s.tasks && !s.tasks[i].holdsRecord
            && (Busy(i) in s.workers ==> s.tailsInFlight == c.tailCap && |Tails(s)| == c.tailCap && i !in Tails(s))
            && (forall j :: j in Tails(s) ==> Released(es, j) && !Ended(es, j) && Busy(j) !in s.workers)
  {
    hide Run;
    var s := Run(c, Init(c), es).value;
    EveryRunTells(c, es);
    assert TaskTells(c, s, es, i);
    if Busy(i) in s.workers {
      var k :| 0 <= k < |s.wantsTail| && s.wantsTail[k] == i;
    }
    forall j | j in Tails(s) ensures Released(es, j) && !Ended(es, j) && Busy(j) !in s.workers {
      assert TaskTells(c, s, es, j);
    }
  }

  /** A finished pool has ended every case. */
  lemma {:induction false} FinishedMeansAllEnded(c: Config, es: seq<Event>)
    requires Run(c, Init(c), es).Some? && Finished(Run(c, Init(c), es).value) && c.workers >= 1
    ensures forall i :: 0 <= i < |c.records| ==> Ended(es, i)
  {
    hide Run;
    var s := Run(c, Init(c), es).value;
    EveryRunTells(c, es);
    FinishedMeansAllRan(c, s);
    forall i | 0 <= i < |c.records| ensures Ended(es, i) { assert TaskTells(c, s, es, i); }
  }

  predicate Ends(e: Event, i: nat) {
    e.Settles? && e.i == i
  }

  /** No case ends twice. */
  lemma {:induction false} EndsOnce(c: Config, es: seq<Event>, i: nat, j: nat, k: nat)
    requires Run(c, Init(c), es).Some? && j < k < |es| && Ends(es[j], i)
    ensures !Ends(es[k], i)
  {
    hide Run, Tells;
    InitInv(c);
    RunSplit(c, Init(c), es, k);
    EveryRunTells(c, es[..k]);
    assert es[..k][j] == es[j];
    var s := Run(c, Init(c), es[..k]).value;
    EndedIsSettled(c, s, es[..k], i);
    assert Enabled(s, es[k]) by { RunStart(c, s, es[k..]); }
  }

  lemma {:induction false} EndedIsSettled(c: Config, s: State, es: seq<Event>, i: nat)
    requires Tells(c, s, es) && Ended(es, i)
    ensures i in s.tasks && s.tasks[i].settled
  {
    assert TaskTells(c, s, es, i);
  }

  lemma RunStart(c: Config, s: State, es: seq<Event>)
    requires es != [] && Run(c, s, es).Some?
    ensures Enabled(s, es[0])
  {}

  lemma {:induction false} RunSplit(c: Config, s: State, es: seq<Event>, k: nat)
    requires Run(c, s, es).Some? && k <= |es|
    ensures Run(c, s, es[..k]).Some? && Run(c, Run(c, s, es[..k]).value, es[k..]) == Run(c, s, es)
    decreases k
  {
    hide Step, Enabled, Known;
    if k == 0 {
      assert es[..k] == [] && es[k..] == es;
    } else {
      RunSplit(c, Step(c, s, es[0]), es[1..], k - 1);
      assert es[..k][1..] == es[1..][..k - 1] && es[1..][k - 1..] == es[k..];
    }
  }
}

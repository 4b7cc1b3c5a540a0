/**
  The queue for tail slots.

  Calling `release` again puts a second claim of the same case into the queue. The extra
  claims decline when their turn comes, so what counts is the queue's live part: the cases
  that still want a slot, each at its oldest claim.
*/
module PoolClaims {
  import opened Common
  import opened PoolSpec
  import opened PoolRuns

  /** The members of `live` that occur in q, oldest claim first, each once. */
  function Live(q: seq<nat>, live: set<nat>): seq<nat> {
    if q == [] then []
    else if q[0] in live then [q[0]] + Live(q[1..], live - {q[0]})
    else Live(q[1..], live)
  }

  function Claimants(s: State): seq<nat> {
    Live(s.wantsTail, Attached(s))
  }

  function Minus(q: seq<nat>, i: nat): seq<nat> {
    if q == [] then [] else (if q[0] == i then [] else [q[0]]) + Minus(q[1..], i)
  }

  lemma {:induction false} LiveAppend(q: seq<nat>, live: set<nat>, i: nat)
    ensures Live(q + [i], live) == if i in live && i !in q then Live(q, live) + [i] else Live(q, live)
    decreases |q|
  {
    if q == [] {
      assert ([] + [i])[1..] == [];
      assert Live([i], live) == if i in live then [i] + Live([], live - {i}) else Live([], live);
    } else {
      assert (q + [i])[1..] == q[1..] + [i];
      assert q == [q[0]] + q[1..];
      LiveAppend(q[1..], if q[0] in live then live - {q[0]} else live, i);
    }
  }

  lemma {:induction false} LiveMembers(q: seq<nat>, live: set<nat>)
    ensures forall x :: x in Live(q, live) <==> x in q && x in live
  {
    if q != [] {
      LiveMembers(q[1..], if q[0] in live then live - {q[0]} else live);
      assert q == [q[0]] + q[1..];
    }
  }

  lemma {:induction false} MinusAbsent(q: seq<nat>, i: nat)
    requires i !in q
    ensures Minus(q, i) == q
  {
    if q != [] { MinusAbsent(q[1..], i); }
  }

  lemma {:induction false} LiveRemove(q: seq<nat>, live: set<nat>, i: nat)
    ensures Live(q, live - {i}) == Minus(Live(q, live), i)
    decreases |q|
  {
    if q != [] {
      if q[0] in live {
        var less := live - {q[0]};
        LiveRemove(q[1..], less, i);
        if q[0] == i {
          LiveMembers(q[1..], less);
          MinusAbsent(Live(q[1..], less), i);
          assert live - {i} == less;
        } else {
          assert less - {i} == live - {i} - {q[0]};
        }
      } else {
        LiveRemove(q[1..], live, i);
        assert q[0] !in live - {i};
      }
    }
  }

  lemma {:induction false} LiveIrrelevant(q: seq<nat>, live: set<nat>, x: nat)
    requires x !in q
    ensures Live(q, live + {x}) == Live(q, live)
    decreases |q|
  {
    if q != [] {
      if q[0] in live {
        assert live + {x} - {q[0]} == (live - {q[0]}) + {x};
        LiveIrrelevant(q[1..], live - {q[0]}, x);
      } else {
        LiveIrrelevant(q[1..], live, x);
      }
    }
  }

  /** A freed slot goes to the oldest live claimant, and the others keep their order. */
  lemma {:induction false} AdmitsOldest(c: Config, s: State)
    requires Known(s) && s.tailsInFlight < c.tailCap
    ensures var t := AdmitTails(c, s);
            if Claimants(s) == [] then t == s.(wantsTail := [])
            else Claimants(s)[0] in s.tasks && t == Claim(s, Claimants(s)[0]).(wantsTail := t.wantsTail)
    ensures Claimants(s) != [] ==> Claimants(AdmitTails(c, s)) == Claimants(s)[1..]
    decreases |s.wantsTail|
  {
    if s.wantsTail != [] {
      var head := s.wantsTail[0];
      var t := s.(wantsTail := s.wantsTail[1..]);
      assert Attached(t) == Attached(s);
      if Claimable(c, t, head) {
        var u := Claim(t, head);
        assert Attached(u) == Attached(s) - {head};
      } else {
        assert head !in Attached(s);
        AdmitsOldest(c, t);
      }
    }
  }

  /** Equal but for dead and repeated claims. */
  ghost predicate SameClaims(s: State, t: State) {
    t == s.(wantsTail := t.wantsTail) && Claimants(s) == Claimants(t)
  }

  lemma {:induction false} AdmitTailsSame(c: Config, s: State, t: State)
    requires Known(s) && Known(t) && SameClaims(s, t)
    ensures SameClaims(AdmitTails(c, s), AdmitTails(c, t))
  {
    if s.tailsInFlight < c.tailCap {
      AdmitsOldest(c, s);
      AdmitsOldest(c, t);
    }
  }

  lemma {:induction false} ReleaseSame(c: Config, s: State, t: State, i: nat)
    requires Inv(c, s) && Inv(c, t) && SameClaims(s, t) && i in s.tasks
    ensures SameClaims(Release(c, s, i), Release(c, t, i))
  {
    var d, e := DropRecord(s, i), DropRecord(t, i);
    assert Attached(d) == Attached(s) && Attached(e) == Attached(t);
    if Claimable(c, d, i) {
      assert Attached(Claim(d, i)) == Attached(d) - {i} == Attached(Claim(e, i));
      LiveRemove(d.wantsTail, Attached(d), i);
      LiveRemove(e.wantsTail, Attached(e), i);
    } else if i in Attached(d) {
      LiveAppend(d.wantsTail, Attached(d), i);
      LiveAppend(e.wantsTail, Attached(e), i);
      LiveMembers(d.wantsTail, Attached(d));
      LiveMembers(e.wantsTail, Attached(e));
      var r, q := Release(c, d, i), Release(c, e, i);
      assert Attached(r) == Attached(d) == Attached(q);
    }
  }

  lemma {:induction false} SettleSame(c: Config, s: State, t: State, i: nat, failed: bool)
    requires Inv(c, s) && Inv(c, t) && SameClaims(s, t) && i in s.tasks && !s.tasks[i].settled
    ensures SameClaims(Settle(c, s, i, failed), Settle(c, t, i, failed))
  {
    SettleInv(c, s, i, failed);
    SettleInv(c, t, i, failed);
    AfterSettleBase(c, s, i, failed);
    AfterSettleBase(c, t, i, failed);
    var a, b := AfterSettle(s, i, failed), AfterSettle(t, i, failed);
    LiveRemove(s.wantsTail, Attached(s), i);
    LiveRemove(t.wantsTail, Attached(t), i);
    assert SameClaims(a, b);
    AdmitTailsSame(c, a, b);
  }

  lemma {:induction false} StepSame(c: Config, s: State, t: State, e: Event)
    requires Inv(c, s) && Inv(c, t) && SameClaims(s, t) && Enabled(s, e)
    ensures Enabled(t, e) && SameClaims(Step(c, s, e), Step(c, t, e))
  {
    match e
    case Wakes(w) =>
      var u, v := Wake(c, s, w), Wake(c, t, w);
      if s.queue != [] && NextIndex(c, s.queue, s.recordsInFlight) != -1 {
        var item := s.queue[NextIndex(c, s.queue, s.recordsInFlight)];
        assert Attached(u) == Attached(s) + {item} == Attached(v);
        LiveIrrelevant(s.wantsTail, Attached(s), item);
        LiveIrrelevant(t.wantsTail, Attached(t), item);
      } else {
        assert Attached(u) == Attached(s) == Attached(v);
      }
    case Releases(i) => ReleaseSame(c, s, t, i);
    case Settles(i, failed) => SettleSame(c, s, t, i, failed);
    case Reaps(i) =>
      assert Attached(Reap(s, i)) == Attached(s) == Attached(Reap(t, i));
  }

  lemma {:induction false} RunSame(c: Config, s: State, t: State, es: seq<Event>)
    requires Inv(c, s) && Inv(c, t) && SameClaims(s, t) && Run(c, s, es).Some?
    ensures Run(c, t, es).Some? && SameClaims(Run(c, s, es).value, Run(c, t, es).value)
    decreases |es|
  {
    if es != [] {
      StepSame(c, s, t, es[0]);
      StepInv(c, s, es[0]);
      StepInv(c, t, es[0]);
      RunSame(c, Step(c, s, es[0]), Step(c, t, es[0]), es[1..]);
    }
  }

  /** `release` is idempotent: whatever happens afterwards, calling it a second time changes no outcome. */
  lemma {:induction false} ReleaseIsIdempotent(c: Config, s: State, i: nat, es: seq<Event>)
    requires Inv(c, s) && i in s.tasks
    requires Run(c, Release(c, s, i), es).Some?
    ensures var once, twice := Run(c, Release(c, s, i), es), Run(c, Release(c, Release(c, s, i), i), es);
            twice.Some? && SameClaims(once.value, twice.value)
  {
    var r := Release(c, s, i);
    ReleaseInv(c, s, i);
    ReleaseInv(c, r, i);
    var q := Release(c, r, i);
    assert !Claimable(c, r, i) by { ReleasedNotClaimable(c, s, i); }
    assert SameClaims(r, q) by {
      if i in Attached(r) {
        LiveAppend(r.wantsTail, Attached(r), i);
        assert i in r.wantsTail by { ReleasedNotClaimable(c, s, i); }
        assert Attached(q) == Attached(r);
      }
    }
    RunSame(c, r, q, es);
  }

  lemma {:induction false} ReleasedNotClaimable(c: Config, s: State, i: nat)
    requires Inv(c, s) && i in s.tasks
    ensures var r := Release(c, s, i);
            !r.tasks[i].holdsRecord && !Claimable(c, r, i) && (i in Attached(r) ==> i in r.wantsTail)
  {
    var d := DropRecord(s, i);
    assert !d.tasks[i].holdsRecord;
    if !Claimable(c, d, i) && !d.tasks[i].detached && !d.tasks[i].settled {
      assert (d.wantsTail + [i])[|d.wantsTail|] == i;
    }
  }
}

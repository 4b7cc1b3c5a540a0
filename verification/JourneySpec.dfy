/**
  What the recorded envelopes of one run look like at every moment, and what follows once the
  run is over: how long it can be, what each replayed step cites, and where it healed.
*/
module JourneySpec {
  import opened Common
  import opened Trajectory

  datatype EndReason = Timeout | Error | Stuck | MaxSteps | Finished(action: ActionType)

  /** One heal: from the step that failed to the step where replay resumed, if it did. */
  datatype HealSegment = HealSegment(from: nat, to: Option<nat>)

  /** A baseline step that this run has come to: executed, or recorded as drifted. */
  predicate IsVisit(e: Envelope) {
    e.mode == Act && !IsTerminal(e)
  }

  /** Nothing follows this envelope. */
  predicate IsLast(e: Envelope) {
    IsTerminal(e) || e.mode == Errored
  }

  ghost predicate VisitsTrack(es: seq<Envelope>, track: seq<Envelope>, k: nat)
    requires k <= |track|
  {
    forall i :: 0 <= i < |es| && IsVisit(es[i]) ==> es[i].actedFrom.Some? && Among(track, k, es[i].actedFrom.value)
  }

  ghost predicate Among(track: seq<Envelope>, k: nat, step: nat)
    requires k <= |track|
  {
    exists j :: 0 <= j < k && track[j].step == step
  }

  /** The baseline steps visited, in the order of the run, strictly increase. */
  ghost predicate VisitsIncrease(es: seq<Envelope>) {
    forall i, j :: 0 <= i < j < |es| && IsVisit(es[i]) && IsVisit(es[j]) && es[i].actedFrom.Some? && es[j].actedFrom.Some?
      ==> es[i].actedFrom.value < es[j].actedFrom.value
  }

  ghost predicate WithinBudget(es: seq<Envelope>, maxSteps: nat) {
    forall i :: 0 <= i < |es| && es[i].mode != Act ==> es[i].step <= maxSteps
  }

  ghost predicate OnlyLastEnds(es: seq<Envelope>) {
    forall i :: 0 <= i < |es| - 1 ==> !IsLast(es[i])
  }

  /** The actor is cut off at the fourth identical failure in a row. */
  ghost predicate StuckEnds(es: seq<Envelope>) {
    forall i :: 0 <= i < |es| - 1 && es[i].mode == Agent ==> !IsStuck(es[..i + 1])
  }

  /** The run step that executed baseline step b, among these envelopes. */
  predicate Replayed(es: seq<Envelope>, b: nat, step: nat) {
    1 <= step <= |es| && IsVisit(es[step - 1]) && es[step - 1].dispatched && es[step - 1].actedFrom == Some(b)
  }

  ghost predicate TracksReplays(es: seq<Envelope>, actedFrom: map<nat, nat>) {
    && (forall b :: b in actedFrom ==> Replayed(es, b, actedFrom[b]))
    && (forall b, step :: Replayed(es, b, step) ==> b in actedFrom)
  }

  /** Each binding of a replayed step cites the earlier run step that executed its producer, or keeps its number if none did. */
  ghost predicate CitesReplays(es: seq<Envelope>, i: nat, recorded: seq<Binding>)
    requires i < |es|
  {
    && |es[i].bindings| == |recorded|
    && forall k :: 0 <= k < |recorded| ==>
         && es[i].bindings[k] == recorded[k].(fromStep := es[i].bindings[k].fromStep)
         && (Replayed(es[..i], recorded[k].fromStep, es[i].bindings[k].fromStep)
             || (es[i].bindings[k] == recorded[k] && forall step :: !Replayed(es[..i], recorded[k].fromStep, step)))
  }

  ghost predicate BindingsCited(es: seq<Envelope>, track: seq<Envelope>) {
    forall i, j :: 0 <= i < |es| && 0 <= j < |track| && IsVisit(es[i]) && es[i].dispatched && es[i].actedFrom == Some(track[j].step)
      ==> CitesReplays(es, i, track[j].bindings)
  }

  /** A run in progress that has come to the first k steps of the track. */
  ghost predicate Progress(es: seq<Envelope>, track: seq<Envelope>, maxSteps: nat, k: nat, actedFrom: map<nat, nat>) {
    && k <= |track| && Increasing(track)
    && Numbered(es) && WithinBudget(es, maxSteps)
    && VisitsTrack(es, track, k) && VisitsIncrease(es)
    && BindingsCited(es, track) && StuckEnds(es)
    && TracksReplays(es, actedFrom)
  }

  ghost predicate Going(es: seq<Envelope>) {
    (forall i :: 0 <= i < |es| ==> !IsLast(es[i])) && (forall i :: 0 <= i < |es| && es[i].mode == Agent ==> !IsStuck(es[..i + 1]))
  }

  lemma {:induction false} Begins(track: seq<Envelope>, maxSteps: nat)
    requires Increasing(track)
    ensures Progress([], track, maxSteps, 0, map[]) && Going([]) && OnlyLastEnds([])
  {}

  // ---- appending one envelope ----

  lemma {:induction false} ReplayedMore(es: seq<Envelope>, e: Envelope, b: nat, step: nat)
    ensures Replayed(es + [e], b, step) <==>
            Replayed(es, b, step) || (step == |es| + 1 && IsVisit(e) && e.dispatched && e.actedFrom == Some(b))
  {
    if 1 <= step <= |es| { assert (es + [e])[step - 1] == es[step - 1]; }
  }

  lemma {:induction false} CitesMore(es: seq<Envelope>, e: Envelope, i: nat, recorded: seq<Binding>)
    requires i < |es|
    ensures CitesReplays(es + [e], i, recorded) <==> CitesReplays(es, i, recorded)
  {
    assert (es + [e])[..i] == es[..i] && (es + [e])[i] == es[i];
  }

  lemma {:induction false} StuckMore(es: seq<Envelope>, e: Envelope)
    requires Going(es) && StuckEnds(es)
    ensures StuckEnds(es + [e])
  {
    forall i | 0 <= i < |es| && (es + [e])[i].mode == Agent ensures !IsStuck((es + [e])[..i + 1]) {
      assert (es + [e])[..i + 1] == es[..i + 1];
    }
  }

  /** An envelope that visits no track step: the actor's, a final one, or an actor failure. */
  lemma {:induction false} AppendOther(es: seq<Envelope>, e: Envelope, track: seq<Envelope>, maxSteps: nat, k: nat, actedFrom: map<nat, nat>)
    requires Progress(es, track, maxSteps, k, actedFrom) && Going(es)
    requires e.step == |es| + 1 && !IsVisit(e) && (e.mode != Act ==> e.step <= maxSteps)
    ensures Progress(es + [e], track, maxSteps, k, actedFrom) && OnlyLastEnds(es + [e])
    ensures Going(es + [e]) <==> !IsLast(e) && (e.mode == Agent ==> !IsStuck(es + [e]))
  {
    hide CitesReplays, IsStuck, Among, IsVisit, Replayed;
    StuckMore(es, e);
    forall b: nat, step: nat ensures Replayed(es + [e], b, step) <==> Replayed(es, b, step) { ReplayedMore(es, e, b, step); }
    forall i, recorded | 0 <= i < |es| ensures CitesReplays(es + [e], i, recorded) <==> CitesReplays(es, i, recorded) {
      CitesMore(es, e, i, recorded);
    }
    GoingMore(es, e);
  }

  lemma {:induction false} GoingMore(es: seq<Envelope>, e: Envelope)
    requires Going(es)
    ensures Going(es + [e]) <==> !IsLast(e) && (e.mode == Agent ==> !IsStuck(es + [e]))
  {
    hide IsStuck, IsLast;
    var more := es + [e];
    forall i | 0 <= i < |es| ensures more[..i + 1] == es[..i + 1] && more[i] == es[i] {}
    assert more[..|es| + 1] == more && more[|es|] == e;
    if Going(more) {
      assert !IsLast(more[|es|]);
    }
  }

  /** The next track step, executed with its bindings translated, or recorded as drifted and left alone. */
  lemma {:induction false} AppendVisit(es: seq<Envelope>, e: Envelope, track: seq<Envelope>, maxSteps: nat, k: nat, actedFrom: map<nat, nat>)
    requires Progress(es, track, maxSteps, k, actedFrom) && Going(es) && k < |track|
    requires e.step == |es| + 1 && IsVisit(e) && e.actedFrom == Some(track[k].step)
    requires e.dispatched ==> e.bindings == Remap(track[k].bindings, actedFrom)
    ensures Progress(es + [e], track, maxSteps, k + 1, if e.dispatched then actedFrom[track[k].step := e.step] else actedFrom)
    ensures Going(es + [e])
  {
    var more := es + [e];
    StuckMore(es, e);
    VisitsMore(es, e, track, k);
    NewCites(es, e, track, k, actedFrom);
    TracksMore(es, e, track, k, actedFrom);
    hide CitesReplays, IsStuck, Replayed, VisitsTrack, VisitsIncrease, TracksReplays;
    forall i, recorded | 0 <= i < |es| ensures CitesReplays(more, i, recorded) <==> CitesReplays(es, i, recorded) {
      CitesMore(es, e, i, recorded);
    }
    GoingMore(es, e);
  }

  lemma {:induction false} VisitsMore(es: seq<Envelope>, e: Envelope, track: seq<Envelope>, k: nat)
    requires k < |track| && Increasing(track) && VisitsTrack(es, track, k) && VisitsIncrease(es)
    requires e.actedFrom == Some(track[k].step)
    ensures VisitsTrack(es + [e], track, k + 1) && VisitsIncrease(es + [e])
  {
    forall i | 0 <= i < |es| && IsVisit(es[i])
      ensures Among(track, k + 1, es[i].actedFrom.value) && es[i].actedFrom.value < track[k].step
    {
      var j :| 0 <= j < k && track[j].step == es[i].actedFrom.value;
    }
    assert Among(track, k + 1, track[k].step);
  }

  lemma {:induction false} NewCites(es: seq<Envelope>, e: Envelope, track: seq<Envelope>, k: nat, actedFrom: map<nat, nat>)
    requires k < |track| && Increasing(track) && TracksReplays(es, actedFrom)
    requires e.dispatched ==> e.bindings == Remap(track[k].bindings, actedFrom)
    ensures e.dispatched ==> CitesReplays(es + [e], |es|, track[k].bindings)
    ensures forall j :: 0 <= j < |track| && track[j].step == track[k].step ==> j == k
  {
    assert (es + [e])[..|es|] == es;
  }

  lemma {:induction false} TracksMore(es: seq<Envelope>, e: Envelope, track: seq<Envelope>, k: nat, actedFrom: map<nat, nat>)
    requires TracksReplays(es, actedFrom) && k < |track|
    requires e.step == |es| + 1 && IsVisit(e) && e.actedFrom == Some(track[k].step)
    ensures TracksReplays(es + [e], if e.dispatched then actedFrom[track[k].step := e.step] else actedFrom)
  {
    hide IsVisit;
    forall b: nat, step: nat ensures Replayed(es + [e], b, step) <==>
      Replayed(es, b, step) || (step == |es| + 1 && IsVisit(e) && e.dispatched && e.actedFrom == Some(b))
    {
      ReplayedMore(es, e, b, step);
    }
  }

  /** Knowing more of the track visited than was needed is still progress. */
  lemma {:induction false} SkipAhead(es: seq<Envelope>, track: seq<Envelope>, maxSteps: nat, k: nat, m: nat, actedFrom: map<nat, nat>)
    requires Progress(es, track, maxSteps, k, actedFrom) && k <= m <= |track|
    ensures Progress(es, track, maxSteps, m, actedFrom)
  {
    forall i | 0 <= i < |es| && IsVisit(es[i]) ensures Among(track, m, es[i].actedFrom.value) {
      var j :| 0 <= j < k && track[j].step == es[i].actedFrom.value;
    }
  }

  // ---- a run that is over ----

  lemma {:induction false} VisitRank(es: seq<Envelope>, track: seq<Envelope>, a: nat, p: nat) returns (j: nat)
    requires a <= p < |es| && Increasing(track) && VisitsTrack(es, track, |track|) && VisitsIncrease(es)
    requires forall q :: a <= q <= p ==> IsVisit(es[q])
    ensures p - a <= j < |track| && es[p].actedFrom == Some(track[j].step)
    decreases p
  {
    j :| 0 <= j < |track| && track[j].step == es[p].actedFrom.value;
    if p > a {
      var i := VisitRank(es, track, a, p - 1);
      assert es[p - 1].actedFrom.value < es[p].actedFrom.value;
      if j <= i {
        assert false;
      }
    }
  }

  /** A run never records more than its budget, the whole track, and one final step. */
  lemma {:induction false} RunIsBounded(es: seq<Envelope>, track: seq<Envelope>, maxSteps: nat, k: nat, actedFrom: map<nat, nat>)
    requires Progress(es, track, maxSteps, k, actedFrom) && OnlyLastEnds(es)
    ensures |es| <= maxSteps + |track| + 1
  {
    if |es| > maxSteps + |track| + 1 {
      SkipAhead(es, track, maxSteps, k, |track|, actedFrom);
      var p := |es| - 2;
      forall q | maxSteps <= q <= p ensures IsVisit(es[q]) {
        assert es[q].step == q + 1;
      }
      var j := VisitRank(es, track, maxSteps, p);
    }
  }

  /** No baseline step is executed or judged twice. */
  lemma VisitedOnce(es: seq<Envelope>, track: seq<Envelope>, maxSteps: nat, k: nat, actedFrom: map<nat, nat>, i: nat, j: nat)
    requires Progress(es, track, maxSteps, k, actedFrom) && i < |es| && j < |es| && IsVisit(es[i]) && IsVisit(es[j])
    requires es[i].actedFrom == es[j].actedFrom
    ensures i == j
  {}

  // ---- one walk along the track ----

  predicate ComesTo(e: Envelope, base: Envelope) {
    IsVisit(e) && e.actedFrom == Some(base.step)
  }

  /** After `before`, the run comes to the track steps from `from` up to n, one after the other, and then to none. */
  ghost predicate Walks(before: seq<Envelope>, es: seq<Envelope>, track: seq<Envelope>, from: nat, n: nat) {
    && before <= es && from <= n <= |track| && |before| + n - from <= |es|
    && (forall m :: from <= m < n ==> ComesTo(es[|before| + m - from], track[m]))
    && (forall i :: |before| + n - from <= i < |es| ==> !IsVisit(es[i]))
  }

  lemma {:induction false} WalksOn(before: seq<Envelope>, es: seq<Envelope>, e: Envelope, track: seq<Envelope>, from: nat, n: nat)
    requires Walks(before, es, track, from, n) && |es| == |before| + n - from && n < |track|
    requires ComesTo(e, track[n])
    ensures Walks(before, es + [e], track, from, n + 1)
  {
    hide ComesTo;
    var more := es + [e];
    forall m | from <= m < n + 1 ensures ComesTo(more[|before| + m - from], track[m]) {
      if m < n { assert more[|before| + m - from] == es[|before| + m - from]; }
    }
  }

  lemma {:induction false} WalkEnds(before: seq<Envelope>, es: seq<Envelope>, more: seq<Envelope>, track: seq<Envelope>, from: nat, n: nat)
    requires Walks(before, es, track, from, n) && es <= more && forall i :: |es| <= i < |more| ==> !IsVisit(more[i])
    ensures Walks(before, more, track, from, n)
  {
    hide ComesTo, IsVisit;
    forall m | from <= m < n ensures ComesTo(more[|before| + m - from], track[m]) {
      assert more[|before| + m - from] == es[|before| + m - from];
    }
    forall i | |before| + n - from <= i < |more| ensures !IsVisit(more[i]) { if i < |es| { assert more[i] == es[i]; } }
  }

  /** A run that walks the track once from its beginning, every step but perhaps the last of the walk executed. */
  ghost predicate Unbroken(es: seq<Envelope>, track: seq<Envelope>) {
    exists n: nat :: WalkedOnce(es, track, n)
  }

  ghost predicate WalkedOnce(es: seq<Envelope>, track: seq<Envelope>, n: nat) {
    Walks([], es, track, 0, n) && forall m :: 0 <= m < n - 1 ==> es[m].dispatched
  }

  lemma {:induction false} StaysUnbroken(es: seq<Envelope>, more: seq<Envelope>, track: seq<Envelope>)
    requires Unbroken(es, track) && es <= more && forall i :: |es| <= i < |more| ==> !IsVisit(more[i])
    ensures Unbroken(more, track)
  {
    var n: nat :| WalkedOnce(es, track, n);
    WalkEnds([], es, more, track, 0, n);
    assert WalkedOnce(more, track, n);
  }

  lemma {:induction false} NothingWalked(es: seq<Envelope>, track: seq<Envelope>)
    requires forall i :: 0 <= i < |es| ==> !IsVisit(es[i])
    ensures Unbroken(es, track)
  {
    assert WalkedOnce(es, track, 0);
  }

  /** Every binding whose producer stands earlier on the track cites the run step that executed it. */
  ghost predicate ProducersCited(es: seq<Envelope>, track: seq<Envelope>) {
    forall i, j, k ::
      (0 <= i < |es| && 0 <= j < |track| && IsVisit(es[i]) && es[i].dispatched && es[i].actedFrom == Some(track[j].step)
       && 0 <= k < |track[j].bindings| && Among(track, j, track[j].bindings[k].fromStep))
      ==> |es[i].bindings| == |track[j].bindings| && Replayed(es[..i], track[j].bindings[k].fromStep, es[i].bindings[k].fromStep)
  }

  /** In an unbroken run nothing a binding needs was skipped. */
  lemma {:induction false} UnbrokenCites(es: seq<Envelope>, track: seq<Envelope>)
    requires Unbroken(es, track) && Increasing(track) && BindingsCited(es, track)
    ensures ProducersCited(es, track)
  {
    hide BindingsCited;
    var n: nat :| WalkedOnce(es, track, n);
    forall i, j, k | 0 <= i < |es| && 0 <= j < |track| && IsVisit(es[i]) && es[i].dispatched && es[i].actedFrom == Some(track[j].step)
                     && 0 <= k < |track[j].bindings| && Among(track, j, track[j].bindings[k].fromStep)
      ensures |es[i].bindings| == |track[j].bindings| && Replayed(es[..i], track[j].bindings[k].fromStep, es[i].bindings[k].fromStep)
    {
      var p :| 0 <= p < j && track[p].step == track[j].bindings[k].fromStep;
      assert i < n && ComesTo(es[i], track[i]) && ComesTo(es[p], track[p]);
      assert i == j;
      assert IsVisit(es[p]) && es[p].actedFrom == Some(track[p].step) && es[..i][p] == es[p];
      assert Replayed(es[..i], track[p].step, p + 1);
      Cited(es, track, i, j);
    }
  }

  lemma Cited(es: seq<Envelope>, track: seq<Envelope>, i: nat, j: nat)
    requires BindingsCited(es, track) && i < |es| && j < |track| && IsVisit(es[i]) && es[i].dispatched && es[i].actedFrom == Some(track[j].step)
    ensures CitesReplays(es, i, track[j].bindings)
  {}

  // ---- heal segments ----

  /** Heals move strictly forward: each resumes beyond where it failed, the next fails no earlier, and only the last may never resume. */
  ghost predicate HealsForward(segments: seq<HealSegment>) {
    && (forall i :: 0 <= i < |segments| && segments[i].to.Some? ==> segments[i].from < segments[i].to.value)
    && (forall i :: 0 <= i < |segments| - 1 ==> segments[i].to.Some? && segments[i].to.value <= segments[i + 1].from)
  }

  ghost predicate HealsBefore(segments: seq<HealSegment>, step: nat) {
    segments != [] ==> segments[|segments| - 1].to.Some? && segments[|segments| - 1].to.value <= step
  }

  lemma {:induction false} HealPointsIncrease(segments: seq<HealSegment>, i: nat, j: nat)
    requires HealsForward(segments) && i < j < |segments|
    ensures segments[i].from < segments[j].from
    decreases j
  {
    if i < j - 1 { HealPointsIncrease(segments, i, j - 1); }
    assert segments[j - 1].to.Some?;
  }

  // ---- the anchor ----

  /** Exactly one candidate matches the fresh state. */
  ghost predicate UniqueMatch(matches: seq<bool>, k: nat) {
    k < |matches| && matches[k] && forall j :: 0 <= j < |matches| && matches[j] ==> j == k
  }
}

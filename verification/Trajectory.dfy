/** What a run records: one envelope for every step, and the part of it a later run can replay. */
module Trajectory {
  import opened Common

  datatype ActionType = Done | GiveUp | Click | Tap | Type | OtherAction(name: string)

  /** Where a substituted value comes from, and the sites it goes into. */
  datatype Binding = Binding(name: string, fromStep: nat, from: string, into: seq<string>)

  /** Replayed from a baseline, decided by the actor, or the actor's own failure. */
  datatype Mode = Act | Agent | Errored

  datatype Envelope = Envelope(
    step: nat, mode: Mode, actedFrom: Option<nat>, action: ActionType, dispatched: bool, resolved: bool, ok: bool,
    locus: string, error: string, snapshot: Option<string>, status: Option<string>, bindings: seq<Binding>)

  predicate IsTerminal(e: Envelope) {
    e.action.Done? || e.action.GiveUp?
  }

  predicate IsActable(e: Envelope) {
    !IsTerminal(e) && e.resolved && e.ok
  }

  /** The steps of a trajectory that can be acted again. */
  function ActionTrack(envelopes: seq<Envelope>): seq<Envelope> {
    if envelopes == [] then []
    else
      var front, last := ActionTrack(envelopes[..|envelopes| - 1]), envelopes[|envelopes| - 1];
      if IsActable(last) then front + [last] else front
  }

  predicate Numbered(envelopes: seq<Envelope>) {
    forall i :: 0 <= i < |envelopes| ==> envelopes[i].step == i + 1
  }

  predicate Increasing(track: seq<Envelope>) {
    forall i, j :: 0 <= i < j < |track| ==> track[i].step < track[j].step
  }

  /** The track of a trajectory numbered 1..n visits its steps in strictly increasing order. */
  lemma {:induction false} TrackIncreases(envelopes: seq<Envelope>)
    requires Numbered(envelopes)
    ensures Increasing(ActionTrack(envelopes))
    ensures forall i :: 0 <= i < |ActionTrack(envelopes)| ==>
              var e := ActionTrack(envelopes)[i]; 1 <= e.step <= |envelopes| && envelopes[e.step - 1] == e && IsActable(e)
  {
    if envelopes != [] { TrackIncreases(envelopes[..|envelopes| - 1]); }
  }

  const STUCK_FAIL_LIMIT := 4

  predicate SameFailure(a: Envelope, b: Envelope) {
    a.action == b.action && a.locus == b.locus && a.error == b.error
  }

  /** The last four envelopes all failed on one action with one error. */
  predicate IsStuck(envelopes: seq<Envelope>) {
    |envelopes| >= STUCK_FAIL_LIMIT &&
    var first := |envelopes| - STUCK_FAIL_LIMIT;
    forall k :: first <= k < |envelopes| ==> !envelopes[k].ok && SameFailure(envelopes[first], envelopes[k])
  }

  // ---- bindings, translated into this run's numbering ----

  /** A binding whose producer has been replayed cites the run step that replayed it. */
  function Remap(bindings: seq<Binding>, actedFrom: map<nat, nat>): (r: seq<Binding>)
    ensures |r| == |bindings|
  {
    seq(|bindings|, k requires 0 <= k < |bindings| =>
      if bindings[k].fromStep in actedFrom then bindings[k].(fromStep := actedFrom[bindings[k].fromStep]) else bindings[k])
  }
}

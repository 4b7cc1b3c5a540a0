/**
  One journey of a case: replaying a baseline, handing the wheel to the actor when replay
  fails, and resuming where the fresh state matches again; with the accessibility scan that
  runs behind the actor's turn and must never meet another page operation.

  What the browser, the model and the clock answer is arbitrary here: each of their answers is
  an unconstrained choice, and so is the moment the hard timeout aborts the run.
*/
module Journey {
  import opened Common
  import opened Trajectory
  import opened JourneySpec
  import Status

  datatype Failure = DriverFailure | StillPending | CouldNotOpen

  /** One line of the trajectory file: an envelope and the scan that settled before it was written. */
  datatype Line = Line(envelope: Envelope, axe: Option<nat>)

  datatype Snapshot = Snapshot(text: string, url: string)

  datatype Exec = Exec(ok: bool, error: string, resolved: bool, locus: string, status: Option<string>)

  datatype Turn = Turn(action: ActionType, locus: string, bindings: seq<Binding>)

  /** What was done to the page, and what came of it. */
  datatype Performed = Performed(action: ActionType, bindings: seq<Binding>, exec: Exec)

  /** The page. No operation on it may run while it is being scanned. It remembers what it showed and what was done to it. */
  class Driver {
    const capturesAxe: bool
    var scanning: bool
    ghost var seen: seq<Snapshot>
    ghost var performed: seq<Performed>

    constructor (capturesAxe: bool)
      ensures this.capturesAxe == capturesAxe && !scanning && seen == [] && performed == []
    {
      this.capturesAxe := capturesAxe;
      scanning, seen, performed := false, [], [];
    }

    method Start() returns (ok: bool)
      requires !scanning
    {
      ok := *;
    }

    method CaptureSnapshot() returns (r: Result<Snapshot, Failure>)
      requires !scanning
      modifies this`seen
      ensures r.Err? ==> r.error == DriverFailure && seen == old(seen)
      ensures r.Ok? ==> seen == old(seen) + [r.value]
    {
      if * { return Err(DriverFailure); }
      var text: string, url: string := *, *;
      r := Ok(Snapshot(text, url));
      seen := seen + [r.value];
    }

    method EffectToken() returns (r: Result<string, Failure>)
      requires !scanning
      ensures r.Err? ==> r.error == DriverFailure
    {
      if * { return Err(DriverFailure); }
      var token: string := *;
      r := Ok(token);
    }

    /** Perform an action, the actor's or a recorded one. */
    method Execute(action: ActionType, bindings: seq<Binding>) returns (r: Result<Exec, Failure>)
      requires !scanning
      modifies this`performed
      ensures r.Err? ==> r.error == DriverFailure && performed == old(performed)
      ensures r.Ok? ==> performed == old(performed) + [Performed(action, bindings, r.value)]
    {
      if * { return Err(DriverFailure); }
      var exec: Exec := *;
      r := Ok(exec);
      performed := performed + [Performed(action, bindings, exec)];
    }

    method StartScan()
      requires capturesAxe && !scanning
      modifies this`scanning
      ensures scanning
    {
      scanning := true;
    }

    /** Wait for the scan to settle; a failed scan reports nothing. */
    method JoinScan() returns (axe: Option<nat>)
      requires scanning
      modifies this`scanning
      ensures !scanning
    {
      scanning := false;
      axe := *;
    }
  }

  function EnvelopesOf(lines: seq<Line>): (r: seq<Envelope>)
    ensures |r| == |lines|
  {
    seq(|lines|, i requires 0 <= i < |lines| => lines[i].envelope)
  }

  lemma EnvelopesMore(lines: seq<Line>, line: Line)
    ensures EnvelopesOf(lines + [line]) == EnvelopesOf(lines) + [line.envelope]
  {}

  class Writer {
    var lines: seq<Line>

    constructor ()
      ensures lines == []
    {
      lines := [];
    }

    method AppendEnvelope(e: Envelope, axe: Option<nat>)
      modifies this
      ensures lines == old(lines) + [Line(e, axe)]
      ensures EnvelopesOf(lines) == EnvelopesOf(old(lines)) + [e]
    {
      EnvelopesMore(lines, Line(e, axe));
      lines := lines + [Line(e, axe)];
    }
  }

  /** Holds the last executed envelope back until its scan has settled. */
  class DeferredAxeCapture {
    const driver: Driver
    const writer: Writer
    var pending: Option<Envelope>
    var started: bool

    /** The page is being scanned exactly while a started scan is pending. */
    ghost predicate Valid()
      reads this, driver
    {
      && (driver.scanning <==> pending.Some? && started)
      && (pending.Some? ==> driver.capturesAxe)
    }

    /** Every envelope handed over, written or not, in order. */
    ghost function Taken(): seq<Envelope>
      reads this, writer
    {
      EnvelopesOf(writer.lines) + if pending.Some? then [pending.value] else []
    }

    constructor (driver: Driver, writer: Writer)
      requires !driver.scanning
      ensures this.driver == driver && this.writer == writer && pending.None? && Valid()
      ensures Taken() == EnvelopesOf(writer.lines)
    {
      this.driver := driver;
      this.writer := writer;
      pending := None;
      started := false;
    }

    /** Latch an executed envelope; refused when the previous one was never joined. */
    method Defer(e: Envelope) returns (refused: bool)
      requires Valid()
      modifies this, writer
      ensures Valid()
      ensures refused <==> driver.capturesAxe && old(pending).Some?
      ensures refused ==> Taken() == old(Taken())
      ensures !refused ==> Taken() == old(Taken()) + [e]
      ensures !refused ==> pending == if driver.capturesAxe then Some(e) else None
      ensures !refused ==> !driver.scanning
    {
      if !driver.capturesAxe {
        writer.AppendEnvelope(e, None);
        return false;
      }
      if pending.Some? { return true; }
      pending := Some(e);
      started := false;
      refused := false;
    }

    /** Start the pending scan, once. */
    method AfterSnapshot()
      requires Valid()
      modifies this`started, driver`scanning
      ensures Valid() && pending == old(pending) && Taken() == old(Taken())
      ensures driver.scanning <==> pending.Some?
    {
      if pending.None? || started { return; }
      started := true;
      driver.StartScan();
    }

    /** Join the pending scan and write its envelope; afterwards the page is free. */
    method Barrier()
      requires Valid()
      modifies this, driver`scanning, writer
      ensures Valid() && pending.None? && !driver.scanning
      ensures Taken() == old(Taken()) == EnvelopesOf(writer.lines)
    {
      if pending.None? { return; }
      AfterSnapshot();
      var axe := driver.JoinScan();
      writer.AppendEnvelope(pending.value, axe);
      pending := None;
    }

    method Flush()
      requires Valid()
      modifies this, driver`scanning, writer
      ensures Valid() && pending.None? && !driver.scanning
      ensures Taken() == old(Taken()) == EnvelopesOf(writer.lines)
    {
      Barrier();
    }

    /** Scan the final page in place. */
    method Terminal() returns (axe: Option<nat>)
      requires Valid() && !driver.scanning && pending.None?
      modifies driver`scanning
      ensures Valid() && !driver.scanning
    {
      if !driver.capturesAxe { return None; }
      driver.StartScan();
      axe := driver.JoinScan();
    }
  }

  // ---- what the record says of the page ----

  /** The envelopes of the steps that were executed, in order. */
  function Executed(es: seq<Envelope>): seq<Envelope> {
    if es == [] then []
    else Executed(es[..|es| - 1]) + if es[|es| - 1].dispatched then [es[|es| - 1]] else []
  }

  predicate Mirrors(e: Envelope, p: Performed) {
    && e.action == p.action && e.bindings == p.bindings && e.ok == p.exec.ok && e.error == p.exec.error
    && e.resolved == p.exec.resolved && e.locus == p.exec.locus && e.status == p.exec.status
  }

  /** Every executed step is recorded as it was performed; at most the last performed action is not recorded. */
  ghost predicate Tells(es: seq<Envelope>, performed: seq<Performed>) {
    && |Executed(es)| <= |performed| <= |Executed(es)| + 1
    && forall i :: 0 <= i < |Executed(es)| ==> Mirrors(Executed(es)[i], performed[i])
  }

  lemma {:induction false} TellsMore(es: seq<Envelope>, e: Envelope, performed: seq<Performed>)
    requires Tells(es, performed)
    requires e.dispatched ==> |performed| == |Executed(es)| + 1 && Mirrors(e, performed[|performed| - 1])
    ensures Tells(es + [e], performed) && |Executed(es + [e])| == |Executed(es)| + if e.dispatched then 1 else 0
  {
    hide Mirrors;
    assert (es + [e])[..|es|] == es;
  }

  lemma {:induction false} TellsLater(es: seq<Envelope>, performed: seq<Performed>, p: Performed)
    requires Tells(es, performed) && |performed| == |Executed(es)|
    ensures Tells(es, performed + [p])
  {
    hide Mirrors;
    assert forall i :: 0 <= i < |performed| ==> (performed + [p])[i] == performed[i];
  }

  // ---- the ending of the baseline ----

  /** The last recorded ending of the baseline. */
  predicate LastEnding(baseline: seq<Envelope>, i: nat)
    requires i < |baseline|
  {
    IsTerminal(baseline[i]) && forall j :: i < j < |baseline| ==> !IsTerminal(baseline[j])
  }

  /** A replay's final envelope repeats the baseline's ending; a baseline without one ends in a plain done. */
  ghost predicate EndsAsRecorded(baseline: seq<Envelope>, e: Envelope) {
    && (forall i :: 0 <= i < |baseline| && LastEnding(baseline, i) ==> e.action == baseline[i].action && e.actedFrom == Some(baseline[i].step))
    && ((forall i :: 0 <= i < |baseline| ==> !IsTerminal(baseline[i])) ==> e.action == Done && e.actedFrom.None?)
  }

  /** The reason a run ended for is what its envelopes show. */
  ghost predicate Shows(es: seq<Envelope>, reason: EndReason, baseline: seq<Envelope>, maxSteps: nat) {
    match reason
    case Finished(action) =>
      es != [] && var last := es[|es| - 1]; last.action == action && IsTerminal(last) && (last.mode == Act ==> EndsAsRecorded(baseline, last))
    case Stuck => IsStuck(es)
    case MaxSteps => |es| >= maxSteps
    case _ => true
  }

  /** Replay never goes on past a step that failed: between it and the next replayed step, or the ending, the actor moved. */
  ghost predicate ActorBetween(es: seq<Envelope>, track: seq<Envelope>, groups: seq<Status.Group>) {
    forall i, k :: 0 <= i < |es| && k == i + 1 && k < |es| && IsVisit(es[i]) && es[k].mode == Act ==> SucceedsOn(es[i], track, groups)
  }

  ghost predicate SucceedsOn(e: Envelope, track: seq<Envelope>, groups: seq<Status.Group>) {
    exists j :: 0 <= j < |track| && ComesTo(e, track[j]) && Succeeds(e, track[j], groups)
  }

  // ---- oracles ----

  /** Which of the window's steps the fresh snapshot does not drift from. */
  function Matches(window: seq<nat>, snap: Snapshot, track: seq<Envelope>, drift: (Snapshot, Envelope) -> bool): (r: seq<bool>)
    requires forall k :: 0 <= k < |window| ==> window[k] < |track|
    ensures |r| == |window|
  {
    seq(|window|, i requires 0 <= i < |window| => !drift(snap, track[window[i]]))
  }

  /** The only matching candidate, if there is exactly one; two alike anchor nothing. */
  method FindAnchor(window: seq<nat>, snap: Snapshot, track: seq<Envelope>, drift: (Snapshot, Envelope) -> bool) returns (match_: Option<nat>)
    requires forall k :: 0 <= k < |window| ==> window[k] < |track|
    ensures match_.Some? <==> exists k :: 0 <= k < |window| && UniqueMatch(Matches(window, snap, track, drift), k)
    ensures match_.Some? ==> exists k :: 0 <= k < |window| && UniqueMatch(Matches(window, snap, track, drift), k) && window[k] == match_.value
  {
    ghost var matches := Matches(window, snap, track, drift);
    match_ := None;
    ghost var at := 0;
    var k := 0;
    while k < |window|
      invariant 0 <= k <= |window|
      invariant match_.None? ==> forall j :: 0 <= j < k ==> !matches[j]
      invariant match_.Some? ==> 0 <= at < k && match_.value == window[at] && matches[at] && forall j :: 0 <= j < k && matches[j] ==> j == at
    {
      if !drift(snap, track[window[k]]) {
        if match_.Some? {
          assert matches[at] && matches[k];
          return None;
        }
        match_ := Some(window[k]);
        at := k;
      }
      k := k + 1;
    }
    assert match_.Some? ==> UniqueMatch(matches, at);
  }

  /** Two known statuses that no declared group makes the same. */
  ghost predicate StatusDrift(recorded: Option<string>, now: Option<string>, groups: seq<Status.Group>) {
    recorded.Some? && now.Some? && !Status.Equivalent(groups, recorded.value, now.value)
  }

  /** The step was executed as recorded, succeeded, and answered the recorded status. */
  ghost predicate Succeeds(e: Envelope, base: Envelope, groups: seq<Status.Group>) {
    e.dispatched && e.ok && e.action == base.action && !StatusDrift(base.status, e.status, groups)
  }

  /** The track steps from `from` up to n all succeeded, in the envelopes after `before`. */
  ghost predicate AllSucceed(before: seq<Envelope>, es: seq<Envelope>, track: seq<Envelope>, from: nat, n: nat, groups: seq<Status.Group>) {
    forall m :: from <= m < n && m < |track| && |before| + m - from < |es| ==> Succeeds(es[|before| + m - from], track[m], groups)
  }

  /** After `before`, the run walked the track from `from` up to n, and every step of it succeeded. */
  ghost predicate WalkedWell(before: seq<Envelope>, es: seq<Envelope>, track: seq<Envelope>, from: nat, n: nat, groups: seq<Status.Group>) {
    Walks(before, es, track, from, n) && AllSucceed(before, es, track, from, n, groups)
  }

  /** The run replayed the beginning of the track, and every step of it succeeded. */
  ghost predicate ReplayedWell(es: seq<Envelope>, track: seq<Envelope>, groups: seq<Status.Group>) {
    exists n: nat :: n <= |track| && WalkedWell([], es, track, 0, n, groups)
  }

  /** The run replayed the beginning of the track and ended at the first step that failed. */
  ghost predicate StopsAtFailure(es: seq<Envelope>, track: seq<Envelope>, groups: seq<Status.Group>) {
    exists k: nat :: k < |track| && FailsAt(es, track, k, groups)
  }

  ghost predicate FailsAt(es: seq<Envelope>, track: seq<Envelope>, k: nat, groups: seq<Status.Group>)
    requires k < |track|
  {
    && |es| == k + 1 && Walks([], es, track, 0, k + 1) && AllSucceed([], es, track, 0, k, groups)
    && !Succeeds(es[k], track[k], groups)
  }

  lemma {:induction false} SucceedStill(before: seq<Envelope>, es: seq<Envelope>, more: seq<Envelope>, track: seq<Envelope>, from: nat, n: nat,
                                        groups: seq<Status.Group>)
    requires AllSucceed(before, es, track, from, n, groups) && es <= more && |before| + n - from <= |es|
    ensures AllSucceed(before, more, track, from, n, groups)
  {
    hide Succeeds;
    assert forall i :: 0 <= i < |es| ==> more[i] == es[i];
  }

  /** Did the step answer a status the baseline did not record for it? */
  method ExpectationDrift(base: Envelope, exec: Exec, groups: seq<Status.Group>) returns (drift: bool)
    ensures drift <==> StatusDrift(base.status, exec.status, groups)
  {
    if base.status.None? || exec.status.None? { return false; }
    var same := Status.StatusesEquivalent(groups, base.status.value, exec.status.value);
    drift := !same;
  }

  datatype ActOutcome = Stopped | Failed(index: nat) | ActThrew(failure: Failure)

  datatype RecordOutcome = Ended | Resumed(index: nat) | RecordThrew(failure: Failure)

  /** The envelopes of one walk along the track: it stops at the first step that fails, or has walked well as far as it came. */
  ghost predicate Acted(before: seq<Envelope>, es: seq<Envelope>, track: seq<Envelope>, from: nat, out: ActOutcome, groups: seq<Status.Group>) {
    if out.Failed? then
      && from <= out.index < |track| && |es| == |before| + out.index + 1 - from
      && Walks(before, es, track, from, out.index + 1) && AllSucceed(before, es, track, from, out.index, groups)
      && !Succeeds(es[|es| - 1], track[out.index], groups)
    else exists n :: from <= n <= |track| && WalkedWell(before, es, track, from, n, groups)
  }

  class Journey {
    const driver: Driver
    const writer: Writer
    const axe: DeferredAxeCapture
    const baseline: seq<Envelope>
    const maxSteps: nat
    const healable: bool
    const isApi: bool
    const groups: seq<Status.Group>
    const drift: (Snapshot, Envelope) -> bool
    const track: seq<Envelope>

    var envelopes: seq<Envelope>
    var aborted: bool
    var endReason: Option<EndReason>
    var healedFromStep: Option<nat>
    var healSegments: seq<HealSegment>
    var actedFrom: map<nat, nat>
    ghost var reached: nat

    ghost predicate Valid()
      reads this, axe, driver, writer
    {
      && axe.driver == driver && axe.writer == writer && axe.Valid()
      && axe.Taken() == envelopes && track == ActionTrack(baseline)
      && Progress(envelopes, track, maxSteps, reached, actedFrom)
      && OnlyLastEnds(envelopes) && Tells(envelopes, driver.performed)
    }

    /** Nothing was done to the page that is not recorded. */
    ghost predicate Told()
      reads this`envelopes, driver`performed
    {
      |driver.performed| == |Executed(envelopes)|
    }

    constructor (driver: Driver, writer: Writer, axe: DeferredAxeCapture, baseline: seq<Envelope>, maxSteps: nat, healable: bool,
                 isApi: bool, groups: seq<Status.Group>, drift: (Snapshot, Envelope) -> bool)
      requires axe.driver == driver && axe.writer == writer && axe.Valid() && axe.pending.None? && writer.lines == []
      requires Increasing(ActionTrack(baseline)) && driver.performed == []
      ensures Valid() && Told() && Going(envelopes) && envelopes == [] && reached == 0 && healSegments == [] && endReason.None?
      ensures this.driver == driver && this.writer == writer && this.axe == axe && this.baseline == baseline
      ensures this.maxSteps == maxSteps && track == ActionTrack(baseline) && healedFromStep.None?
    {
      hide Progress, Going, OnlyLastEnds, ActionTrack, Increasing;
      this.driver, this.writer, this.axe, this.baseline := driver, writer, axe, baseline;
      this.maxSteps, this.healable, this.isApi, this.groups, this.drift := maxSteps, healable, isApi, groups, drift;
      track := ActionTrack(baseline);
      envelopes, aborted, endReason, healedFromStep, healSegments, actedFrom := [], false, None, None, [], map[];
      reached := 0;
      new;
      Begins(track, maxSteps);
    }

    /** Any await: the hard timeout may have aborted the run meanwhile. */
    method Await()
      modifies this`aborted
      ensures old(aborted) ==> aborted
    {
      if * { aborted := true; }
    }

    /** Write an envelope no scan belongs to. */
    method Record(e: Envelope, scanned: Option<nat>)
      requires Valid() && Told() && Going(envelopes) && axe.pending.None? && !e.dispatched
      requires e.step == |envelopes| + 1 && !IsVisit(e) && (e.mode != Act ==> e.step <= maxSteps)
      modifies this`envelopes, writer
      ensures Valid() && Told() && axe.pending.None? && envelopes == old(envelopes) + [e]
    {
      TellsMore(envelopes, e, driver.performed);
      AppendOther(envelopes, e, track, maxSteps, reached, actedFrom);
      writer.AppendEnvelope(e, scanned);
      envelopes := envelopes + [e];
    }

    /** Record track step k, executed or found drifted. */
    method Visit(k: nat, e: Envelope) returns (refused: bool)
      requires Valid() && Going(envelopes) && axe.pending.None? && reached <= k < |track|
      requires e.step == |envelopes| + 1 && IsVisit(e) && e.actedFrom == Some(track[k].step)
      requires e.dispatched ==> e.bindings == Remap(track[k].bindings, actedFrom)
      requires if e.dispatched then |driver.performed| == |Executed(envelopes)| + 1 && Mirrors(e, driver.performed[|driver.performed| - 1])
               else Told()
      modifies this`envelopes, this`actedFrom, this`reached, axe, writer
      ensures Valid() && Told() && Going(envelopes) && !refused && !driver.scanning && reached == k + 1
      ensures envelopes == old(envelopes) + [e]
    {
      hide Mirrors, Progress, Going, OnlyLastEnds, Tells, Executed, IsVisit, Remap, ActionTrack, EnvelopesOf;
      TellsMore(envelopes, e, driver.performed);
      SkipAhead(envelopes, track, maxSteps, reached, k, actedFrom);
      AppendVisit(envelopes, e, track, maxSteps, k, actedFrom);
      GoingOn(envelopes + [e]);
      if e.dispatched {
        actedFrom := actedFrom[track[k].step := e.step];
      }
      envelopes := envelopes + [e];
      reached := k + 1;
      if e.dispatched {
        refused := axe.Defer(e);
      } else {
        writer.AppendEnvelope(e, None);
        refused := false;
      }
    }

    lemma GoingOn(es: seq<Envelope>)
      requires Going(es)
      ensures OnlyLastEnds(es)
    {}

    /** Walk the rest of the track; the index of the step that failed, or how the walk ended. */
    method ActLoop(from: nat) returns (out: ActOutcome)
      requires Valid() && Told() && Going(envelopes) && reached <= from <= |track| && !driver.scanning && endReason.None?
      modifies this`envelopes, this`actedFrom, this`reached, this`aborted, this`endReason, axe, driver, writer
      ensures Valid()
      ensures out.Failed? ==> from <= out.index < |track| && reached == out.index + 1 && Told() && Going(envelopes) && !driver.scanning
                              && endReason.None?
      ensures out.ActThrew? ==> out.failure == DriverFailure
      ensures out.Stopped? ==> aborted || endReason.Some?
      ensures Acted(old(envelopes), envelopes, track, from, out, groups)
      ensures endReason.Some? && endReason.value.Finished? ==>
                && WalkedWell(old(envelopes), envelopes, track, from, |track|, groups) && |envelopes| > |old(envelopes)|
                && var last := envelopes[|envelopes| - 1];
                   last.mode == Act && IsTerminal(last) && endReason == Some(Finished(last.action)) && EndsAsRecorded(baseline, last)
      ensures endReason.Some? ==> endReason == Some(Timeout) || endReason.value.Finished?
    {
      hide Progress, OnlyLastEnds, Going, ActionTrack, Replayed, IsStuck, Walks, AllSucceed, Succeeds, ComesTo, Tells, EndsAsRecorded;
      ghost var before := envelopes;
      NotYetWalked(before, from);
      var k := from;
      while k < |track|
        invariant from <= k <= |track| && reached <= k
        invariant before == old(envelopes) && WalkedWell(before, envelopes, track, from, k, groups) && |envelopes| == |before| + k - from
        invariant Valid() && Told() && Going(envelopes) && !driver.scanning && endReason.None?
      {
        if aborted { return Stopped; }
        var expired: bool := *;
        if expired {
          endReason := Some(Timeout);
          assert WalkedWell(before, envelopes, track, from, k, groups);
          return Stopped;
        }
        ghost var es := envelopes;
        var ended := ActStep(k);
        if ended.None? || ended.value.Failed? { Walked(before, es, from, k); }
        if ended.Some? {
          assert !ended.value.Failed? ==> WalkedWell(before, envelopes, track, from, k, groups);
          return ended.value;
        }
        k := k + 1;
      }
      ghost var es := envelopes;
      out := ActFinal();
      WalkEnds(before, es, envelopes, track, from, |track|);
      SucceedStill(before, es, envelopes, track, from, |track|, groups);
      assert WalkedWell(before, envelopes, track, from, |track|, groups);
    }

    /** Replay track step k: look at the page, and if it has not drifted execute the step and judge its outcome. */
    method ActStep(k: nat) returns (ended: Option<ActOutcome>)
      requires Valid() && Told() && Going(envelopes) && reached <= k < |track| && !driver.scanning && endReason.None?
      modifies this`envelopes, this`actedFrom, this`reached, this`aborted, axe, driver, writer
      ensures Valid()
      ensures ended.None? || ended.value.Failed? ==>
                && Told() && Going(envelopes) && !driver.scanning && reached == k + 1
                && |envelopes| == |old(envelopes)| + 1 && envelopes == old(envelopes) + [envelopes[|envelopes| - 1]]
                && ComesTo(envelopes[|envelopes| - 1], track[k])
                && (ended.None? <==> Succeeds(envelopes[|envelopes| - 1], track[k], groups))
      ensures ended.Some? && ended.value.Failed? ==> ended.value.index == k
      ensures ended.None? || ended.value.Failed? ==>
                && |driver.seen| == |old(driver.seen)| + 1
                && (envelopes[|envelopes| - 1].dispatched <==> !drift(driver.seen[|driver.seen| - 1], track[k]))
      ensures ended.Some? && !ended.value.Failed? ==> envelopes == old(envelopes)
      ensures ended.Some? && ended.value.ActThrew? ==> ended.value.failure == DriverFailure
      ensures ended.Some? && ended.value.Stopped? ==> aborted
    {
      hide Progress, OnlyLastEnds, Going, ActionTrack, Replayed, IsStuck, StatusDrift, EnvelopesOf, Remap, IsVisit, Tells, Executed;
      var base, step := track[k], |envelopes| + 1;
      var snap := driver.CaptureSnapshot();
      Await();
      if snap.Err? { return Some(ActThrew(snap.error)); }
      axe.AfterSnapshot();
      if drift(snap.value, base) {
        axe.Barrier();
        Await();
        var marker := Envelope(step, Act, Some(base.step), base.action, false, false, false, base.locus, "drift", None, None, []);
        IsAVisit(k, marker);
        var _ := Visit(k, marker);
        return Some(Failed(k));
      }
      axe.Barrier();
      ended := ExecuteStep(k);
    }

    /** Execute track step k with its bindings translated, and judge what came of it. */
    method ExecuteStep(k: nat) returns (ended: Option<ActOutcome>)
      requires Valid() && Told() && Going(envelopes) && reached <= k < |track| && !driver.scanning && axe.pending.None? && endReason.None?
      modifies this`envelopes, this`actedFrom, this`reached, this`aborted, axe, driver, writer
      ensures Valid()
      ensures ended.None? || ended.value.Failed? ==>
                && Told() && Going(envelopes) && !driver.scanning && reached == k + 1
                && |envelopes| == |old(envelopes)| + 1 && envelopes == old(envelopes) + [envelopes[|envelopes| - 1]]
                && ComesTo(envelopes[|envelopes| - 1], track[k])
                && (ended.None? <==> Succeeds(envelopes[|envelopes| - 1], track[k], groups))
      ensures ended.Some? && ended.value.Failed? ==> ended.value.index == k
      ensures ended.None? || ended.value.Failed? ==> envelopes[|envelopes| - 1].dispatched
      ensures driver.seen == old(driver.seen)
      ensures ended.Some? && !ended.value.Failed? ==> envelopes == old(envelopes)
      ensures ended.Some? && ended.value.ActThrew? ==> ended.value.failure == DriverFailure
      ensures ended.Some? && ended.value.Stopped? ==> aborted
    {
      hide Progress, OnlyLastEnds, Going, ActionTrack, Replayed, IsStuck, StatusDrift, EnvelopesOf, Remap, IsVisit, Tells, Executed;
      var base, step, bindings := track[k], |envelopes| + 1, Remap(track[k].bindings, actedFrom);
      var exec := driver.Execute(base.action, bindings);
      Await();
      if exec.Err? { return Some(ActThrew(exec.error)); }
      TellsLater(envelopes, old(driver.performed), Performed(base.action, bindings, exec.value));
      if aborted { return Some(Stopped); }
      var e := Envelope(step, Act, Some(base.step), base.action, true, exec.value.resolved, exec.value.ok, exec.value.locus,
                        exec.value.error, None, exec.value.status, bindings);
      IsAVisit(k, e);
      var refused := Visit(k, e);
      assert !refused;
      var statusDrift := ExpectationDrift(base, exec.value, groups);
      ended := if !exec.value.ok || statusDrift then Some(Failed(k)) else None;
    }

    lemma {:induction false} IsAVisit(k: nat, e: Envelope)
      requires track == ActionTrack(baseline) && k < |track| && e.mode == Act && e.action == track[k].action
      ensures IsVisit(e)
    {
      TrackIsActable(baseline, k);
    }

    /** The walk after one step more. */
    lemma {:induction false} Walked(before: seq<Envelope>, es: seq<Envelope>, from: nat, k: nat)
      requires Walks(before, es, track, from, k) && AllSucceed(before, es, track, from, k, groups) && |es| == |before| + k - from
      requires k < |track| && |envelopes| == |es| + 1 && envelopes == es + [envelopes[|es|]] && ComesTo(envelopes[|es|], track[k])
      ensures Walks(before, envelopes, track, from, k + 1) && AllSucceed(before, envelopes, track, from, k, groups)
      ensures AllSucceed(before, envelopes, track, from, k + 1, groups) <==> Succeeds(envelopes[|es|], track[k], groups)
    {
      hide Succeeds;
      WalksOn(before, es, envelopes[|es|], track, from, k);
      assert forall i :: 0 <= i < |es| ==> envelopes[i] == es[i];
    }

    lemma NotYetWalked(before: seq<Envelope>, from: nat)
      requires before == envelopes && from <= |track|
      ensures WalkedWell(before, envelopes, track, from, from, groups)
    {}

    /** The track is done: record the final page under the baseline's own ending. */
    method ActFinal() returns (out: ActOutcome)
      requires Valid() && Told() && Going(envelopes) && !driver.scanning
      modifies this`envelopes, this`aborted, this`endReason, axe, driver, writer
      ensures Valid() && out.Stopped? && (aborted || endReason.Some?)
      ensures old(envelopes) <= envelopes && forall i :: |old(envelopes)| <= i < |envelopes| ==> !IsVisit(envelopes[i])
      ensures endReason == old(endReason) ||
                (&& |envelopes| == |old(envelopes)| + 1
                 && var last := envelopes[|envelopes| - 1];
                    last.mode == Act && IsTerminal(last) && endReason == Some(Finished(last.action)) && EndsAsRecorded(baseline, last))
    {
      hide Progress, OnlyLastEnds, Going, ActionTrack, Replayed, IsStuck, Tells, Executed;
      if aborted { return Stopped; }
      var terminal := LastTerminal();
      var action := if terminal.Some? then terminal.value.action else Done;
      var step := |envelopes| + 1;
      var snap := driver.CaptureSnapshot();
      Await();
      if aborted { return Stopped; }
      axe.AfterSnapshot();
      axe.Barrier();
      var scanned := None;
      if snap.Ok? {
        scanned := axe.Terminal();
      }
      var e := Envelope(step, Act, if terminal.Some? then Some(terminal.value.step) else None, action, false, false, true, "", "", None,
                        None, []);
      Record(e, scanned);
      endReason := Some(Finished(action));
      out := Stopped;
    }

    /** The last recorded ending of the baseline, if it has one. */
    method LastTerminal() returns (r: Option<Envelope>)
      ensures r.None? <==> forall i :: 0 <= i < |baseline| ==> !IsTerminal(baseline[i])
      ensures r.Some? ==> exists i :: 0 <= i < |baseline| && LastEnding(baseline, i) && baseline[i] == r.value
    {
      var i := |baseline|;
      while i > 0
        invariant 0 <= i <= |baseline|
        invariant forall j :: i <= j < |baseline| ==> !IsTerminal(baseline[j])
      {
        i := i - 1;
        if IsTerminal(baseline[i]) {
          assert LastEnding(baseline, i);
          return Some(baseline[i]);
        }
      }
      r := None;
    }

    /** Let the actor drive; with an anchor window, hand back where exactly one remaining baseline step matches. */
    method RecordLoop(window: seq<nat>, minimum: nat) returns (out: RecordOutcome)
      requires Valid() && Told() && Going(envelopes) && !driver.scanning && endReason.None?
      requires forall i :: 0 <= i < |window| ==> minimum <= window[i] < |track|
      modifies this`envelopes, this`aborted, this`endReason, axe, driver, writer
      ensures Valid()
      ensures out.Resumed? ==> out.index in window && Told() && Going(envelopes) && !driver.scanning && endReason.None?
      ensures out.Resumed? ==> |envelopes| > |old(envelopes)| && AnchoredAt(window, out.index)
      ensures endReason.Some? ==>
                && Shows(envelopes, endReason.value, baseline, maxSteps)
                && (endReason.value.Finished? ==> |envelopes| > |old(envelopes)| && envelopes[|envelopes| - 1].mode == Agent)
                && (endReason.value.Error? ==> |envelopes| > |old(envelopes)| && envelopes[|envelopes| - 1].mode == Errored)
      ensures out.RecordThrew? ==> out.failure == DriverFailure
      ensures out.Ended? ==> aborted || endReason.Some?
      ensures NotActSince(old(|envelopes|)) && old(envelopes) <= envelopes
    {
      hide Progress, OnlyLastEnds, Going, ActionTrack, IsStuck, EnvelopesOf, Tells, Executed, EndsAsRecorded, UniqueMatch, Matches;
      var agentSteps := 0;
      while |envelopes| < maxSteps
        invariant NotActSince(old(|envelopes|)) && old(envelopes) <= envelopes && |envelopes| == |old(envelopes)| + agentSteps
        invariant Valid() && Told() && Going(envelopes) && !driver.scanning && endReason.None?
        decreases maxSteps - |envelopes|
      {
        if aborted { return Ended; }
        var expired: bool := *;
        if expired {
          endReason := Some(Timeout);
          return Ended;
        }
        var ended := OneTurn(if agentSteps >= 1 then window else []);
        if ended.Some? { return ended.value; }
        agentSteps := agentSteps + 1;
        if IsStuck(envelopes) {
          endReason := Some(Stuck);
          return Ended;
        }
      }
      endReason := Some(MaxSteps);
      out := Ended;
    }

    /** One turn: look at the page, hand back if the window matches, else ask the actor and do what it says. */
    method OneTurn(window: seq<nat>) returns (ended: Option<RecordOutcome>)
      requires Valid() && Told() && Going(envelopes) && !driver.scanning && endReason.None? && |envelopes| < maxSteps
      requires forall i :: 0 <= i < |window| ==> window[i] < |track|
      modifies this`envelopes, this`aborted, this`endReason, axe, driver, writer
      ensures Valid() && NotActSince(|old(envelopes)|) && old(envelopes) <= envelopes
      ensures ended.None? ==> Told() && !driver.scanning && endReason.None? && |envelopes| == |old(envelopes)| + 1
      ensures ended.None? ==> (Going(envelopes) <==> !IsStuck(envelopes))
      ensures ended.Some? && ended.value.Resumed? ==> ended.value.index in window && Told() && Going(envelopes) && !driver.scanning && endReason.None?
      ensures ended.Some? && ended.value.Resumed? ==> envelopes == old(envelopes) && AnchoredAt(window, ended.value.index)
      ensures endReason.Some? ==>
                && Shows(envelopes, endReason.value, baseline, maxSteps) && |envelopes| == |old(envelopes)| + 1
                && if endReason.value.Finished? then envelopes[|envelopes| - 1].mode == Agent
                   else endReason.value.Error? && envelopes[|envelopes| - 1].mode == Errored
      ensures ended.Some? && ended.value.RecordThrew? ==> ended.value.failure == DriverFailure
      ensures ended.Some? && ended.value.Ended? ==> aborted || endReason.Some?
    {
      hide Progress, OnlyLastEnds, Going, ActionTrack, IsStuck, UniqueMatch, Matches, EnvelopesOf, Tells, Executed, EndsAsRecorded, Shows;
      var snap := driver.CaptureSnapshot();
      Await();
      if snap.Err? { return Some(RecordThrew(snap.error)); }
      if aborted { return Some(Ended); }
      axe.AfterSnapshot();
      if window != [] {
        var anchor := FindAnchor(window, snap.value, track, drift);
        if anchor.Some? {
          axe.Barrier();
          return Some(Resumed(anchor.value));
        }
      }
      var turn := NextTurn();
      Await();
      if aborted { return Some(Ended); }
      if turn.None? {
        ActorFailed();
        return Some(Ended);
      }
      if turn.value.action.Done? || turn.value.action.GiveUp? {
        ActorEnded(snap.value, turn.value);
        return Some(Ended);
      }
      var failure := ActorActs(snap.value, turn.value);
      if failure.Some? { return Some(RecordThrew(failure.value)); }
      ended := if aborted then Some(Ended) else None;
    }

    /** This step is the only one of the window that the last snapshot does not drift from. */
    ghost predicate AnchoredAt(window: seq<nat>, index: nat)
      requires forall i :: 0 <= i < |window| ==> window[i] < |track|
      reads driver`seen
    {
      driver.seen != [] && exists k :: 0 <= k < |window| && window[k] == index
                                       && UniqueMatch(Matches(window, driver.seen[|driver.seen| - 1], track, drift), k)
    }

    /** No envelope since then replays the baseline. */
    ghost predicate NotActSince(start: nat)
      reads this
    {
      start <= |envelopes| && forall i :: start <= i < |envelopes| ==> envelopes[i].mode != Act
    }

    /** The model could not be asked, or its answer was unusable: the run ends on an error envelope. */
    method ActorFailed()
      requires Valid() && Told() && Going(envelopes) && |envelopes| < maxSteps
      modifies this`envelopes, this`endReason, axe, driver, writer
      ensures Valid() && endReason == Some(Error) && |envelopes| == |old(envelopes)| + 1 && old(envelopes) <= envelopes
      ensures envelopes[|envelopes| - 1].mode == Errored && Shows(envelopes, Error, baseline, maxSteps)
    {
      hide Progress, OnlyLastEnds, Going, ActionTrack, Replayed, IsStuck, Tells, Executed;
      axe.Barrier();
      Record(Envelope(|envelopes| + 1, Errored, None, OtherAction(""), false, false, false, "", "actor error", None, None, []), None);
      endReason := Some(Error);
    }

    /** The actor declares the journey done, or gives up: the final page is scanned in place. */
    method ActorEnded(snap: Snapshot, turn: Turn)
      requires Valid() && Told() && Going(envelopes) && |envelopes| < maxSteps && (turn.action.Done? || turn.action.GiveUp?)
      modifies this`envelopes, this`endReason, axe, driver, writer
      ensures Valid() && endReason == Some(Finished(turn.action))
      ensures |envelopes| == |old(envelopes)| + 1 && old(envelopes) <= envelopes
      ensures envelopes[|envelopes| - 1].mode == Agent && Shows(envelopes, Finished(turn.action), baseline, maxSteps)
    {
      hide Progress, OnlyLastEnds, Going, ActionTrack, Replayed, IsStuck, Tells, Executed;
      axe.Barrier();
      var scanned := axe.Terminal();
      Record(Envelope(|envelopes| + 1, Agent, None, turn.action, false, false, true, "", "", Some(snap.text), None, turn.bindings), scanned);
      endReason := Some(Finished(turn.action));
    }

    /** Execute the actor's action and latch its envelope; an aborted run records nothing more. */
    method ActorActs(snap: Snapshot, turn: Turn) returns (failure: Option<Failure>)
      requires Valid() && Told() && Going(envelopes) && |envelopes| < maxSteps && !turn.action.Done? && !turn.action.GiveUp?
      modifies this`envelopes, this`aborted, axe, driver, writer
      ensures Valid() && !driver.scanning && (failure.Some? ==> failure.value == DriverFailure)
      ensures failure.Some? || aborted || (|envelopes| == |old(envelopes)| + 1 && envelopes[|envelopes| - 1].mode == Agent && Told())
      ensures driver.seen == old(driver.seen)
      ensures failure.None? && !aborted ==> old(envelopes) <= envelopes && (Going(envelopes) <==> !IsStuck(envelopes))
      ensures old(envelopes) <= envelopes && NotActSince(|old(envelopes)|)
    {
      hide Progress, OnlyLastEnds, Going, ActionTrack, Replayed, IsStuck, Tells, Executed;
      var tokenable := turn.action.Click? || turn.action.Tap? || turn.action.Type?;
      axe.Barrier();
      if tokenable {
        var before := driver.EffectToken();
        if before.Err? { return Some(before.error); }
      }
      var exec := driver.Execute(turn.action, turn.bindings);
      if exec.Err? { return Some(exec.error); }
      TellsLater(envelopes, old(driver.performed), Performed(turn.action, turn.bindings, exec.value));
      if exec.value.ok && tokenable {
        var after := driver.EffectToken();
        if after.Err? { return Some(after.error); }
      }
      Await();
      if aborted { return None; }
      var e := Envelope(|envelopes| + 1, Agent, None, turn.action, true, exec.value.resolved, exec.value.ok, exec.value.locus,
                        exec.value.error, Some(snap.text), exec.value.status, turn.bindings);
      AppendOther(envelopes, e, track, maxSteps, reached, actedFrom);
      TellsMore(envelopes, e, driver.performed);
      envelopes := envelopes + [e];
      var refused := axe.Defer(e);
      failure := if refused then Some(StillPending) else None;
    }

    /** The actor's answer, or None when it failed. */
    method NextTurn() returns (turn: Option<Turn>) {
      turn := *;
    }

    /** The steps replay may resume at: strictly after the failed one, with a recorded snapshot. */
    method Window(failed: nat) returns (window: seq<nat>)
      requires failed < |track|
      ensures forall i :: 0 <= i < |window| ==> failed < window[i] < |track| && track[window[i]].snapshot.Some?
      ensures forall i, j :: 0 <= i < j < |window| ==> window[i] < window[j]
      ensures !isApi ==> forall k :: failed < k < |track| && track[k].snapshot.Some? ==> k in window
      ensures isApi ==> window == []
    {
      window := [];
      if isApi { return; }
      var k := failed + 1;
      while k < |track|
        invariant failed < k <= |track|
        invariant forall i :: 0 <= i < |window| ==> failed < window[i] < k && track[window[i]].snapshot.Some?
        invariant forall i, j :: 0 <= i < j < |window| ==> window[i] < window[j]
        invariant forall m :: failed < m < k && track[m].snapshot.Some? ==> m in window
      {
        if track[k].snapshot.Some? {
          window := window + [k];
        }
        k := k + 1;
      }
    }

    ghost predicate HealsOnTrack()
      reads this
    {
      && HealsForward(healSegments)
      && (forall i :: 0 <= i < |healSegments| ==>
            && Among(track, |track|, healSegments[i].from)
            && (healSegments[i].to.Some? ==> Among(track, |track|, healSegments[i].to.value)))
      && (healSegments == [] || healedFromStep == Some(healSegments[0].from))
    }

    /** Hand the wheel to the actor at a failed step; the index where replay resumes, if it does. */
    method Heal(at: nat) returns (resumeIndex: Option<nat>, failure: Option<Failure>)
      requires Valid() && Told() && Going(envelopes) && !driver.scanning && endReason.None? && at < |track| && reached == at + 1
      requires HealsOnTrack() && HealsBefore(healSegments, track[at].step) && (healSegments == [] ==> healedFromStep.None?)
      modifies this`envelopes, this`aborted, this`endReason, this`healedFromStep, this`healSegments, axe, driver, writer
      ensures Valid() && HealsOnTrack() && (failure.Some? ==> failure.value == DriverFailure) && healedFromStep.Some?
      ensures resumeIndex.Some? ==> failure.None? && healSegments != [] && at < resumeIndex.value < |track|
      ensures resumeIndex.Some? ==> HealsBefore(healSegments, track[resumeIndex.value].step)
      ensures resumeIndex.Some? ==> Told() && Going(envelopes) && !driver.scanning && endReason.None?
      ensures resumeIndex.Some? ==> |envelopes| > |old(envelopes)|
      ensures old(healedFromStep).Some? ==> healedFromStep == old(healedFromStep)
      ensures old(healedFromStep).None? ==> healedFromStep == Some(track[at].step)
      ensures endReason.Some? ==>
                && Shows(envelopes, endReason.value, baseline, maxSteps)
                && (endReason.value.Finished? ==> envelopes != [] && envelopes[|envelopes| - 1].mode == Agent)
                && (endReason.value.Error? ==> envelopes != [] && envelopes[|envelopes| - 1].mode == Errored)
      ensures resumeIndex.None? ==> aborted || endReason.Some? || failure.Some?
      ensures old(envelopes) <= envelopes && NotActSince(|old(envelopes)|) && (isApi ==> resumeIndex.None?)
    {
      hide Progress, OnlyLastEnds, Going, ActionTrack, HealsForward, Among, EnvelopesOf, Tells, Executed, Shows, AnchoredAt;
      resumeIndex, failure := None, None;
      if healedFromStep.None? {
        healedFromStep := Some(track[at].step);
      }
      var window := Window(at);
      var resumed := RecordLoop(window, at + 1);
      StepsIncrease(at + 1, at);
      match resumed {
        case RecordThrew(thrown) =>
          failure := Some(thrown);
        case Ended =>
          HealsMore(HealSegment(track[at].step, None));
          healSegments := healSegments + [HealSegment(track[at].step, None)];
        case Resumed(index) =>
          StepsIncrease(at + 1, index);
          HealsMore(HealSegment(track[at].step, Some(track[index].step)));
          healSegments := healSegments + [HealSegment(track[at].step, Some(track[index].step))];
          var found := IndexOfStep(track[index].step, index);
          resumeIndex := Some(found);
      }
    }

    lemma HealsMore(h: HealSegment)
      requires HealsOnTrack() && HealsBefore(healSegments, h.from) && Among(track, |track|, h.from)
      requires h.to.Some? ==> h.from < h.to.value && Among(track, |track|, h.to.value)
      ensures HealsForward(healSegments + [h])
      ensures forall i :: 0 <= i <= |healSegments| ==>
                var g := (healSegments + [h])[i];
                Among(track, |track|, g.from) && (g.to.Some? ==> Among(track, |track|, g.to.value))
    {}

    /** Act and heal in turn until the run ends. */
    method ActAndHeal() returns (healed: bool, unhealed: bool, failure: Option<Failure>)
      requires Valid() && Told() && Going(envelopes) && reached == 0 && !driver.scanning && endReason.None? && healSegments == []
      requires healedFromStep.None? && envelopes == []
      modifies this, axe, driver, writer
      ensures Valid() && HealsOnTrack() && (isApi ==> Unbroken(envelopes, track))
      ensures (failure.Some? ==> failure.value == DriverFailure)
      ensures aborted || endReason.Some? || failure.Some?
      ensures healed <==> healedFromStep.Some?
      ensures healSegments != [] ==> healed
      ensures endReason.Some? ==> Shows(envelopes, endReason.value, baseline, maxSteps)
      ensures endReason == Some(Error) ==> unhealed || (envelopes != [] && envelopes[|envelopes| - 1].mode == Errored)
      ensures unhealed ==> !healable && !healed && endReason == Some(Error) && StopsAtFailure(envelopes, track, groups)
      ensures !healable ==> !healed && (!unhealed ==> ReplayedWell(envelopes, track, groups))
      ensures ActorBetween(envelopes, track, groups)
    {
      hide Progress, OnlyLastEnds, Going, ActionTrack, Replayed, IsStuck, HealsForward, Walks, AllSucceed, Succeeds, Unbroken, EnvelopesOf, Among, Tells, Executed, Shows,
           EndsAsRecorded, ActorBetween, ComesTo, WalkedWell, ReplayedWell, StopsAtFailure, Acted;
      healed, unhealed, failure := false, false, None;
      var resumeIndex := 0;
      NoHeals();
      NothingYet();
      while true
        invariant Valid() && Told() && Going(envelopes) && reached <= resumeIndex <= |track| && !driver.scanning && endReason.None?
        invariant HealsOnTrack() && (healSegments == [] <==> healedFromStep.None?) && (healed <==> healedFromStep.Some?)
        invariant resumeIndex < |track| ==> HealsBefore(healSegments, track[resumeIndex].step)
        invariant failure.None? && (isApi ==> resumeIndex == 0 && envelopes == []) && (!healable ==> resumeIndex == 0 && envelopes == [] && !healed)
        invariant ActorBetween(envelopes, track, groups) && (envelopes != [] ==> envelopes[|envelopes| - 1].mode != Act)
        decreases |track| - resumeIndex
      {
        ghost var before := envelopes;
        var acted := ActLoop(resumeIndex);
        StillBetween(before, resumeIndex, acted);
        Finishing();
        if isApi { WalkIsUnbroken(acted); }
        if !healable { FromTheStart(acted); }
        match acted {
          case ActThrew(thrown) =>
            failure := Some(thrown);
            return;
          case Stopped =>
            return;
          case Failed(at) =>
            if !healable {
              unhealed := true;
              endReason := Some(Error);
              return;
            }
            healed := true;
            StepsIncrease(resumeIndex, at);
            ghost var walked := envelopes;
            var resumed;
            resumed, failure := Heal(at);
            ActorMoved(walked);
            if isApi { StaysUnbroken(walked, envelopes, track); }
            if resumed.None? { return; }
            resumeIndex := resumed.value;
        }
      }
    }

    /** What the first walk of a run leaves behind. */
    lemma {:induction false} FromTheStart(out: ActOutcome)
      requires Acted([], envelopes, track, 0, out, groups)
      ensures if out.Failed? then StopsAtFailure(envelopes, track, groups) else ReplayedWell(envelopes, track, groups)
    {
      if out.Failed? { assert FailsAt(envelopes, track, out.index, groups); }
    }

    lemma Finishing()
      requires endReason.Some? ==>
                 || endReason == Some(Timeout)
                 || (envelopes != [] && IsTerminal(envelopes[|envelopes| - 1]) && endReason == Some(Finished(envelopes[|envelopes| - 1].action))
                     && EndsAsRecorded(baseline, envelopes[|envelopes| - 1]))
      ensures endReason.Some? ==> Shows(envelopes, endReason.value, baseline, maxSteps)
      ensures Shows(envelopes, Error, baseline, maxSteps) && Shows(envelopes, Timeout, baseline, maxSteps)
    {}

    /** A walk along the track that stops at its first failure adds no step replayed past one. */
    lemma {:induction false} StillBetween(before: seq<Envelope>, from: nat, out: ActOutcome)
      requires ActorBetween(before, track, groups) && (before != [] ==> before[|before| - 1].mode != Act)
      requires Acted(before, envelopes, track, from, out, groups)
      ensures ActorBetween(envelopes, track, groups)
    {
      hide Succeeds;
      var n := if out.Failed? then out.index + 1 else var n :| from <= n <= |track| && WalkedWell(before, envelopes, track, from, n, groups); n;
      forall i, k | 0 <= i < |envelopes| && k == i + 1 && k < |envelopes| && IsVisit(envelopes[i]) && envelopes[k].mode == Act
        ensures SucceedsOn(envelopes[i], track, groups)
      {
        if i < |before| {
          assert envelopes[i] == before[i];
          if k < |before| { assert envelopes[k] == before[k]; }
        } else {
          var m := i - |before| + from;
          assert m < n;
          assert ComesTo(envelopes[|before| + m - from], track[m]);
          assert out.Failed? ==> m < out.index;
          assert Succeeds(envelopes[|before| + m - from], track[m], groups);
        }
      }
    }

    /** What the actor does is no replay. */
    lemma {:induction false} ActorMoved(before: seq<Envelope>)
      requires ActorBetween(before, track, groups) && before <= envelopes && NotActSince(|before|)
      ensures ActorBetween(envelopes, track, groups) && (|envelopes| > |before| ==> envelopes[|envelopes| - 1].mode != Act)
    {
      hide Succeeds;
      forall i, k | 0 <= i < |envelopes| && k == i + 1 && k < |envelopes| && IsVisit(envelopes[i]) && envelopes[k].mode == Act
        ensures SucceedsOn(envelopes[i], track, groups)
      {
        assert k < |before| && envelopes[i] == before[i] && envelopes[k] == before[k];
      }
    }

    /** What a walk from the beginning leaves behind. */
    lemma {:induction false} WalkIsUnbroken(out: ActOutcome)
      requires Acted([], envelopes, track, 0, out, groups)
      ensures Unbroken(envelopes, track)
    {
      var n := if out.Failed? then out.index + 1 else var n :| 0 <= n <= |track| && WalkedWell([], envelopes, track, 0, n, groups); n;
      forall m | 0 <= m < n - 1 ensures envelopes[m].dispatched {
        assert Succeeds(envelopes[m], track[m], groups);
      }
      assert WalkedOnce(envelopes, track, n);
    }

    lemma NoHeals()
      requires healSegments == []
      ensures HealsOnTrack() && forall step :: HealsBefore(healSegments, step)
    {}

    /** The position of a step number on the track. */
    method IndexOfStep(step: nat, ghost at: nat) returns (k: nat)
      requires Valid() && at < |track| && track[at].step == step
      ensures k == at
    {
      TrackGrows();
      k := 0;
      while track[k].step != step
        invariant 0 <= k <= at
        invariant forall j :: 0 <= j < k ==> track[j].step != step
        decreases at - k
      {
        k := k + 1;
      }
    }

    lemma {:induction false} RecordIsBounded()
      requires Valid() && NotActSince(0)
      ensures |envelopes| <= maxSteps
    {
      if envelopes != [] { assert envelopes[|envelopes| - 1].step == |envelopes|; }
    }

    lemma TrackGrows()
      requires Valid()
      ensures Increasing(track)
    {}

    lemma StepsIncrease(a: nat, b: nat)
      requires Valid() && b < |track|
      ensures a <= b ==> track[a].step <= track[b].step && Among(track, |track|, track[b].step)
      ensures 0 < a <= b ==> track[a - 1].step < track[b].step
    {}

    /**
      The whole journey. However the page, the model and the clock behave: the file holds every
      recorded envelope in order and nothing is left pending or scanning; envelopes are numbered
      1..n within the bound; heals move forward; and every replayed binding cites an earlier replay.
    */
    method ExecuteJourney(act: bool) returns (mode: string, unhealed: bool, infra: bool)
      requires Valid() && Told() && Going(envelopes) && reached == 0 && !driver.scanning && endReason.None? && healSegments == []
      requires envelopes == [] && healedFromStep.None?
      modifies this, axe, driver, writer
      ensures EnvelopesOf(writer.lines) == envelopes && axe.pending.None? && !driver.scanning
      ensures Numbered(envelopes) && |envelopes| <= maxSteps + (if act then |track| + 1 else 0)
      ensures HealsOnTrack()
      ensures BindingsCited(envelopes, track) && VisitsIncrease(envelopes) && StuckEnds(envelopes) && OnlyLastEnds(envelopes)
      ensures isApi ==> ProducersCited(envelopes, track)
      ensures Tells(envelopes, driver.performed) && ActorBetween(envelopes, track, groups)
      ensures infra || endReason.Some?
      ensures aborted ==> endReason == Some(Timeout) && !infra
      ensures endReason.Some? ==> Shows(envelopes, endReason.value, baseline, maxSteps)
      ensures infra ==> envelopes == []
      ensures unhealed ==> act && !healable && StopsAtFailure(envelopes, track, groups)
      ensures act && !healable && !unhealed ==> ReplayedWell(envelopes, track, groups)
      ensures healSegments != [] ==> mode == "heal" && act
      ensures mode == if healedFromStep.Some? then "heal" else if act then "act" else "record"
    {
      hide Progress, Going, OnlyLastEnds, Numbered, BindingsCited, VisitsIncrease, StuckEnds, ActionTrack, Unbroken, ProducersCited, EnvelopesOf, Tells,
           Executed, Shows, ActorBetween, ReplayedWell, StopsAtFailure, HealsForward, Among;
      var healed, failure;
      healed, unhealed, failure := Body(act);
      mode := if healed then "heal" else if act then "act" else "record";
      infra := failure == Some(CouldNotOpen);
      if isApi { CitesAll(); }
      Excused();
      if aborted {
        endReason := Some(Timeout);
        infra := false;
      } else if failure.Some? && !infra {
        endReason := Some(Error);
      }
      axe.Flush();
      Concludes();
    }

    /** Open the page, and drive the journey to its end or to what it throws. */
    method Body(act: bool) returns (healed: bool, unhealed: bool, failure: Option<Failure>)
      requires Valid() && Told() && Going(envelopes) && reached == 0 && !driver.scanning && endReason.None? && healSegments == []
      requires envelopes == [] && healedFromStep.None?
      modifies this, axe, driver, writer
      ensures Valid() && HealsOnTrack() && (isApi ==> Unbroken(envelopes, track)) && ActorBetween(envelopes, track, groups)
      ensures |envelopes| <= maxSteps || act
      ensures aborted || endReason.Some? || failure.Some?
      ensures healed <==> healedFromStep.Some?
      ensures healSegments != [] ==> healed && act
      ensures healed ==> act
      ensures endReason.Some? ==> Shows(envelopes, endReason.value, baseline, maxSteps)
      ensures failure == Some(CouldNotOpen) ==> envelopes == []
      ensures unhealed ==> act && !healable && StopsAtFailure(envelopes, track, groups)
      ensures act && !healable && !unhealed ==> ReplayedWell(envelopes, track, groups)
    {
      hide Progress, Going, OnlyLastEnds, ActionTrack, Unbroken, EnvelopesOf, Tells, Executed, Shows, ActorBetween, ReplayedWell, StopsAtFailure,
           HealsForward, Among;
      healed, unhealed, failure := false, false, None;
      NoHeals();
      NothingYet();
      var reachable := driver.Start();
      Await();
      if !reachable {
        NothingWalked(envelopes, track);
        failure := Some(CouldNotOpen);
      } else if act {
        healed, unhealed, failure := ActAndHeal();
      } else {
        var out := RecordLoop([], 0);
        if out.RecordThrew? { failure := Some(out.failure); }
        RecordIsBounded();
        NothingWalked(envelopes, track);
        ActorMoved([]);
      }
    }

    lemma NothingYet()
      ensures ActorBetween([], track, groups) && ReplayedWell([], track, groups)
    {
      assert WalkedWell([], [], track, 0, 0, groups);
    }

    /** A timeout or an error can end a run anywhere. */
    lemma Excused()
      ensures Shows(envelopes, Error, baseline, maxSteps) && Shows(envelopes, Timeout, baseline, maxSteps)
    {}

    lemma {:induction false} CitesAll()
      requires Valid() && Unbroken(envelopes, track)
      ensures ProducersCited(envelopes, track)
    {
      UnbrokenCites(envelopes, track);
    }

    lemma {:induction false} Concludes()
      requires Valid()
      ensures Numbered(envelopes) && |envelopes| <= maxSteps + |track| + 1
      ensures BindingsCited(envelopes, track) && VisitsIncrease(envelopes) && StuckEnds(envelopes)
    {
      RunIsBounded(envelopes, track, maxSteps, reached, actedFrom);
    }
  }

  lemma {:induction false} TrackIsActable(baseline: seq<Envelope>, k: nat)
    requires k < |ActionTrack(baseline)|
    ensures IsActable(ActionTrack(baseline)[k])
  {
    if baseline != [] {
      var front := baseline[..|baseline| - 1];
      if k < |ActionTrack(front)| { TrackIsActable(front, k); }
    }
  }
}

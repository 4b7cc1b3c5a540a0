/**
  What the live rows of a case say after any run of events: every field is told by the last event that touches it, and
  no event about one case touches another.
*/
module LiveCases {
  import opened Common
  import opened Text
  import opened Live

  datatype Timed = Timed(event: Event, now: int)

  /** The active cases after these events. */
  function ActiveCases(h: seq<Timed>): seq<LiveCase> {
    if h == [] then [] else ActiveAfter(ActiveCases(h[..|h| - 1]), h[|h| - 1].event, h[|h| - 1].now)
  }

  function Find(cases: seq<LiveCase>, id: string): Option<LiveCase> {
    var k := CaseAt(cases, id);
    if k < |cases| then Some(cases[k]) else None
  }

  /** The case as its rows show it, if it is active. */
  function Shown(h: seq<Timed>, id: string): Option<LiveCase> {
    Find(ActiveCases(h), id)
  }

  ghost predicate OneEach(cases: seq<LiveCase>) {
    forall i, j :: 0 <= i < j < |cases| ==> cases[i].id != cases[j].id
  }

  lemma {:induction false} FoundAt(cases: seq<LiveCase>, k: nat)
    requires k < |cases| && forall j :: 0 <= j < k ==> cases[j].id != cases[k].id
    ensures CaseAt(cases, cases[k].id) == k
  {
    var at := CaseAt(cases, cases[k].id);
    if at < k { assert false; }
  }

  lemma {:induction false} Missing(cases: seq<LiveCase>, id: string)
    requires forall j :: 0 <= j < |cases| ==> cases[j].id != id
    ensures CaseAt(cases, id) == |cases|
  {
    if CaseAt(cases, id) < |cases| { assert false; }
  }

  /** An event keeps one row a case, works on its own case alone, and keeps the order of the others. */
  lemma {:induction false} OneEvent(cases: seq<LiveCase>, e: Event, now: int)
    requires OneEach(cases)
    ensures OneEach(ActiveAfter(cases, e, now))
    ensures var k := CaseAt(cases, e.id);
            ActiveAfter(cases, e, now) ==
              match e
              case Warn(_, _) => cases
              case CaseEnd(_, _) => (if k < |cases| then cases[..k] + cases[k + 1..] else cases)
              case CaseStart(_, _, _, _, _) => (if k < |cases| then cases[k := Started(e, now)] else cases + [Started(e, now)])
              case _ => if k < |cases| then cases[k := Updated(cases[k], e, now)] else cases
  {
    hide Updated, Started;
    UpdatedKeepsId(cases, e, now);
  }

  lemma UpdatedKeepsId(cases: seq<LiveCase>, e: Event, now: int)
    ensures forall c: LiveCase :: Updated(c, e, now).id == c.id
    ensures e.CaseStart? ==> Started(e, now).id == e.id
  {}

  lemma {:induction false} AlwaysOneEach(h: seq<Timed>)
    ensures OneEach(ActiveCases(h))
  {
    hide ActiveAfter, OneEach;
    if h == [] {
      NobodyActive();
    } else {
      AlwaysOneEach(h[..|h| - 1]);
      OneEvent(ActiveCases(h[..|h| - 1]), h[|h| - 1].event, h[|h| - 1].now);
    }
  }

  lemma NobodyActive()
    ensures OneEach([])
  {}

  lemma {:induction false} Replaced(cases: seq<LiveCase>, k: nat, c: LiveCase, id: string)
    requires k < |cases| && c.id == cases[k].id
    ensures CaseAt(cases[k := c], id) == CaseAt(cases, id)
  {
    var i, after := CaseAt(cases, id), cases[k := c];
    if i < |cases| { FoundAt(after, i); } else { Missing(after, id); }
  }

  lemma {:induction false} Appended(cases: seq<LiveCase>, c: LiveCase, id: string)
    requires CaseAt(cases, c.id) == |cases|
    ensures CaseAt(cases + [c], id) == if id == c.id then |cases| else if CaseAt(cases, id) < |cases| then CaseAt(cases, id) else |cases| + 1
  {
    var i, after := CaseAt(cases, id), cases + [c];
    if i < |cases| { FoundAt(after, i); } else if id == c.id { FoundAt(after, |cases|); } else { Missing(after, id); }
  }

  /** Where a case stands after one event. */
  lemma {:induction false} PlaceAfter(cases: seq<LiveCase>, e: Event, now: int, id: string)
    requires OneEach(cases)
    ensures var after, i, k := ActiveAfter(cases, e, now), CaseAt(cases, id), CaseAt(cases, e.id);
            CaseAt(after, id) ==
              if e.CaseEnd? && k < |cases| then (if i == k || i == |cases| then |after| else if i < k then i else i - 1)
              else if e.CaseStart? && k == |cases| then (if id == e.id then k else if i < k then i else k + 1)
              else i
  {
    hide Updated, Started, OneEach;
    UpdatedKeepsId(cases, e, now);
    OneEvent(cases, e, now);
    var k := CaseAt(cases, e.id);
    if e.CaseEnd? {
      if k < |cases| { Removed(cases, k, id); }
    } else if e.CaseStart? {
      if k < |cases| { Replaced(cases, k, Started(e, now), id); } else { Appended(cases, Started(e, now), id); }
    } else if k < |cases| {
      Replaced(cases, k, Updated(cases[k], e, now), id);
    }
  }

  lemma {:induction false} FoundAfter(cases: seq<LiveCase>, e: Event, now: int, id: string)
    requires OneEach(cases)
    ensures var before, after := Find(cases, id), Find(ActiveAfter(cases, e, now), id);
            after ==
              if e.id != id || e.Warn? then before
              else if e.CaseStart? then Some(Started(e, now))
              else if e.CaseEnd? || before.None? then None
              else Some(Updated(before.value, e, now))
  {
    hide Updated, Started, OneEach, CaseAt;
    OneEvent(cases, e, now);
    PlaceAfter(cases, e, now, id);
    SameOrOther(cases, e.id, id);
    var k := CaseAt(cases, e.id);
    if e.CaseEnd? && k < |cases| {
      Removed(cases, k, id);
      assert ActiveAfter(cases, e, now) == cases[..k] + cases[k + 1..];
    }
  }

  /** A case after one more event: its own events start, end or update it, and the others leave it alone. */
  lemma {:induction false} OneMore(h: seq<Timed>, id: string)
    requires h != []
    ensures var before, e, now := Shown(h[..|h| - 1], id), h[|h| - 1].event, h[|h| - 1].now;
            Shown(h, id) ==
              if e.id != id || e.Warn? then before
              else if e.CaseStart? then Some(Started(e, now))
              else if e.CaseEnd? || before.None? then None
              else Some(Updated(before.value, e, now))
  {
    hide Updated, Started, ActiveAfter, OneEach, Find;
    AlwaysOneEach(h[..|h| - 1]);
    FoundAfter(ActiveCases(h[..|h| - 1]), h[|h| - 1].event, h[|h| - 1].now, id);
  }

  lemma SameOrOther(cases: seq<LiveCase>, x: string, y: string)
    ensures CaseAt(cases, x) < |cases| && CaseAt(cases, x) == CaseAt(cases, y) ==> x == y
  {}

  lemma {:induction false} Removed(cases: seq<LiveCase>, k: nat, id: string)
    requires OneEach(cases) && k < |cases|
    ensures var i, rest := CaseAt(cases, id), cases[..k] + cases[k + 1..];
            CaseAt(rest, id) == if i == k || i == |cases| then |rest| else if i < k then i else i - 1
    ensures Find(cases[..k] + cases[k + 1..], id) == if id == cases[k].id then None else Find(cases, id)
  {
    var i, rest := CaseAt(cases, id), cases[..k] + cases[k + 1..];
    if i == k || i == |cases| {
      Missing(rest, id);
    } else {
      FoundAt(rest, if i < k then i else i - 1);
    }
  }

  // ---- who has rows ----

  /** The last event of its kind about this case. */
  ghost predicate Last(h: seq<Timed>, id: string, j: nat, kind: Event -> bool) {
    && j < |h| && h[j].event.id == id && kind(h[j].event)
    && forall m :: j < m < |h| && h[m].event.id == id ==> !kind(h[m].event)
  }

  predicate Bounds(e: Event) {
    e.CaseStart? || e.CaseEnd?
  }

  lemma {:induction false} LastBefore(h: seq<Timed>, id: string, j: nat, kind: Event -> bool)
    requires Last(h, id, j, kind) && j < |h| - 1
    ensures Last(h[..|h| - 1], id, j, kind) && !(h[|h| - 1].event.id == id && kind(h[|h| - 1].event))
  {
    var front := h[..|h| - 1];
    forall m | j < m < |front| && front[m].event.id == id ensures !kind(front[m].event) { assert front[m] == h[m]; }
  }

  /** A case has rows from its start to its end. */
  lemma {:induction false} ActiveBetween(h: seq<Timed>, id: string, j: nat)
    requires Last(h, id, j, Bounds)
    ensures Shown(h, id).Some? <==> h[j].event.CaseStart?
    decreases |h|
  {
    OneMore(h, id);
    if j < |h| - 1 {
      LastBefore(h, id, j, Bounds);
      ActiveBetween(h[..|h| - 1], id, j);
    }
  }

  lemma {:induction false} NeverStarted(h: seq<Timed>, id: string)
    requires forall j :: 0 <= j < |h| && h[j].event.id == id ==> !h[j].event.CaseStart?
    ensures Shown(h, id).None?
  {
    if h != [] {
      var front := h[..|h| - 1];
      forall j | 0 <= j < |front| && front[j].event.id == id ensures !front[j].event.CaseStart? { assert front[j] == h[j]; }
      OneMore(h, id);
      NeverStarted(front, id);
    }
  }

  // ---- what the rows say ----

  predicate IsStart(e: Event) {
    e.CaseStart?
  }

  predicate SetsStep(e: Event) {
    e.CaseStart? || e.StepStart?
  }

  predicate SetsRetry(e: Event) {
    SetsStep(e) || e.RetryWait? || e.StepResult? || e.Phase?
  }

  predicate SetsPhase(e: Event) {
    SetsStep(e) || e.Phase?
  }

  predicate SetsActor(e: Event) {
    e.CaseStart? || e.HealStart? || e.HealResume?
  }

  predicate SetsMode(e: Event) {
    SetsActor(e) || e.StepStart? || (e.Phase? && PhaseDoing(e.phase).Some?)
  }

  predicate SetsSummary(e: Event) {
    SetsPhase(e) || (e.StepResult? && e.error.Some? && e.error.value != "")
  }

  predicate SetsCost(e: Event) {
    e.CaseStart? || (e.StepResult? && e.cost.Some?)
  }

  predicate SetsTokens(e: Event) {
    e.CaseStart? || (e.StepResult? && e.tokens.Some?)
  }

  predicate SetsModel(e: Event) {
    e.CaseStart? || (e.Phase? && (e.phase == "gate" || e.phase == "grading"))
  }

  /** The step is the last one started, 0 before the first. */
  lemma {:induction false} StepShown(h: seq<Timed>, id: string, j: nat)
    requires Last(h, id, j, SetsStep) && Shown(h, id).Some?
    ensures Shown(h, id).value.step == if h[j].event.StepStart? then h[j].event.step else 0
    decreases |h|
  {
    OneMore(h, id);
    if j < |h| - 1 {
      LastBefore(h, id, j, SetsStep);
      StepShown(h[..|h| - 1], id, j);
    }
  }

  /** A countdown runs from a retry to the next step, result or phase, to the deadline the retry set. */
  lemma {:induction false} RetryShown(h: seq<Timed>, id: string, j: nat)
    requires Last(h, id, j, SetsRetry) && Shown(h, id).Some?
    ensures var (e, c) := (h[j].event, Shown(h, id).value);
            c.retry == if e.RetryWait? then Some(Retry(e.status, e.attempt, e.maxAttempts, h[j].now + e.waitMs)) else None
    decreases |h|
  {
    OneMore(h, id);
    if j < |h| - 1 {
      LastBefore(h, id, j, SetsRetry);
      RetryShown(h[..|h| - 1], id, j);
    }
  }

  /** A case is in a phase from a phase to the next step. */
  lemma {:induction false} PhaseShown(h: seq<Timed>, id: string, j: nat)
    requires Last(h, id, j, SetsPhase) && Shown(h, id).Some?
    ensures Shown(h, id).value.phase <==> h[j].event.Phase?
    decreases |h|
  {
    OneMore(h, id);
    if j < |h| - 1 {
      LastBefore(h, id, j, SetsPhase);
      PhaseShown(h[..|h| - 1], id, j);
    }
  }

  /** The actor's word is the case's mode, until a heal makes it "healing" and a resume "checking". */
  lemma {:induction false} ActorShown(h: seq<Timed>, id: string, j: nat)
    requires Last(h, id, j, SetsActor) && Shown(h, id).Some?
    ensures var (e, c) := (h[j].event, Shown(h, id).value);
            c.actorMode == if e.CaseStart? then ModeDoing(e.mode) else if e.HealStart? then "healing" else "checking"
    decreases |h|
  {
    OneMore(h, id);
    if j < |h| - 1 {
      LastBefore(h, id, j, SetsActor);
      ActorShown(h[..|h| - 1], id, j);
    }
  }

  /** The word shown is a phase's own, until a step starts or a heal turns: then it is the actor's again. */
  lemma {:induction false} ModeShown(h: seq<Timed>, id: string, j: nat)
    requires Last(h, id, j, SetsMode) && Shown(h, id).Some?
    ensures var (e, c) := (h[j].event, Shown(h, id).value);
            c.mode == if e.Phase? && PhaseDoing(e.phase).Some? then PhaseDoing(e.phase).value else c.actorMode
    decreases |h|
  {
    hide PhaseDoing, ModeDoing;
    OneMore(h, id);
    if j < |h| - 1 {
      LastBefore(h, id, j, SetsMode);
      ModeShown(h[..|h| - 1], id, j);
    }
  }

  /** The summary is the last step's, with the errors after it; a phase leaves none. */
  lemma {:induction false} SummaryShown(h: seq<Timed>, id: string, j: nat)
    requires Last(h, id, j, SetsSummary) && Shown(h, id).Some?
    ensures var (e, c) := (h[j].event, Shown(h, id).value);
            match e
            case StepStart(_, _, summary) => c.summary == Some(summary)
            case StepResult(_, _, _, error) =>
              var before := Shown(h[..j], id);
              before.Some? && c.summary == Some((if before.value.summary.Some? then before.value.summary.value else "") + " — " + error.value)
            case _ => c.summary == None
    decreases |h|
  {
    OneMore(h, id);
    if j < |h| - 1 {
      LastBefore(h, id, j, SetsSummary);
      SummaryShown(h[..|h| - 1], id, j);
      assert h[..|h| - 1][..j] == h[..j];
    }
  }

  /** The cost and the tokens are the last ones reported. */
  lemma {:induction false} CostShown(h: seq<Timed>, id: string, j: nat)
    requires Last(h, id, j, SetsCost) && Shown(h, id).Some?
    ensures Shown(h, id).value.cost == if h[j].event.StepResult? then h[j].event.cost.value else 0
    decreases |h|
  {
    OneMore(h, id);
    if j < |h| - 1 {
      LastBefore(h, id, j, SetsCost);
      CostShown(h[..|h| - 1], id, j);
    }
  }

  lemma {:induction false} TokensShown(h: seq<Timed>, id: string, j: nat)
    requires Last(h, id, j, SetsTokens) && Shown(h, id).Some?
    ensures Shown(h, id).value.tokens == if h[j].event.StepResult? then h[j].event.tokens else None
    decreases |h|
  {
    OneMore(h, id);
    if j < |h| - 1 {
      LastBefore(h, id, j, SetsTokens);
      TokensShown(h[..|h| - 1], id, j);
    }
  }

  /** The grading model from the first gate or grading on, when the case names one; the actor's before. */
  lemma {:induction false} ModelShown(h: seq<Timed>, id: string, j: nat, start: nat)
    requires Last(h, id, j, SetsModel) && Last(h, id, start, IsStart) && Shown(h, id).Some?
    ensures var (e, c) := (h[start].event, Shown(h, id).value);
            && c.graderModel == e.graderModel && c.startedAt == h[start].now && c.maxSteps == e.maxSteps
            && c.model == if j > start && e.graderModel.Some? then e.graderModel else e.actorModel
    decreases |h|
  {
    OneMore(h, id);
    var front := h[..|h| - 1];
    if start < |h| - 1 {
      LastBefore(h, id, start, IsStart);
      if j < |h| - 1 {
        LastBefore(h, id, j, SetsModel);
        ModelShown(front, id, j, start);
      } else {
        var last := LastModel(front, id, start);
        ModelShown(front, id, last, start);
      }
    }
  }

  lemma {:induction false} LastModel(h: seq<Timed>, id: string, from: nat) returns (j: nat)
    requires from < |h| && h[from].event.id == id && SetsModel(h[from].event)
    ensures Last(h, id, j, SetsModel) && j >= from
    decreases |h| - from
  {
    if m: nat :| from < m < |h| && h[m].event.id == id && SetsModel(h[m].event) {
      j := LastModel(h, id, m);
    } else {
      j := from;
    }
  }

  // ---- the order of the rows ----

  /** This start gave the case its place among the rows, which it has kept since. */
  ghost predicate Entered(h: seq<Timed>, id: string, j: nat) {
    && j < |h| && h[j].event.id == id && h[j].event.CaseStart? && Shown(h[..j], id).None?
    && forall m :: j < m < |h| && h[m].event.id == id ==> !h[m].event.CaseEnd?
  }

  lemma {:induction false} EnteredBefore(h: seq<Timed>, id: string, j: nat)
    requires Entered(h, id, j) && j < |h| - 1
    ensures Entered(h[..|h| - 1], id, j)
  {
    var front := h[..|h| - 1];
    assert front[..j] == h[..j];
    forall m | j < m < |front| && front[m].event.id == id ensures !front[m].event.CaseEnd? { assert front[m] == h[m]; }
  }

  lemma {:induction false} EnteredShows(h: seq<Timed>, id: string, j: nat)
    requires Entered(h, id, j)
    ensures Shown(h, id).Some?
    decreases |h|
  {
    OneMore(h, id);
    if j < |h| - 1 {
      EnteredBefore(h, id, j);
      EnteredShows(h[..|h| - 1], id, j);
    }
  }

  /** The rows of the active cases stand in the order the cases started. */
  lemma {:induction false} RowsInStartOrder(h: seq<Timed>, x: string, y: string, i: nat, j: nat)
    requires Entered(h, x, i) && Entered(h, y, j) && i < j
    ensures CaseAt(ActiveCases(h), x) < CaseAt(ActiveCases(h), y) < |ActiveCases(h)|
    decreases |h|
  {
    hide Updated, Started, ActiveAfter, OneEach, Entered, CaseAt;
    EnteredFacts(h, x, i);
    EnteredFacts(h, y, j);
    var front, e, now := h[..|h| - 1], h[|h| - 1].event, h[|h| - 1].now;
    var cases := ActiveCases(front);
    AlwaysOneEach(front);
    EnteredBefore(h, x, i);
    EnteredShows(h, y, j);
    PlaceAfter(cases, e, now, x);
    PlaceAfter(cases, e, now, y);
    if j == |h| - 1 {
      EnteredShows(front, x, i);
    } else {
      EnteredBefore(h, y, j);
      RowsInStartOrder(front, x, y, i, j);
      SameOrOther(cases, e.id, x);
      SameOrOther(cases, e.id, y);
    }
  }

  lemma EnteredFacts(h: seq<Timed>, id: string, j: nat)
    requires Entered(h, id, j)
    ensures j < |h| && h[j].event.id == id && h[j].event.CaseStart? && Shown(h[..j], id).None?
    ensures j < |h| - 1 && h[|h| - 1].event.id == id ==> !h[|h| - 1].event.CaseEnd?
  {}

  /** Row 2i is the vitals of the i-th active case and row 2i + 1 its detail. */
  lemma {:induction false} RowsOf(cases: seq<LiveCase>, layout: Layout, width: nat, vitals: (LiveCase, Layout) -> string, i: nat)
    requires i < |cases|
    ensures Block(cases, layout, width, vitals)[2 * i] == vitals(cases[i], layout)
    ensures Block(cases, layout, width, vitals)[2 * i + 1] == Detail(cases[i], width, layout.now)
    decreases |cases|
  {
    hide Detail;
    if i < |cases| - 1 { RowsOf(cases[..|cases| - 1], layout, width, vitals, i); }
  }

  // ---- the detail row ----

  /** A countdown is the whole seconds to the deadline, rounded up: 0 exactly once the deadline has passed. */
  lemma {:induction false} CountdownIsCeiling(ms: int)
    ensures Seconds(ms) == 0 <==> ms <= 0
    ensures ms > 0 ==> 1000 * (Seconds(ms) - 1) < ms <= 1000 * Seconds(ms)
  {}

  /** A clipped text is the front of the text and an ellipsis, and fills the room. */
  lemma {:induction false} ClipKeepsFront(action: string, room: int)
    ensures var clipped := Clip(action, room);
            if |action| <= room || room <= 1 then clipped == action
            else |clipped| == room && clipped[room - 1] == '…' && clipped[..room - 1] <= action
  {}

  /** Are all characters white space? */
  predicate Blank(s: string) {
    forall i :: 0 <= i < |s| ==> IsSpace(s[i])
  }

  lemma {:induction false} InkOfBlank(s: string)
    ensures Blank(s) <==> Ink(s) == []
  {
    hide IsSpace;
    if s != [] {
      InkOfBlank(s[1..]);
      if Blank(s) { assert forall i :: 0 <= i < |s[1..]| ==> s[1..][i] == s[i + 1]; }
      if Ink(s) == [] { assert forall i :: 1 <= i < |s| ==> s[i] == s[1..][i - 1]; }
    }
  }

  /**
    The detail row's text is one line and is never empty: the countdown while a retry is pending, else the ink of the
    summary; and where the summary has no ink, the phase, or that the case is starting.
  */
  lemma {:induction false} ActionSays(c: LiveCase, now: int)
    ensures var said := if c.retry.Some? then RetryLabel(c.retry.value, now) else if c.summary.Some? then c.summary.value else "";
            Action(c, now) == if !Blank(said) then OneLine(said) else if c.phase then c.mode + "…" else "starting…"
    ensures Action(c, now) != []
    ensures c.retry.Some? ==> !Blank(RetryLabel(c.retry.value, now))
  {
    hide OneLine, IsSpace, Seconds;
    var said := if c.retry.Some? then RetryLabel(c.retry.value, now) else if c.summary.Some? then c.summary.value else "";
    OneLineIsOneRow(said);
    InkOfBlank(said);
    InkOfBlank(OneLine(said));
    if c.retry.Some? { LabelSpeaks(c.retry.value, now); }
    if OneLine(said) != "" { assert !IsSpace(OneLine(said)[0]); }
  }

  lemma {:induction false} LabelSpeaks(r: Retry, now: int)
    ensures !Blank(RetryLabel(r, now))
    ensures RetryLabel(r, now) != [] && RetryLabel(r, now)[|RetryLabel(r, now)| - 1] == 's'
  {
    var said := RetryLabel(r, now);
    assert said[|said| - 1] == 's';
    assert !IsSpace('s');
  }
}

/**
  The live reporter: one block of two rows per active case, redrawn in place below the
  permanent lines of finished cases and warnings.
*/
module Live {
  import opened Common
  import opened Text
  import opened Screen

  datatype Retry = Retry(status: Option<nat>, attempt: nat, maxAttempts: nat, until: int)

  datatype LiveCase = LiveCase(
    id: string, mode: string, actorMode: string, graderModel: Option<string>, model: Option<string>, step: nat, maxSteps: nat,
    summary: Option<string>, retry: Option<Retry>, phase: bool, tokens: Option<nat>, cost: nat, startedAt: int)

  datatype Event =
    | CaseStart(id: string, mode: string, graderModel: Option<string>, actorModel: Option<string>, maxSteps: nat)
    | StepStart(id: string, step: nat, summary: string)
    | RetryWait(id: string, status: Option<nat>, attempt: nat, maxAttempts: nat, waitMs: nat)
    | StepResult(id: string, cost: Option<nat>, tokens: Option<nat>, error: Option<string>)
    | HealStart(id: string)
    | HealResume(id: string)
    | Phase(id: string, phase: string)
    | CaseEnd(id: string, report: seq<string>)
    | Warn(id: string, message: seq<string>)

  const REDRAW_MS := 100
  const SPINNER_FRAMES := 8

  // ---- words ----

  function ModeDoing(mode: string): string {
    if mode == "record" then "recording" else if mode == "act" then "checking" else if mode == "heal" then "healing"
    else if mode == "explore" then "exploring" else mode
  }

  function PhaseDoing(phase: string): Option<string> {
    if phase == "setup" then Some("setting up")
    else if phase == "observing" then Some("observing")
    else if phase == "gate" then Some("evaluating gate")
    else if phase == "finishing" then Some("saving")
    else if phase == "grading" then Some("grading")
    else None
  }

  function Seconds(ms: int): nat {
    if ms <= 0 then 0 else (ms + 999) / 1000
  }

  function RetryLabel(r: Retry, now: int): string {
    (if r.status == Some(429) then "429 rate-limited"
     else if r.status.Some? && r.status.value != 0 then NatText(r.status.value) + " error" else "network error")
    + " — retry " + NatText(r.attempt) + "/" + NatText(r.maxAttempts) + ", retrying in " + NatText(Seconds(r.until - now)) + "s"
  }

  /** Every run of white space as one space. */
  function Squeeze(s: string): string {
    if s == [] then []
    else if IsSpace(s[0]) then (if |s| > 1 && IsSpace(s[1]) then Squeeze(s[1..]) else " " + Squeeze(s[1..]))
    else [s[0]] + Squeeze(s[1..])
  }

  function OneLine(s: string): string {
    Trim(Squeeze(s))
  }

  /** No two white-space characters side by side, and every one a space. */
  ghost predicate Single(s: string) {
    && (forall k :: 0 <= k < |s| && IsSpace(s[k]) ==> s[k] == ' ')
    && (forall k :: 0 <= k < |s| - 1 ==> !(IsSpace(s[k]) && IsSpace(s[k + 1])))
  }

  /** The characters that are no white space, in order. */
  function Ink(s: string): string {
    if s == [] then [] else (if IsSpace(s[0]) then [] else [s[0]]) + Ink(s[1..])
  }

  lemma {:induction false} SqueezeSpaces(s: string)
    ensures Single(Squeeze(s)) && Ink(Squeeze(s)) == Ink(s)
    ensures s != [] ==> Squeeze(s) != [] && (IsSpace(Squeeze(s)[0]) <==> IsSpace(s[0]))
  {
    hide IsSpace;
    if s != [] {
      SqueezeSpaces(s[1..]);
      SpaceIsSpace();
      var rest := Squeeze(s[1..]);
      if !(IsSpace(s[0]) && |s| > 1 && IsSpace(s[1])) {
        var first := if IsSpace(s[0]) then ' ' else s[0];
        assert Squeeze(s) == [first] + rest && (Squeeze(s))[1..] == rest;
        assert forall k :: 0 < k < |Squeeze(s)| ==> Squeeze(s)[k] == rest[k - 1];
      }
    }
  }

  lemma SpaceIsSpace()
    ensures IsSpace(' ')
  {}

  lemma {:induction false} TrimStartKeeps(s: string)
    requires Single(s)
    ensures Single(TrimStart(s)) && Ink(TrimStart(s)) == Ink(s) && (TrimStart(s) != [] ==> !IsSpace(TrimStart(s)[0]))
  {
    hide IsSpace;
    if s != [] && IsSpace(s[0]) { TrimStartKeeps(s[1..]); }
  }

  lemma {:induction false} InkAppend(a: string, c: char)
    ensures Ink(a + [c]) == Ink(a) + if IsSpace(c) then [] else [c]
  {
    hide IsSpace;
    if a == [] {
      assert [c][1..] == [];
    } else {
      assert (a + [c])[1..] == a[1..] + [c];
      InkAppend(a[1..], c);
    }
  }

  lemma {:induction false} TrimEndKeeps(s: string)
    requires Single(s)
    ensures TrimEnd(s) <= s && Single(TrimEnd(s)) && Ink(TrimEnd(s)) == Ink(s) && (TrimEnd(s) != [] ==> !IsSpace(TrimEnd(s)[|TrimEnd(s)| - 1]))
  {
    hide IsSpace;
    if s != [] && IsSpace(s[|s| - 1]) {
      var front := s[..|s| - 1];
      TrimEndKeeps(front);
      InkAppend(front, s[|s| - 1]);
      assert s == front + [s[|s| - 1]];
    }
  }

  /** One line: the same ink, single spaces inside it, bare edges; in particular one row. */
  lemma {:induction false} OneLineIsOneRow(s: string)
    ensures Single(OneLine(s)) && Ink(OneLine(s)) == Ink(s) && '\n' !in OneLine(s)
    ensures OneLine(s) != [] ==> !IsSpace(OneLine(s)[0]) && !IsSpace(OneLine(s)[|OneLine(s)| - 1])
  {
    SqueezeSpaces(s);
    TrimStartKeeps(Squeeze(s));
    TrimEndKeeps(TrimStart(Squeeze(s)));
    assert forall k :: 0 <= k < |OneLine(s)| ==> OneLine(s)[k] != '\n';
  }

  // ---- one case's rows ----

  const ELLIPSIS := "…"
  const INDENT := "  "

  /** The volatile part of the detail row, before it is clipped. */
  function Action(c: LiveCase, now: int): string {
    var text := OneLine(if c.retry.Some? then RetryLabel(c.retry.value, now) else if c.summary.Some? then c.summary.value else "");
    if text != "" then text else if c.phase then c.mode + ELLIPSIS else "starting…"
  }

  /** Columns left for the action. */
  function Room(width: nat): int {
    (width - 1) - |INDENT| - 2
  }

  function Clip(action: string, room: int): string {
    if |action| > room && room > 1 then action[..room - 1] + ELLIPSIS else action
  }

  function Detail(c: LiveCase, width: nat, now: int): string {
    INDENT + "↳ " + Clip(Action(c, now), Room(width))
  }

  /** The detail row leaves the last column free exactly when there is room to clip in or nothing to clip. */
  lemma {:induction false} DetailFits(c: LiveCase, width: nat, now: int)
    ensures |Detail(c, width, now)| <= width - 1 <==> Room(width) > 1 || |Action(c, now)| <= Room(width)
  {
    assert |ELLIPSIS| == 1 && |"↳ "| == 2;
  }

  /** The frame, the widest id and the widest mode word, which set the columns of a row. */
  datatype Layout = Layout(frame: nat, idWidth: nat, modeWidth: nat, now: int)

  function Widest(texts: seq<string>): nat {
    if texts == [] then 0 else Max(Widest(texts[..|texts| - 1]), |texts[|texts| - 1]|)
  }

  function Ids(cases: seq<LiveCase>): seq<string> {
    seq(|cases|, i requires 0 <= i < |cases| => cases[i].id)
  }

  function Modes(cases: seq<LiveCase>): seq<string> {
    seq(|cases|, i requires 0 <= i < |cases| => cases[i].mode)
  }

  /** The live rows of all active cases, two a case, in the order they started. */
  function Block(cases: seq<LiveCase>, layout: Layout, width: nat, vitals: (LiveCase, Layout) -> string): (r: seq<string>)
    ensures |r| == 2 * |cases|
  {
    if cases == [] then []
    else
      var last := cases[|cases| - 1];
      Block(cases[..|cases| - 1], layout, width, vitals) + [vitals(last, layout), Detail(last, width, layout.now)]
  }

  // ---- one event's effect on a case ----

  function CaseAt(cases: seq<LiveCase>, id: string): (k: nat)
    ensures k <= |cases|
    ensures k < |cases| ==> cases[k].id == id
    ensures forall j :: 0 <= j < k ==> cases[j].id != id
  {
    if cases == [] || cases[0].id == id then 0 else 1 + CaseAt(cases[1..], id)
  }

  function Started(e: Event, now: int): LiveCase
    requires e.CaseStart?
  {
    LiveCase(e.id, ModeDoing(e.mode), ModeDoing(e.mode), e.graderModel, e.actorModel, 0, e.maxSteps, None, None, false, None, 0, now)
  }

  /** The state of an active case after an event about it. */
  function Updated(c: LiveCase, e: Event, now: int): LiveCase {
    match e
    case StepStart(_, step, summary) => c.(step := step, summary := Some(summary), retry := None, phase := false, mode := c.actorMode)
    case RetryWait(_, status, attempt, maxAttempts, waitMs) => c.(retry := Some(Retry(status, attempt, maxAttempts, now + waitMs)))
    case StepResult(_, cost, tokens, error) =>
      c.(retry := None,
         cost := if cost.Some? then cost.value else c.cost,
         tokens := if tokens.Some? then tokens else c.tokens,
         summary := if error.Some? && error.value != "" then Some((if c.summary.Some? then c.summary.value else "") + " — " + error.value)
                    else c.summary)
    case HealStart(_) => c.(mode := ModeDoing("heal"), actorMode := ModeDoing("heal"))
    case HealResume(_) => c.(mode := ModeDoing("act"), actorMode := ModeDoing("act"))
    case Phase(_, phase) =>
      c.(mode := if PhaseDoing(phase).Some? then PhaseDoing(phase).value else c.mode,
         model := if (phase == "gate" || phase == "grading") && c.graderModel.Some? then c.graderModel else c.model,
         summary := None, retry := None, phase := true)
    case _ => c
  }

  function WithoutCase(cases: seq<LiveCase>, id: string): seq<LiveCase> {
    var k := CaseAt(cases, id);
    if k == |cases| then cases else cases[..k] + cases[k + 1..]
  }

  /** The active cases after an event. */
  function ActiveAfter(cases: seq<LiveCase>, e: Event, now: int): seq<LiveCase> {
    var k := CaseAt(cases, e.id);
    match e
    case CaseStart(_, _, _, _, _) => if k < |cases| then cases[k := Started(e, now)] else cases + [Started(e, now)]
    case CaseEnd(id, _) => WithoutCase(cases, id)
    case Warn(_, _) => cases
    case _ => if k < |cases| then cases[k := Updated(cases[k], e, now)] else cases
  }

  /** The permanent lines an event prints. */
  function Printed(e: Event): seq<string> {
    match e
    case CaseEnd(_, report) => report
    case Warn(_, message) => message
    case _ => []
  }

  /** An event that asks for a redraw at once; the others wait for the next tick. */
  predicate DrawsNow(e: Event, known: bool) {
    match e
    case StepStart(_, _, _) => false
    case StepResult(_, _, _, _) => false
    case RetryWait(_, _, _, _, _) => known
    case Phase(_, _) => known
    case _ => true
  }

  class LiveReporter {
    const width: nat
    const height: nat
    const vitals: (LiveCase, Layout) -> string
    var screen: Terminal
    var active: seq<LiveCase>
    var drawn: nat
    var frame: nat
    var lastDraw: int
    ghost var permanent: seq<string>
    ghost var live: seq<string>
    ghost var fitted: bool

    /** As long as every live region drawn so far fitted the screen, its rows are the permanent ones and the last-drawn live ones. */
    ghost predicate Valid()
      reads this
    {
      && width > 0 && Placed(screen) && screen.height == height && drawn == |live|
      && (fitted ==> Shows(screen, permanent, live))
    }

    constructor (width: nat, height: nat, vitals: (LiveCase, Layout) -> string)
      requires width > 0 && height > 0
      ensures Valid() && fitted && permanent == [] && live == [] && active == []
      ensures this.width == width && this.height == height && this.vitals == vitals
    {
      this.width := width;
      this.height := height;
      this.vitals := vitals;
      screen := Terminal([], 0, 0, height);
      active, drawn, frame, lastDraw := [], 0, 0, 0;
      permanent, live, fitted := [], [], true;
    }

    ghost function Rows(now: int): seq<string>
      reads this
    {
      Block(active, Layout(frame, Widest(Ids(active)), Widest(Modes(active)), now), width, vitals)
    }

    /** Rewrite the live region, unless one was drawn too recently and nothing forces it. */
    method Draw(force: bool, now: int)
      requires Valid()
      modifies this`screen, this`drawn, this`frame, this`lastDraw, this`live, this`fitted
      ensures Valid() && (force || now - old(lastDraw) >= REDRAW_MS ==> live == Rows(now))
      ensures !force && now - old(lastDraw) < REDRAW_MS ==> live == old(live) && screen == old(screen)
      ensures force || now - old(lastDraw) >= REDRAW_MS ==> (fitted <==> old(fitted) && RegionFits(live, width, height))
      ensures !force && now - old(lastDraw) < REDRAW_MS ==> fitted == old(fitted)
    {
      hide Block, DrawRegion, RegionFits, Shows, Widest, Ids, Modes;
      if !force && now - lastDraw < REDRAW_MS { return; }
      lastDraw := now;
      frame := (frame + 1) % SPINNER_FRAMES;
      var layout := Layout(frame, Widest(Ids(active)), Widest(Modes(active)), now);
      var lines := Block(active, layout, width, vitals);
      if fitted && RegionFits(lines, width, height) { DrawKeepsPermanent(screen, permanent, live, lines, width); }
      screen := Rewrite(screen, drawn, lines, width);
      fitted := fitted && RegionFits(lines, width, height);
      live := lines;
      drawn := |lines|;
    }

    method Erase()
      requires Valid()
      modifies this`screen, this`drawn, this`live
      ensures Valid() && live == [] && drawn == 0
    {
      hide Shows;
      if fitted { EraseKeepsPermanent(screen, permanent, live); }
      if drawn == 0 {
        NothingToErase(live);
        live := [];
        return;
      }
      screen := EraseBelow(Up(screen, drawn));
      live := [];
      drawn := 0;
    }

    /** A permanent text above the live region, which is redrawn below it. */
    method Print(text: seq<string>, now: int)
      requires Valid()
      modifies this`screen, this`drawn, this`frame, this`lastDraw, this`live, this`fitted, this`permanent
      ensures Valid() && live == Rows(now) && permanent == old(permanent) + Wrapped(text, width)
      ensures fitted <==> old(fitted) && RegionFits(live, width, height)
    {
      hide Wrapped, RegionFits;
      Erase();
      var i := 0;
      ghost var before := permanent;
      NothingWrapped(width);
      assert text[..0] == [] && before + [] == before;
      while i < |text|
        invariant 0 <= i <= |text| && Valid() && live == [] && fitted == old(fitted)
        invariant permanent == before + Wrapped(text[..i], width)
      {
        assert text[..i + 1][..i] == text[..i];
        WrappedMore(text, i, width);
        if fitted { WriteKeepsPermanent(screen, permanent, text[i], width); }
        screen := Write(screen, text[i], width);
        permanent := permanent + Chunks(text[i], width);
        i := i + 1;
      }
      assert text[..i] == text;
      Draw(true, now);
    }

    method OnEvent(e: Event, now: int)
      requires Valid()
      modifies this
      ensures Valid()
      ensures active == ActiveAfter(old(active), e, now)
      ensures permanent == old(permanent) + Wrapped(Printed(e), width)
      ensures DrawsNow(e, CaseAt(old(active), e.id) < |old(active)|) ==> live == Rows(now)
      ensures !DrawsNow(e, CaseAt(old(active), e.id) < |old(active)|) ==>
                if CaseAt(old(active), e.id) < |old(active)| && now - old(lastDraw) >= REDRAW_MS then live == Rows(now)
                else live == old(live) && screen == old(screen)
      ensures old(fitted) && RegionFits(live, width, height) ==> fitted
    {
      hide Wrapped, RegionFits, Block, Shows;
      NothingWrapped(width);
      assert permanent + [] == permanent;
      var k := CaseAt(active, e.id);
      match e {
        case CaseStart(_, _, _, _, _) =>
          active := if k < |active| then active[k := Started(e, now)] else active + [Started(e, now)];
          Draw(true, now);
        case CaseEnd(id, report) =>
          active := WithoutCase(active, id);
          Print(report, now);
        case Warn(_, message) =>
          Print(message, now);
        case StepStart(_, _, _) =>
          if k == |active| { return; }
          active := active[k := Updated(active[k], e, now)];
          Draw(false, now);
        case StepResult(_, _, _, _) =>
          if k == |active| { return; }
          active := active[k := Updated(active[k], e, now)];
          Draw(false, now);
        case HealStart(_) =>
          if k < |active| { active := active[k := Updated(active[k], e, now)]; }
          Draw(true, now);
        case HealResume(_) =>
          if k < |active| { active := active[k := Updated(active[k], e, now)]; }
          Draw(true, now);
        case _ =>
          if k == |active| { return; }
          active := active[k := Updated(active[k], e, now)];
          Draw(true, now);
      }
    }

    /** The end of the run: the live region gone, the digest and the summary below everything printed before. */
    method Finish(report: seq<string>)
      requires Valid()
      modifies this
      ensures Valid() && live == [] && permanent == old(permanent) + Wrapped(report, width) && fitted == old(fitted)
    {
      hide Wrapped;
      Erase();
      var i := 0;
      ghost var before := permanent;
      NothingWrapped(width);
      assert report[..0] == [] && before + [] == before;
      while i < |report|
        invariant 0 <= i <= |report| && Valid() && live == [] && fitted == old(fitted)
        invariant permanent == before + Wrapped(report[..i], width)
      {
        assert report[..i + 1][..i] == report[..i];
        WrappedMore(report, i, width);
        if fitted { WriteKeepsPermanent(screen, permanent, report[i], width); }
        screen := Write(screen, report[i], width);
        permanent := permanent + Chunks(report[i], width);
        i := i + 1;
      }
      assert report[..i] == report;
    }
  }

  /** The cursor commands of one redraw: up, every line rewritten, and what an older, longer region left erased. */
  method Rewrite(screen: Terminal, drawn: nat, lines: seq<string>, width: nat) returns (t: Terminal)
    requires Placed(screen) && width > 0
    ensures t == DrawRegion(screen, drawn, lines, width)
  {
    hide DrawRegion, Redraw;
    DrawIs(screen, drawn, lines, width);
    t := if drawn > 0 then Up(screen, drawn) else screen;
    ghost var from := t;
    var i := 0;
    while i < |lines|
      invariant 0 <= i <= |lines| && Placed(t)
      invariant t == RedrawAll(from, lines[..i], width)
    {
      assert lines[..i + 1][..i] == lines[..i];
      t := Redraw(t, lines[i], width);
      i := i + 1;
    }
    assert lines[..i] == lines;
    if drawn > |lines| {
      t := EraseBelow(t);
    }
  }

  lemma {:induction false} DrawIs(t: Terminal, drawn: nat, lines: seq<string>, width: nat)
    requires Placed(t) && width > 0
    ensures DrawRegion(t, drawn, lines, width) ==
            var after := RedrawAll(if drawn > 0 then Up(t, drawn) else t, lines, width);
            if drawn > |lines| then EraseBelow(after) else after
  {
    hide RedrawAll;
  }

  lemma NothingToErase(live: seq<string>)
    ensures |live| == 0 ==> live == []
  {}

  lemma NothingWrapped(width: nat)
    requires width > 0
    ensures Wrapped([], width) == []
  {}

  lemma {:induction false} WrappedMore(text: seq<string>, i: nat, width: nat)
    requires i < |text| && width > 0
    ensures Wrapped(text[..i + 1], width) == Wrapped(text[..i], width) + Chunks(text[i], width)
  {
    assert text[..i + 1][..i] == text[..i];
  }
}

/**
  A terminal as the live reporter uses it: rows of text, a screen of fixed height over the last of
  them, a cursor at the start of one, and the four things it is told to do. Text longer than the
  width flows onto further rows; a newline on the last row scrolls; what has scrolled away is out
  of the cursor's reach.
*/
module Screen {
  import opened Common

  /** Everything written so far, the row the cursor is on, and the first row on the screen; rows from |rows| on are blank. */
  datatype Terminal = Terminal(rows: seq<string>, row: nat, top: nat, height: nat)

  /** The cursor is on the screen. */
  predicate Placed(t: Terminal) {
    t.top <= t.row < t.top + t.height && t.row <= |t.rows|
  }

  /** The first row on the screen once the cursor has been down to this row. */
  function Scrolled(t: Terminal, row: nat): nat {
    Max(t.top, row + 1 - t.height)
  }

  /** The rows a text takes at this width. */
  function Chunks(text: string, width: nat): (r: seq<string>)
    requires width > 0
    ensures |r| >= 1 && (|r| == 1 <==> |text| <= width)
    ensures |text| <= width ==> r == [text]
    decreases |text|
  {
    if |text| <= width then [text] else [text[..width]] + Chunks(text[width..], width)
  }

  function Spelled(rows: seq<string>): string {
    if rows == [] then "" else rows[0] + Spelled(rows[1..])
  }

  ghost predicate Full(rows: seq<string>, width: nat) {
    forall k :: 0 <= k < |rows| - 1 ==> |rows[k]| == width
  }

  lemma {:induction false} FullMore(row: string, rows: seq<string>, width: nat)
    requires Full(rows, width) && |row| == width
    ensures Full([row] + rows, width) && Spelled([row] + rows) == row + Spelled(rows)
  {
    assert ([row] + rows)[1..] == rows;
  }

  lemma {:induction false} FullOne(row: string, width: nat)
    ensures Full([row], width) && Spelled([row]) == row
  {
    assert Spelled([row][1..]) == "";
  }

  /** The rows of a text spell it, and all but the last are full. */
  lemma {:induction false} ChunksSpell(text: string, width: nat)
    requires width > 0
    ensures var rows := Chunks(text, width);
            && Spelled(rows) == text && Full(rows, width)
            && |rows[|rows| - 1]| <= width && (text != "" ==> rows[|rows| - 1] != "")
    decreases |text|
  {
    hide Full, Spelled;
    if |text| <= width {
      FullOne(text, width);
    } else {
      ChunksSpell(text[width..], width);
      FullMore(text[..width], Chunks(text[width..], width), width);
      assert text == text[..width] + text[width..];
    }
  }

  predicate Fits(text: string, width: nat) {
    |text| <= width
  }

  predicate AllFit(lines: seq<string>, width: nat) {
    forall k :: 0 <= k < |lines| ==> Fits(lines[k], width)
  }

  /** All rows a list of lines takes. */
  function Wrapped(lines: seq<string>, width: nat): seq<string>
    requires width > 0
  {
    if lines == [] then [] else Wrapped(lines[..|lines| - 1], width) + Chunks(lines[|lines| - 1], width)
  }

  /** A row written over: what stood further right stays. */
  function Over(text: string, below: string): string {
    text + if |text| < |below| then below[|text|..] else ""
  }

  function RowAt(rows: seq<string>, k: nat): string {
    if k < |rows| then rows[k] else ""
  }

  function SetRow(rows: seq<string>, k: nat, text: string): (r: seq<string>)
    requires k <= |rows|
    ensures |r| == if k < |rows| then |rows| else k + 1
    ensures forall j :: 0 <= j < |r| ==> r[j] == if j == k then text else rows[j]
  {
    rows[..k] + [text] + if k < |rows| then rows[k + 1..] else []
  }

  /** Write a row where the cursor is, and a newline. */
  function PutRow(t: Terminal, text: string): (r: Terminal)
    requires Placed(t)
    ensures Placed(r) && r.row == t.row + 1
  {
    Terminal(SetRow(t.rows, t.row, text), t.row + 1, Scrolled(t, t.row + 1), t.height)
  }

  /** Write chunks downwards from the cursor, each over what is there. */
  function WriteOver(t: Terminal, chunks: seq<string>): (r: Terminal)
    requires Placed(t)
    ensures Placed(r) && r.row == t.row + |chunks| && r.height == t.height && r.top == Scrolled(t, r.row)
    decreases |chunks|
  {
    if chunks == [] then t else WriteOver(PutRow(t, Over(chunks[0], RowAt(t.rows, t.row))), chunks[1..])
  }

  /** Carriage return, erase the row, write a line, newline. */
  function Redraw(t: Terminal, line: string, width: nat): (r: Terminal)
    requires Placed(t) && width > 0
    ensures Placed(r) && r.row == t.row + |Chunks(line, width)| && r.height == t.height && r.top == Scrolled(t, r.row)
  {
    WriteOver(t.(rows := SetRow(t.rows, t.row, "")), Chunks(line, width))
  }

  /** Write a line where the cursor is, and a newline. */
  function Write(t: Terminal, line: string, width: nat): (r: Terminal)
    requires Placed(t) && width > 0
    ensures Placed(r) && r.row == t.row + |Chunks(line, width)| && r.height == t.height && r.top == Scrolled(t, r.row)
  {
    WriteOver(t, Chunks(line, width))
  }

  /** Move up; the first row on the screen is as far as it goes. */
  function Up(t: Terminal, n: nat): (r: Terminal)
    requires Placed(t)
    ensures Placed(r)
  {
    t.(row := Max(t.top, t.row - n))
  }

  /** Erase from the start of the cursor's row to the end of the screen. */
  function EraseBelow(t: Terminal): (r: Terminal)
    requires Placed(t)
    ensures Placed(r)
  {
    t.(rows := t.rows[..t.row])
  }

  // ---- rows that fit ----

  lemma {:induction false} RedrawFits(t: Terminal, line: string, width: nat)
    requires Placed(t) && width > 0 && Fits(line, width)
    ensures Redraw(t, line, width) == PutRow(t, line)
  {
    var blank := t.(rows := SetRow(t.rows, t.row, ""));
    assert [line][1..] == [];
    assert Over(line, "") == line;
    assert WriteOver(blank, [line]) == WriteOver(PutRow(blank, line), []);
    assert SetRow(blank.rows, t.row, line) == SetRow(t.rows, t.row, line);
  }

  /** The terminal with rows appended. */
  function Appended(t: Terminal, rows: seq<string>): Terminal {
    Terminal(t.rows + rows, |t.rows| + |rows|, Scrolled(t, |t.rows| + |rows|), t.height)
  }

  /** At the end of the rows, writing is appending. */
  lemma {:induction false} WriteAppends(t: Terminal, chunks: seq<string>)
    requires Placed(t) && t.row == |t.rows|
    ensures WriteOver(t, chunks) == Appended(t, chunks)
    decreases |chunks|
  {
    if chunks == [] {
      assert t.rows + [] == t.rows;
    } else {
      assert Over(chunks[0], "") == chunks[0];
      var next := PutRow(t, chunks[0]);
      assert next.rows == t.rows + [chunks[0]];
      WriteAppends(next, chunks[1..]);
      assert t.rows + [chunks[0]] + chunks[1..] == t.rows + chunks;
    }
  }

  lemma {:induction false} WriteLine(t: Terminal, line: string, width: nat)
    requires Placed(t) && t.row == |t.rows| && width > 0
    ensures Write(t, line, width) == Appended(t, Chunks(line, width))
  {
    WriteAppends(t, Chunks(line, width));
  }

  lemma {:induction false} RedrawAtEnd(t: Terminal, line: string, width: nat)
    requires Placed(t) && t.row == |t.rows| && width > 0
    ensures Redraw(t, line, width) == Appended(t, Chunks(line, width))
  {
    var chunks := Chunks(line, width);
    var blank := t.(rows := SetRow(t.rows, t.row, ""));
    assert blank.rows == t.rows + [""];
    assert Over(chunks[0], "") == chunks[0];
    var next := PutRow(blank, chunks[0]);
    assert next.rows == t.rows + [chunks[0]];
    WriteAppends(next, chunks[1..]);
    assert WriteOver(blank, chunks) == WriteOver(next, chunks[1..]);
    assert t.rows + [chunks[0]] + chunks[1..] == t.rows + chunks;
  }

  // ---- drawing a region ----

  function RedrawAll(t: Terminal, lines: seq<string>, width: nat): (r: Terminal)
    requires Placed(t) && width > 0
    ensures Placed(r) && r.height == t.height
  {
    if lines == [] then t else Redraw(RedrawAll(t, lines[..|lines| - 1], width), lines[|lines| - 1], width)
  }

  /** The region redrawn: up to its first row, every line rewritten, and what is left below erased. */
  function DrawRegion(t: Terminal, drawn: nat, lines: seq<string>, width: nat): (r: Terminal)
    requires Placed(t) && width > 0
    ensures Placed(r) && r.height == t.height
  {
    var after := RedrawAll(Up(t, drawn), lines, width);
    if drawn > |lines| then EraseBelow(after) else after
  }

  function EraseRegion(t: Terminal, drawn: nat): (r: Terminal)
    requires Placed(t)
    ensures Placed(r) && r.height == t.height
  {
    EraseBelow(Up(t, drawn))
  }

  /** A region the cursor can come back to the start of: no line wraps, and it leaves a row of the screen free. */
  predicate RegionFits(lines: seq<string>, width: nat, height: nat) {
    AllFit(lines, width) && |lines| < height
  }

  /** The rows are the permanent ones and below them the live ones, the cursor at the end, no live row scrolled away. */
  ghost predicate Shows(t: Terminal, permanent: seq<string>, live: seq<string>) {
    Placed(t) && t.rows == permanent + live && t.row == |t.rows| && t.top <= |permanent|
  }

  lemma SetAfter(p: seq<string>, rest: seq<string>, text: string)
    ensures SetRow(p + rest, |p|, text) == p + [text] + (if rest == [] then [] else rest[1..])
  {}

  /** The rows of the old region that n new ones have not reached. */
  function Leftover(live: seq<string>, n: nat): seq<string> {
    if n < |live| then live[n..] else []
  }

  lemma {:induction false} RedrawsOver(t: Terminal, permanent: seq<string>, live: seq<string>, lines: seq<string>, width: nat)
    requires width > 0 && AllFit(lines, width) && Placed(t) && t.rows == permanent + live && t.row == |permanent|
    ensures RedrawAll(t, lines, width)
         == Terminal(permanent + lines + Leftover(live, |lines|), |permanent| + |lines|, Scrolled(t, |permanent| + |lines|), t.height)
  {
    hide Redraw, SetRow, Fits;
    if lines == [] {
      assert permanent + [] + Leftover(live, 0) == permanent + live;
    } else {
      var front, last := lines[..|lines| - 1], lines[|lines| - 1];
      RedrawsOver(t, permanent, live, front, width);
      RedrawFits(RedrawAll(t, front, width), last, width);
      SetAfter(permanent + front, Leftover(live, |front|), last);
      assert permanent + front + [last] == permanent + lines;
    }
  }

  /** Redrawing replaces the live rows and touches nothing above them. */
  lemma {:induction false} DrawKeepsPermanent(t: Terminal, permanent: seq<string>, live: seq<string>, lines: seq<string>, width: nat)
    requires width > 0 && Shows(t, permanent, live) && RegionFits(lines, width, t.height)
    ensures Shows(DrawRegion(t, |live|, lines, width), permanent, lines)
  {
    hide RedrawAll;
    RedrawsOver(Up(t, |live|), permanent, live, lines, width);
    assert permanent + lines + [] == permanent + lines;
    assert (permanent + lines + Leftover(live, |lines|))[..|permanent| + |lines|] == permanent + lines;
  }

  lemma {:induction false} EraseKeepsPermanent(t: Terminal, permanent: seq<string>, live: seq<string>)
    requires Shows(t, permanent, live)
    ensures Shows(EraseRegion(t, |live|), permanent, [])
  {
    assert (permanent + live)[..|permanent|] == permanent && permanent + [] == permanent;
  }

  /** Writing below the permanent rows adds to them. */
  lemma {:induction false} WriteKeepsPermanent(t: Terminal, permanent: seq<string>, line: string, width: nat)
    requires width > 0 && Shows(t, permanent, [])
    ensures Shows(Write(t, line, width), permanent + Chunks(line, width), [])
  {
    hide Chunks;
    assert permanent + [] == permanent;
    WriteLine(t, line, width);
    assert permanent + Chunks(line, width) + [] == permanent + Chunks(line, width);
  }

  // ---- rows that do not fit ----

  lemma {:induction false} DrawWraps(t: Terminal, lines: seq<string>, width: nat)
    requires width > 0 && Placed(t) && t.row == |t.rows|
    ensures RedrawAll(t, lines, width) == Appended(t, Wrapped(lines, width))
  {
    hide Redraw, Chunks, Appended;
    if lines == [] {
      NothingAppended(t);
    } else {
      var front, last := lines[..|lines| - 1], lines[|lines| - 1];
      DrawWraps(t, front, width);
      AppendedMore(t, Wrapped(front, width), Chunks(last, width));
      RedrawAtEnd(RedrawAll(t, front, width), last, width);
    }
  }

  lemma {:induction false} NothingAppended(t: Terminal)
    requires Placed(t) && t.row == |t.rows|
    ensures Appended(t, []) == t
  {
    assert t.rows + [] == t.rows;
  }

  lemma {:induction false} AppendedMore(t: Terminal, a: seq<string>, b: seq<string>)
    requires Placed(t) && t.row == |t.rows|
    ensures var u := Appended(t, a); Placed(u) && u.row == |u.rows| && Appended(u, b) == Appended(t, a + b)
  {
    assert t.rows + a + b == t.rows + (a + b);
  }

  lemma {:induction false} WrappedCounts(lines: seq<string>, width: nat)
    requires width > 0
    ensures |Wrapped(lines, width)| >= |lines| && (|Wrapped(lines, width)| == |lines| <==> AllFit(lines, width))
  {
    if lines != [] {
      var front, last := lines[..|lines| - 1], lines[|lines| - 1];
      WrappedCounts(front, width);
      if AllFit(lines, width) {
        assert Fits(lines[|lines| - 1], width) && forall k :: 0 <= k < |front| ==> front[k] == lines[k];
      } else if AllFit(front, width) {
        var k :| 0 <= k < |lines| && !Fits(lines[k], width);
        assert k < |front| ==> front[k] == lines[k];
      }
    }
  }

  /**
    Draw a region below everything and erase it: the rows are what they were exactly when every line fitted and the
    region was shorter than the screen; a line that wraps, or a row scrolled away, leaves rows behind.
  */
  lemma {:induction false} EraseUndoesDraw(t: Terminal, lines: seq<string>, width: nat)
    requires width > 0 && Placed(t) && t.row == |t.rows| && lines != []
    ensures EraseRegion(DrawRegion(t, 0, lines, width), |lines|).rows == t.rows <==> RegionFits(lines, width, t.height)
  {
    hide RedrawAll, Wrapped, AllFit;
    DrawWraps(t, lines, width);
    WrappedCounts(lines, width);
    var wrapped := Wrapped(lines, width);
    var drawn := Appended(t, wrapped);
    assert Up(t, 0) == t;
    var up := Up(drawn, |lines|);
    var left := (t.rows + wrapped)[..up.row];
    assert up.row == |t.rows| <==> RegionFits(lines, width, t.height);
    if up.row == |t.rows| { assert left == t.rows; } else { assert |left| == up.row; }
  }

  /** A second drawing over a region too tall for the screen: its first rows have scrolled away and stay. */
  lemma {:induction false} TallRegionIsLeftBehind(t: Terminal, lines: seq<string>, again: seq<string>, width: nat)
    requires width > 0 && Placed(t) && t.row == |t.rows| && AllFit(lines, width) && AllFit(again, width) && |again| == |lines| >= t.height
    ensures DrawRegion(DrawRegion(t, 0, lines, width), |lines|, again, width).rows
         == t.rows + lines[..|lines| - t.height + 1] + again
  {
    hide RedrawAll, AllFit, Scrolled;
    assert Up(t, 0) == t && t.rows + [] == t.rows;
    RedrawsOver(t, t.rows, [], lines, width);
    assert t.rows + lines + [] == t.rows + lines;
    var drawn := RedrawAll(t, lines, width);
    TallTop(t, |lines|);
    var n := |lines| - t.height + 1;
    var up := Up(drawn, |lines|);
    assert t.rows + lines == (t.rows + lines[..n]) + lines[n..];
    RedrawsOver(up, t.rows + lines[..n], lines[n..], again, width);
    assert Leftover(lines[n..], |again|) == [];
    assert t.rows + lines[..n] + again + [] == t.rows + lines[..n] + again;
  }

  lemma TallTop(t: Terminal, n: nat)
    requires Placed(t) && t.row == |t.rows| && n >= t.height
    ensures Scrolled(t, |t.rows| + n) == |t.rows| + n + 1 - t.height
  {}
}

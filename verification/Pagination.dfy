/**
  Cursor pagination over a list that grows while it is being walked.

  A page is the newest rows strictly after the cursor in one total order, newest first. The
  main result is WalkIsExact: whatever is appended between pages and whatever the page sizes,
  following `next` ends, and returns exactly the rows that were there when it began, once.
*/
module Pagination {
  import opened Common

  datatype Row<T> = Row(sequence: int, id: string, body: T)

  datatype Cursor = Start | Malformed | SequenceOnly(s: int) | After(s: int, id: string)

  datatype Page<T> = Page(items: seq<Row<T>>, next: Option<Cursor>)

  const DEFAULT_PAGE_SIZE := 20
  const MAX_PAGE_SIZE := 100

  // ---- the page order ----

  predicate Less(a: string, b: string) {
    b != [] && (a == [] || a[0] < b[0] || (a[0] == b[0] && Less(a[1..], b[1..])))
  }

  lemma {:induction false} LessTotal(a: string, b: string)
    ensures a == b || Less(a, b) || Less(b, a)
    ensures !(Less(a, b) && Less(b, a)) && !Less(a, a)
  {
    if a != [] && b != [] {
      LessTotal(a[1..], b[1..]);
      assert a == [a[0]] + a[1..] && b == [b[0]] + b[1..];
    }
    if a != [] { LessTotal(a[1..], a[1..]); }
  }

  lemma {:induction false} LessTransitive(a: string, b: string, c: string)
    requires Less(a, b) && Less(b, c)
    ensures Less(a, c)
  {
    if a != [] && a[0] == b[0] == c[0] { LessTransitive(a[1..], b[1..], c[1..]); }
  }

  /** Newest first; rows of one sequence by id, descending. */
  function ByPageOrder<T>(a: Row<T>, b: Row<T>): int {
    if b.sequence != a.sequence then b.sequence - a.sequence
    else if Less(a.id, b.id) then 1
    else if Less(b.id, a.id) then -1
    else 0
  }

  predicate Before<T>(a: Row<T>, b: Row<T>) {
    ByPageOrder(a, b) < 0
  }

  lemma {:induction false} BeforeTotal<T>(a: Row<T>, b: Row<T>)
    ensures !(Before(a, b) && Before(b, a))
    ensures Before(a, b) || Before(b, a) || (a.sequence == b.sequence && a.id == b.id)
    ensures Before(a, b) <==> a.sequence > b.sequence || (a.sequence == b.sequence && Less(b.id, a.id))
  {
    LessTotal(a.id, b.id);
  }

  lemma {:induction false} BeforeTransitive<T>(a: Row<T>, b: Row<T>, c: Row<T>)
    requires Before(a, b) && Before(b, c)
    ensures Before(a, c)
  {
    BeforeTotal(a, b);
    BeforeTotal(b, c);
    BeforeTotal(a, c);
    if a.sequence == b.sequence == c.sequence { LessTransitive(c.id, b.id, a.id); }
  }

  ghost predicate Ordered<T>(rows: seq<Row<T>>) {
    forall i, j :: 0 <= i < j < |rows| ==> Before(rows[i], rows[j])
  }

  predicate SamePlace<T>(a: Row<T>, b: Row<T>) {
    a.sequence == b.sequence && a.id == b.id
  }

  ghost predicate Distinct<T>(rows: seq<Row<T>>) {
    forall i, j :: 0 <= i < j < |rows| ==> !SamePlace(rows[i], rows[j])
  }

  /** Put a row at its place, behind the rows it ties with. */
  function Insert<T>(rows: seq<Row<T>>, row: Row<T>): seq<Row<T>> {
    if rows == [] || Before(row, rows[0]) then [row] + rows else [rows[0]] + Insert(rows[1..], row)
  }

  /** The stable sort into page order. */
  function PageOrder<T>(rows: seq<Row<T>>): seq<Row<T>> {
    if rows == [] then [] else Insert(PageOrder(rows[..|rows| - 1]), rows[|rows| - 1])
  }

  lemma {:induction false} InsertKeeps<T>(rows: seq<Row<T>>, row: Row<T>)
    ensures multiset(Insert(rows, row)) == multiset(rows) + multiset{row}
  {
    if rows != [] && !Before(row, rows[0]) {
      InsertKeeps(rows[1..], row);
      assert rows == [rows[0]] + rows[1..];
    }
  }

  lemma {:induction false} InsertOrders<T>(rows: seq<Row<T>>, row: Row<T>)
    requires Ordered(rows) && forall k :: 0 <= k < |rows| ==> !SamePlace(rows[k], row)
    ensures Ordered(Insert(rows, row))
  {
    if rows == [] {
    } else if Before(row, rows[0]) {
      forall k | 0 <= k < |rows| ensures Before(row, rows[k]) {
        if k > 0 { BeforeTransitive(row, rows[0], rows[k]); }
      }
    } else {
      InsertOrders(rows[1..], row);
      InsertKeeps(rows[1..], row);
      BeforeTotal(row, rows[0]);
      var tail := Insert(rows[1..], row);
      forall k | 0 <= k < |tail| ensures Before(rows[0], tail[k]) {
        assert tail[k] in multiset(tail);
      }
    }
  }

  /** Sorting loses and invents nothing, and rows at distinct places come out strictly in page order. */
  lemma {:induction false} PageOrderSorts<T>(rows: seq<Row<T>>)
    ensures multiset(PageOrder(rows)) == multiset(rows)
    ensures Distinct(rows) ==> Ordered(PageOrder(rows))
  {
    if rows != [] {
      var front, last := rows[..|rows| - 1], rows[|rows| - 1];
      PageOrderSorts(front);
      InsertKeeps(PageOrder(front), last);
      assert rows == front + [last];
      if Distinct(rows) {
        forall k | 0 <= k < |PageOrder(front)| ensures !SamePlace(PageOrder(front)[k], last) {
          assert PageOrder(front)[k] in multiset(PageOrder(front));
          assert PageOrder(front)[k] in multiset(front);
        }
        InsertOrders(PageOrder(front), last);
      }
    }
  }

  // ---- lists that grow at the new end ----

  /** w is v with newer rows appended. */
  ghost predicate Grown<T>(v: seq<Row<T>>, w: seq<Row<T>>) {
    && v <= w
    && (forall j, k :: 0 <= j < |v| <= k < |w| ==> w[j].sequence < w[k].sequence)
  }

  lemma {:induction false} InsertAhead<T>(front: seq<Row<T>>, rest: seq<Row<T>>, row: Row<T>)
    requires forall k :: 0 <= k < |rest| ==> Before(row, rest[k])
    ensures Insert(front + rest, row) == Insert(front, row) + rest
  {
    if front == [] {
      assert front + rest == rest;
    } else {
      assert (front + rest)[1..] == front[1..] + rest;
      InsertAhead(front[1..], rest, row);
    }
  }

  /** Newer rows sort ahead of everything that was there. */
  lemma {:induction false} NewerFirst<T>(v: seq<Row<T>>, w: seq<Row<T>>)
    requires Grown(v, w)
    ensures PageOrder(w) == PageOrder(w[|v|..]) + PageOrder(v)
    decreases |w|
  {
    hide Insert, Before;
    if |w| == |v| {
      assert w == v && w[|v|..] == [];
    } else {
      var last, u := w[|w| - 1], w[..|w| - 1];
      NewerFirst(v, u);
      AheadOfAll(v, w, last);
      InsertAhead(PageOrder(u[|v|..]), PageOrder(v), last);
      assert w[|v|..][..|w[|v|..]| - 1] == u[|v|..];
    }
  }

  lemma {:induction false} AheadOfAll<T>(v: seq<Row<T>>, w: seq<Row<T>>, last: Row<T>)
    requires Grown(v, w) && |v| < |w| && last == w[|w| - 1]
    ensures forall k :: 0 <= k < |PageOrder(v)| ==> Before(last, PageOrder(v)[k])
  {
    hide PageOrder, Before;
    PageOrderSorts(v);
    forall k | 0 <= k < |PageOrder(v)| ensures Before(last, PageOrder(v)[k]) {
      assert PageOrder(v)[k] in multiset(PageOrder(v));
      var j :| 0 <= j < |v| && v[j] == PageOrder(v)[k];
      assert w[j].sequence < w[|w| - 1].sequence;
      BeforeTotal(last, v[j]);
    }
  }

  // ---- pages ----

  predicate Past<T>(row: Row<T>, cursor: Cursor) {
    match cursor
    case Start => true
    case Malformed => false
    case SequenceOnly(s) => row.sequence < s
    case After(s, id) => row.sequence < s || (row.sequence == s && Less(row.id, id))
  }

  function Window<T>(rows: seq<Row<T>>, cursor: Cursor): seq<Row<T>> {
    if rows == [] then [] else (if Past(rows[0], cursor) then [rows[0]] else []) + Window(rows[1..], cursor)
  }

  /** One page, or None for a cursor no page ever returned. */
  function Paginate<T>(rows: seq<Row<T>>, size: nat, cursor: Cursor, trailing: bool): Option<Page<T>> {
    if cursor.Malformed? then None
    else
      var window := Window(rows, cursor);
      var items := window[..Min(size, |window|)];
      var hasNext := if trailing then |items| == size && |items| > 0 else |window| > size;
      Some(Page(items, if hasNext && |items| > 0 then Some(After(items[|items| - 1].sequence, items[|items| - 1].id)) else None))
  }

  /** The page size a limit asks for; None is a 400. */
  function PageSize(limit: Option<int>): (r: Option<nat>)
    ensures r.Some? ==> 1 <= r.value <= MAX_PAGE_SIZE
    ensures r.None? <==> limit.Some? && !(1 <= limit.value <= MAX_PAGE_SIZE)
    ensures r.Some? ==> r.value == if limit.Some? then limit.value else 20
  {
    if limit.None? then Some(DEFAULT_PAGE_SIZE)
    else if limit.value < 1 || limit.value > MAX_PAGE_SIZE then None
    else Some(limit.value)
  }

  lemma {:induction false} WindowAppend<T>(a: seq<Row<T>>, b: seq<Row<T>>, cursor: Cursor)
    ensures Window(a + b, cursor) == Window(a, cursor) + Window(b, cursor)
  {
    hide Window;
    if a == [] {
      assert a + b == b;
      WindowStep(a, cursor);
    } else {
      assert (a + b)[1..] == a[1..] + b && (a + b)[0] == a[0];
      WindowAppend(a[1..], b, cursor);
      WindowStep(a, cursor);
      WindowStep(a + b, cursor);
      var first := if Past(a[0], cursor) then [a[0]] else [];
      assert first + (Window(a[1..], cursor) + Window(b, cursor)) == first + Window(a[1..], cursor) + Window(b, cursor);
    }
  }

  lemma {:induction false} WindowStep<T>(rows: seq<Row<T>>, cursor: Cursor)
    ensures Window(rows, cursor) == if rows == [] then [] else (if Past(rows[0], cursor) then [rows[0]] else []) + Window(rows[1..], cursor)
  {}

  /**
    A page is as much of what its cursor selects as its size allows, and names its last row as the next cursor exactly
    when rows are left; a trailing list does so whenever the page is full.
  */
  lemma {:induction false} PageIsFront<T>(rows: seq<Row<T>>, size: nat, cursor: Cursor, trailing: bool)
    requires size >= 1 && !cursor.Malformed?
    ensures var page, window := Paginate(rows, size, cursor, trailing), Window(rows, cursor);
            && page.Some? && page.value.items <= window && |page.value.items| <= size
            && (|page.value.items| < size ==> page.value.items == window)
            && (page.value.next.Some? <==> if trailing then |page.value.items| == size else page.value.items != window)
            && (page.value.next.Some? ==>
                  page.value.items != [] && Names(page.value.next.value, page.value.items[|page.value.items| - 1]))
  {
    hide Window;
    if size >= |Window(rows, cursor)| { assert Window(rows, cursor)[..|Window(rows, cursor)|] == Window(rows, cursor); }
  }

  lemma {:induction false} WindowNone<T>(rows: seq<Row<T>>, cursor: Cursor)
    requires forall k :: 0 <= k < |rows| ==> !Past(rows[k], cursor)
    ensures Window(rows, cursor) == []
  {
    if rows != [] { WindowNone(rows[1..], cursor); }
  }

  lemma {:induction false} WindowAll<T>(rows: seq<Row<T>>, cursor: Cursor)
    requires forall k :: 0 <= k < |rows| ==> Past(rows[k], cursor)
    ensures Window(rows, cursor) == rows
  {
    if rows != [] { WindowAll(rows[1..], cursor); }
  }

  predicate Names<T>(cursor: Cursor, row: Row<T>) {
    cursor == After(row.sequence, row.id)
  }

  /** The cursor of a row selects exactly what follows it, however many newer rows there are. */
  lemma {:induction false} WindowIsRest<T>(v: seq<Row<T>>, w: seq<Row<T>>, k: nat, cursor: Cursor)
    requires Grown(v, w) && Distinct(v) && k < |PageOrder(v)| && Names(cursor, PageOrder(v)[k])
    ensures Window(PageOrder(w), cursor) == PageOrder(v)[k + 1..]
  {
    hide PageOrder, Window;
    var order, newer := PageOrder(v), PageOrder(w[|v|..]);
    NewerFirst(v, w);
    PageOrderSorts(v);
    forall i | 0 <= i < |newer| ensures !Past(newer[i], cursor) {
      NewerThanAll(v, w, newer[i], order[k]);
    }
    WindowNone(newer, cursor);
    OrderedWindow(order, k, cursor);
    WindowAppend(newer, order, cursor);
  }

  lemma {:induction false} OrderedWindow<T>(order: seq<Row<T>>, k: nat, cursor: Cursor)
    requires Ordered(order) && k < |order| && Names(cursor, order[k])
    ensures Window(order, cursor) == order[k + 1..]
  {
    hide Window, Less, Before;
    forall i | 0 <= i < |order| ensures Past(order[i], cursor) <==> i > k {
      if i == k { LessTotal(order[k].id, order[k].id); }
      assert i != k ==> if i < k then Before(order[i], order[k]) else Before(order[k], order[i]);
      BeforeTotal(order[i], order[k]);
      BeforeTotal(order[k], order[i]);
    }
    WindowNone(order[..k + 1], cursor);
    WindowAll(order[k + 1..], cursor);
    assert order == order[..k + 1] + order[k + 1..];
    WindowAppend(order[..k + 1], order[k + 1..], cursor);
  }

  lemma {:induction false} NewerThanAll<T>(v: seq<Row<T>>, w: seq<Row<T>>, newer: Row<T>, old_: Row<T>)
    requires Grown(v, w) && newer in multiset(PageOrder(w[|v|..])) && old_ in multiset(PageOrder(v))
    ensures newer.sequence > old_.sequence
  {
    PageOrderSorts(v);
    PageOrderSorts(w[|v|..]);
    var i :| 0 <= i < |w[|v|..]| && w[|v|..][i] == newer;
    var j :| 0 <= j < |v| && v[j] == old_;
    assert w[j].sequence < w[|v| + i].sequence;
  }

  // ---- walks ----

  /** Follow `next` from a cursor; the list as it is at each page, and each page's size, are given. */
  function Walk<T>(versions: seq<seq<Row<T>>>, sizes: seq<nat>, cursor: Cursor, trailing: bool): seq<Page<T>>
    requires |sizes| == |versions|
    decreases |versions|
  {
    if versions == [] then []
    else
      match Paginate(PageOrder(versions[0]), sizes[0], cursor, trailing)
      case None => []
      case Some(page) =>
        [page] + if page.next.None? then [] else Walk(versions[1..], sizes[1..], page.next.value, trailing)
  }

  predicate Complete<T>(walk: seq<Page<T>>) {
    walk != [] && walk[|walk| - 1].next.None?
  }

  function Items<T>(walk: seq<Page<T>>): seq<Row<T>> {
    if walk == [] then [] else walk[0].items + Items(walk[1..])
  }

  /** All pages are versions of one list, grown at the new end, and ask for at least a row. */
  ghost predicate Walkable<T>(base: seq<Row<T>>, versions: seq<seq<Row<T>>>, sizes: seq<nat>) {
    && Distinct(base) && |sizes| == |versions|
    && (forall i :: 0 <= i < |versions| ==> Grown(base, versions[i]) && sizes[i] >= 1)
  }

  /** Where a walk stands: `done` rows of the base have been returned, and the cursor names the last of them. */
  ghost predicate Stands<T>(base: seq<Row<T>>, cursor: Cursor, done: nat) {
    && done <= |PageOrder(base)|
    && if done == 0 then cursor == Start else Names(cursor, PageOrder(base)[done - 1])
  }

  lemma {:induction false} PageIsNext<T>(base: seq<Row<T>>, w: seq<Row<T>>, size: nat, cursor: Cursor, trailing: bool, done: nat)
    requires Distinct(base) && Grown(base, w) && size >= 1 && Stands(base, cursor, done) && (done == 0 ==> w == base)
    ensures var rest, page := PageOrder(base)[done..], Paginate(PageOrder(w), size, cursor, trailing);
            && page.Some?
            && page.value.items == rest[..Min(size, |rest|)]
            && (page.value.next.None? ==> |page.value.items| == |rest|)
            && (page.value.next.Some? ==> |page.value.items| == size && Stands(base, page.value.next.value, done + size))
  {
    hide PageOrder, Distinct, Grown;
    if done == 0 {
      WindowAll(PageOrder(w), cursor);
      assert PageOrder(base)[0..] == PageOrder(base);
    } else {
      WindowIsRest(base, w, done - 1, cursor);
    }
  }

  /** A walk over at most n lists, after `done` rows of the base: it returns the rest in order, ends, and never repeats a cursor. */
  ghost predicate Exact<T>(base: seq<Row<T>>, walk: seq<Page<T>>, done: nat, n: nat)
    requires done <= |PageOrder(base)|
  {
    var rest := PageOrder(base)[done..];
    && Items(walk) <= rest
    && (Complete(walk) ==> Items(walk) == rest)
    && (n > |rest| ==> Complete(walk))
    && (forall i :: 0 <= i < |walk| && walk[i].next.Some? ==> NamesBeyond(base, walk[i].next.value, done))
    && (forall i, j :: 0 <= i < j < |walk| && walk[i].next.Some? ==> walk[i].next != walk[j].next)
  }

  ghost predicate NamesBeyond<T>(base: seq<Row<T>>, cursor: Cursor, done: nat) {
    exists k :: done <= k < |PageOrder(base)| && Names(cursor, PageOrder(base)[k])
  }

  lemma {:induction false} WalkOn<T>(base: seq<Row<T>>, versions: seq<seq<Row<T>>>, sizes: seq<nat>, cursor: Cursor, trailing: bool,
                                     done: nat)
    requires Walkable(base, versions, sizes) && Stands(base, cursor, done)
    requires done == 0 && versions != [] ==> versions[0] == base
    ensures Exact(base, Walk(versions, sizes, cursor, trailing), done, |versions|)
    decreases |versions|
  {
    hide Paginate, PageOrder, Grown, Names, NamesBeyond, Exact;
    if versions == [] {
      NoPage(base, done);
    } else {
      PageIsNext(base, versions[0], sizes[0], cursor, trailing, done);
      var page := Paginate(PageOrder(versions[0]), sizes[0], cursor, trailing).value;
      if page.next.Some? {
        WalkOn(base, versions[1..], sizes[1..], page.next.value, trailing, done + sizes[0]);
        var tail := Walk(versions[1..], sizes[1..], page.next.value, trailing);
        OnePageMore(base, page, tail, done, |versions| - 1);
      } else {
        assert Walk(versions, sizes, cursor, trailing) == [page];
        LastPage(base, page, done, |versions|);
      }
    }
  }

  lemma {:induction false} OnePageMore<T>(base: seq<Row<T>>, page: Page<T>, tail: seq<Page<T>>, done: nat, n: nat)
    requires Distinct(base) && page.next.Some? && page.items != [] && done + |page.items| <= |PageOrder(base)|
    requires page.items == PageOrder(base)[done..][..|page.items|]
    requires Stands(base, page.next.value, done + |page.items|) && Exact(base, tail, done + |page.items|, n)
    ensures Exact(base, [page] + tail, done, n + 1)
  {
    hide PageOrder, Less, Complete;
    var order, at, walk := PageOrder(base), done + |page.items|, [page] + tail;
    assert walk[1..] == tail;
    assert order[done..] == page.items + order[at..];
    assert Complete(walk) <==> Complete(tail) by { CompleteTail(page, tail); }
    PageOrderSorts(base);
    forall i | 0 <= i < |walk| && walk[i].next.Some? ensures NamesBeyond(base, walk[i].next.value, done) {
      if i == 0 {
        assert Names(walk[0].next.value, order[at - 1]);
      } else {
        assert walk[i] == tail[i - 1];
        var k :| at <= k < |order| && Names(walk[i].next.value, order[k]);
      }
    }
    forall j | 1 <= j < |walk| ensures walk[0].next != walk[j].next {
      assert walk[j] == tail[j - 1];
      if walk[j].next.Some? {
        var k :| at <= k < |order| && Names(walk[j].next.value, order[k]);
        assert Before(order[at - 1], order[k]);
        LaterDiffers(order[at - 1], order[k]);
      }
    }
  }

  lemma NoPage<T>(base: seq<Row<T>>, done: nat)
    requires done <= |PageOrder(base)|
    ensures Exact(base, [], done, 0)
  {}

  lemma {:induction false} LastPage<T>(base: seq<Row<T>>, page: Page<T>, done: nat, n: nat)
    requires page.next.None? && done <= |PageOrder(base)| && page.items == PageOrder(base)[done..]
    ensures Exact(base, [page], done, n)
  {
    hide PageOrder, NamesBeyond;
    assert [page][1..] == [] && Items([page]) == page.items + Items([page][1..]);
  }

  lemma CompleteTail<T>(page: Page<T>, tail: seq<Page<T>>)
    requires page.next.Some?
    ensures Complete([page] + tail) <==> Complete(tail)
  {}

  lemma {:induction false} LaterDiffers<T>(a: Row<T>, b: Row<T>)
    requires Before(a, b)
    ensures !SamePlace(a, b)
  {
    BeforeTotal(a, b);
    LessTotal(a.id, b.id);
  }

  /**
    For any page sizes and any appends between pages, with or without a trailing page: the walk ends after at
    most one page per row and one more, its pages concatenate to exactly the rows present at the first page, newest first,
    and no cursor is issued twice.
  */
  lemma {:induction false} WalkIsExact<T>(versions: seq<seq<Row<T>>>, sizes: seq<nat>, trailing: bool)
    requires versions != [] && Walkable(versions[0], versions, sizes)
    ensures var walk, rows := Walk(versions, sizes, Start, trailing), versions[0];
            && Items(walk) <= PageOrder(rows)
            && (Complete(walk) ==> Items(walk) == PageOrder(rows) && multiset(Items(walk)) == multiset(rows) && Distinct(Items(walk)))
            && (|versions| > |rows| ==> Complete(walk))
            && (forall i, j :: 0 <= i < j < |walk| && walk[i].next.Some? ==> walk[i].next != walk[j].next)
  {
    hide Walk, Paginate, PageOrder, Items, Less;
    PageOrderSorts(versions[0]);
    WalkOn(versions[0], versions, sizes, Start, trailing, 0);
    assert PageOrder(versions[0])[0..] == PageOrder(versions[0]);
    OrderedDistinct(PageOrder(versions[0]));
    assert |multiset(PageOrder(versions[0]))| == |multiset(versions[0])|;
  }

  lemma {:induction false} OrderedDistinct<T>(rows: seq<Row<T>>)
    requires Ordered(rows)
    ensures Distinct(rows)
  {
    hide Before, SamePlace;
    forall i, j | 0 <= i < j < |rows| ensures !SamePlace(rows[i], rows[j]) {
      LaterDiffers(rows[i], rows[j]);
    }
  }

  /** A cursor from before the tie-break loses rows exactly when others share the sequence it names. */
  lemma {:induction false} OldCursorSkips<T>(rows: seq<Row<T>>, k: nat)
    requires Ordered(rows) && k < |rows|
    ensures Window(rows, SequenceOnly(rows[k].sequence)) == rows[k + 1..]
       <==> forall j :: k < j < |rows| ==> rows[j].sequence != rows[k].sequence
  {
    var cursor := SequenceOnly(rows[k].sequence);
    assert rows == rows[..k + 1] + rows[k + 1..];
    WindowAppend(rows[..k + 1], rows[k + 1..], cursor);
    WindowNone(rows[..k + 1], cursor);
    if forall j :: k < j < |rows| ==> rows[j].sequence != rows[k].sequence {
      WindowAll(rows[k + 1..], cursor);
    } else {
      var j :| k < j < |rows| && rows[j].sequence == rows[k].sequence;
      WindowPast(rows, cursor);
      assert rows[k + 1..][j - k - 1] == rows[j];
    }
  }

  lemma {:induction false} WindowPast<T>(rows: seq<Row<T>>, cursor: Cursor)
    ensures forall i :: 0 <= i < |Window(rows, cursor)| ==> Past(Window(rows, cursor)[i], cursor)
  {
    if rows != [] { WindowPast(rows[1..], cursor); }
  }
}

/**
  The pagination policy: given the pages a story walked, did the enumeration repeat an item,
  repeat a cursor, or stop with a cursor still in hand? The evaluator is written without
  knowledge of any service; LedgerWalkPasses composes it with the ledger's own pages.
*/
module PaginationPolicy {
  import opened Common
  import opened Json
  import opened Pagination
  import LedgerSpec
  import LedgerInvariant
  import LedgerHistory

  datatype Body = Missing | Unparsable | Parsed(json: Json)

  datatype Request = Request(matches: bool, status: int, body: Body)

  datatype Consistency = Snapshot | Eventual

  datatype Config = Config(identity: seq<Segment>, cursor: Option<seq<Segment>>, consistency: Consistency)

  /** Page numbers count from 1. */
  datatype Verdict =
    | NotApplicable
    | Repeated(first: nat, again: nat)
    | CursorRepeats(page: nat)
    | CursorLeft
    | Pass(pages: nat, distinct: nat, repeats: nat)

  function JsonOf(body: Body): Option<Json> {
    if body.Parsed? then Some(body.json) else None
  }

  predicate IsPage(r: Request) {
    r.matches && 200 <= r.status < 300 && !r.body.Missing?
  }

  function Pages(trace: seq<Request>): seq<Body> {
    if trace == [] then [] else (if IsPage(trace[0]) then [trace[0].body] else []) + Pages(trace[1..])
  }

  /** A request counts as a page exactly when it matches, was answered in the 200s and has a body; pages keep their order. */
  lemma {:induction false} PagesAreAnswers(trace: seq<Request>, k: nat)
    requires k < |trace|
    ensures Pages(trace[..k + 1]) ==
            Pages(trace[..k]) + if trace[k].matches && trace[k].status / 100 == 2 && trace[k].body != Missing then [trace[k].body] else []
    decreases k
  {
    var more := trace[..k + 1];
    if k == 0 {
      assert more[1..] == [] && trace[..0] == [];
    } else {
      PagesAreAnswers(trace[1..], k - 1);
      assert more[1..] == trace[1..][..k] && trace[..k][1..] == trace[1..][..k - 1];
      assert trace[1..][k - 1] == trace[k];
    }
  }

  // ---- what the policy means ----

  datatype Occurrence = Occurrence(identity: Json, page: nat)

  function Tagged(ids: seq<Json>, page: nat): (r: seq<Occurrence>)
    ensures |r| == |ids| && forall k :: 0 <= k < |ids| ==> r[k] == Occurrence(ids[k], page)
  {
    seq(|ids|, k requires 0 <= k < |ids| => Occurrence(ids[k], page))
  }

  /** Every identity on the first n pages, in order, with the page it is on. */
  function Occurrences(pages: seq<Body>, identity: seq<Segment>, n: nat): seq<Occurrence>
    requires n <= |pages|
  {
    if n == 0 then []
    else Occurrences(pages, identity, n - 1) + Tagged(CollectAt(JsonOf(pages[n - 1]), identity), n)
  }

  ghost predicate NoRepeats(found: seq<Occurrence>) {
    forall a, b :: 0 <= a < b < |found| ==> found[a].identity != found[b].identity
  }

  function CursorOf(pages: seq<Body>, path: seq<Segment>, i: nat): Option<Json>
    requires i < |pages|
  {
    var c := ReadAt(JsonOf(pages[i]), path);
    if c == Some(Null) then None else c
  }

  /** No page's cursor was already an earlier page's. */
  ghost predicate Progresses(pages: seq<Body>, path: seq<Segment>, n: nat)
    requires n <= |pages|
  {
    forall i, j :: 0 <= i < j < n && CursorOf(pages, path, i).Some? ==> CursorOf(pages, path, i) != CursorOf(pages, path, j)
  }

  ghost predicate CursorsConform(pages: seq<Body>, path: seq<Segment>) {
    Progresses(pages, path, |pages|) && (pages != [] ==> CursorOf(pages, path, |pages| - 1).None?)
  }

  ghost predicate Conforms(pages: seq<Body>, config: Config) {
    && (config.consistency == Snapshot ==> NoRepeats(Occurrences(pages, config.identity, |pages|)))
    && (config.cursor.Some? ==> CursorsConform(pages, config.cursor.value))
  }

  /** The first item to come round again: it is on page `again`, and was on page `first`. */
  ghost predicate FirstRepeat(found: seq<Occurrence>, first: nat, again: nat) {
    exists a, b :: 0 <= a < b < |found| && found[a].identity == found[b].identity && NoRepeats(found[..b])
                   && found[a].page == first && found[b].page == again
  }

  // ---- the evaluator ----

  method MatchingPages(trace: seq<Request>) returns (pages: seq<Body>)
    ensures pages == Pages(trace)
  {
    pages := [];
    var i := 0;
    while i < |trace|
      invariant 0 <= i <= |trace|
      invariant pages + Pages(trace[i..]) == Pages(trace)
    {
      if IsPage(trace[i]) {
        pages := pages + [trace[i].body];
      }
      i := i + 1;
    }
  }

  datatype Duplicate = Duplicate(first: nat, again: nat)

  ghost predicate Carries(found: seq<Occurrence>, id: Json) {
    exists k :: 0 <= k < |found| && found[k].identity == id
  }

  /** What the map of seen identities and the list of duplicates hold after `found`. */
  ghost predicate Tally(found: seq<Occurrence>, seen: map<Json, nat>, duplicates: seq<Duplicate>) {
    && (forall id :: id in seen <==> Carries(found, id))
    && (duplicates == [] <==> NoRepeats(found))
    && (duplicates == [] ==> forall k :: 0 <= k < |found| ==> found[k].identity in seen && seen[found[k].identity] == found[k].page)
    && (duplicates != [] ==> FirstRepeat(found, duplicates[0].first, duplicates[0].again))
    && |found| == |seen| + |duplicates|
  }

  lemma {:induction false} CarriesMore(found: seq<Occurrence>, o: Occurrence, id: Json)
    ensures Carries(found + [o], id) <==> Carries(found, id) || id == o.identity
  {
    var more := found + [o];
    assert more[|found|] == o;
    if Carries(found, id) {
      var k :| 0 <= k < |found| && found[k].identity == id;
      assert more[k].identity == id;
    }
  }

  lemma {:induction false} FirstRepeatStays(found: seq<Occurrence>, o: Occurrence, first: nat, again: nat)
    requires FirstRepeat(found, first, again)
    ensures FirstRepeat(found + [o], first, again) && !NoRepeats(found + [o])
  {
    var a, b :| 0 <= a < b < |found| && found[a].identity == found[b].identity && NoRepeats(found[..b])
                && found[a].page == first && found[b].page == again;
    var more := found + [o];
    assert more[..b] == found[..b] && more[a].identity == more[b].identity;
  }

  lemma {:induction false} TallyRepeat(found: seq<Occurrence>, seen: map<Json, nat>, duplicates: seq<Duplicate>, o: Occurrence)
    requires Tally(found, seen, duplicates) && o.identity in seen
    ensures Tally(found + [o], seen, duplicates + [Duplicate(seen[o.identity], o.page)])
  {
    var more := found + [o];
    assert Carries(found, o.identity);
    forall id ensures Carries(more, id) <==> Carries(found, id) { CarriesMore(found, o, id); }
    if duplicates == [] {
      var k :| 0 <= k < |found| && found[k].identity == o.identity;
      assert more[..|found|] == found && more[k].identity == more[|found|].identity;
    } else {
      FirstRepeatStays(found, o, duplicates[0].first, duplicates[0].again);
    }
  }

  lemma {:induction false} TallyNew(found: seq<Occurrence>, seen: map<Json, nat>, duplicates: seq<Duplicate>, o: Occurrence)
    requires Tally(found, seen, duplicates) && o.identity !in seen
    ensures Tally(found + [o], seen[o.identity := o.page], duplicates)
  {
    var more := found + [o];
    assert !Carries(found, o.identity);
    forall id ensures Carries(more, id) <==> Carries(found, id) || id == o.identity { CarriesMore(found, o, id); }
    if duplicates != [] {
      FirstRepeatStays(found, o, duplicates[0].first, duplicates[0].again);
    }
  }

  method CountIdentities(pages: seq<Body>, identity: seq<Segment>) returns (seen: map<Json, nat>, duplicates: seq<Duplicate>)
    ensures Tally(Occurrences(pages, identity, |pages|), seen, duplicates)
  {
    hide Tally;
    seen, duplicates := map[], [];
    NothingTallied();
    var i := 0;
    while i < |pages|
      invariant 0 <= i <= |pages|
      invariant Tally(Occurrences(pages, identity, i), seen, duplicates)
    {
      var ids := CollectAt(JsonOf(pages[i]), identity);
      ghost var before, all := Occurrences(pages, identity, i), Tagged(ids, i + 1);
      var k := 0;
      assert before + all[..0] == before;
      while k < |ids|
        invariant 0 <= k <= |ids|
        invariant Tally(before + all[..k], seen, duplicates)
      {
        var id := ids[k];
        assert before + all[..k + 1] == before + all[..k] + [Occurrence(id, i + 1)];
        if id in seen {
          TallyRepeat(before + all[..k], seen, duplicates, Occurrence(id, i + 1));
          duplicates := duplicates + [Duplicate(seen[id], i + 1)];
        } else {
          TallyNew(before + all[..k], seen, duplicates, Occurrence(id, i + 1));
          seen := seen[id := i + 1];
        }
        k := k + 1;
      }
      assert all[..k] == all;
      i := i + 1;
    }
  }

  lemma NothingTallied()
    ensures Tally([], map[], [])
  {}

  /** The first page whose cursor an earlier page already carried, if any. */
  method FindCursorRepeat(pages: seq<Body>, path: seq<Segment>) returns (problem: Option<nat>)
    ensures problem.None? <==> Progresses(pages, path, |pages|)
    ensures problem.Some? ==> 1 <= problem.value <= |pages| && Progresses(pages, path, problem.value - 1)
                              && !Progresses(pages, path, problem.value)
  {
    hide JsonOf, ReadAt;
    problem := None;
    var seen: set<Json>, i := {}, 0;
    while i < |pages|
      invariant 0 <= i <= |pages|
      invariant forall c :: c in seen <==> exists j :: 0 <= j < i && CursorOf(pages, path, j) == Some(c)
      invariant forall j :: 0 <= j < i && CursorOf(pages, path, j).Some? ==> CursorOf(pages, path, j).value in seen
      invariant problem.None? <==> Progresses(pages, path, i)
      invariant problem.Some? ==> 1 <= problem.value <= i && Progresses(pages, path, problem.value - 1)
                                  && !Progresses(pages, path, problem.value)
    {
      var c := ReadAt(JsonOf(pages[i]), path);
      if c.Some? && c.value != Null {
        assert CursorOf(pages, path, i) == c;
        if c.value in seen && problem.None? {
          problem := Some(i + 1);
        }
        seen := seen + {c.value};
      }
      i := i + 1;
    }
  }

  /** The policy's verdict on a trace. */
  method Evaluate(trace: seq<Request>, config: Config) returns (v: Verdict)
    ensures v.NotApplicable? <==> |Pages(trace)| < 2
    ensures v.Pass? <==> |Pages(trace)| >= 2 && Conforms(Pages(trace), config)
    ensures v.Pass? ==> v.pages == |Pages(trace)| && v.distinct + v.repeats == |Occurrences(Pages(trace), config.identity, v.pages)|
                        && (v.repeats == 0 <==> NoRepeats(Occurrences(Pages(trace), config.identity, v.pages)))
    ensures v.Repeated? ==> config.consistency == Snapshot
                            && FirstRepeat(Occurrences(Pages(trace), config.identity, |Pages(trace)|), v.first, v.again)
    ensures v.CursorRepeats? ==> config.cursor.Some? && 1 <= v.page <= |Pages(trace)|
                                 && Progresses(Pages(trace), config.cursor.value, v.page - 1)
                                 && !Progresses(Pages(trace), config.cursor.value, v.page)
    ensures v.CursorLeft? ==> config.cursor.Some? && Progresses(Pages(trace), config.cursor.value, |Pages(trace)|)
  {
    var pages := MatchingPages(trace);
    if |pages| < 2 { return NotApplicable; }
    var seen, duplicates := CountIdentities(pages, config.identity);
    var repeat, left := None, false;
    if config.cursor.Some? {
      repeat := FindCursorRepeat(pages, config.cursor.value);
      var last := ReadAt(JsonOf(pages[|pages| - 1]), config.cursor.value);
      left := last.Some? && last.value != Null;
    }
    if config.consistency == Snapshot && |duplicates| > 0 {
      return Repeated(duplicates[0].first, duplicates[0].again);
    }
    if repeat.Some? { return CursorRepeats(repeat.value); }
    if left { return CursorLeft; }
    v := Pass(|pages|, |seen|, |duplicates|);
  }

  // ---- the ledger's pages, seen by the policy ----

  function ItemsJson<T>(rows: seq<Row<T>>): (r: seq<Json>)
    ensures |r| == |rows|
  {
    seq(|rows|, i requires 0 <= i < |rows| => Obj([Member("id", Str(rows[i].id)), Member("sequence", Num(rows[i].sequence))]))
  }

  /** The body a page is sent as; `encode` is the cursor's text. */
  function PageJson<T>(page: Page<T>, encode: Cursor -> string): Json {
    Obj([Member("items", Arr(ItemsJson(page.items))),
         Member("next_cursor", if page.next.None? then Null else Str(encode(page.next.value)))])
  }

  function Bodies<T>(walk: seq<Page<T>>, encode: Cursor -> string): (r: seq<Body>)
    ensures |r| == |walk|
  {
    seq(|walk|, i requires 0 <= i < |walk| => Parsed(PageJson(walk[i], encode)))
  }

  const ITEM_IDS := [Key("items"), Each, Key("id")]
  const NEXT_CURSOR := [Key("next_cursor")]

  function PolicyFor(consistency: Consistency): Config {
    Config(ITEM_IDS, Some(NEXT_CURSOR), consistency)
  }

  lemma {:induction false} IdsCollected<T>(rows: seq<Row<T>>)
    ensures CollectEach(ItemsJson(rows), [Key("id")]) == seq(|rows|, i requires 0 <= i < |rows| => Str(rows[i].id))
  {
    if rows != [] {
      assert ItemsJson(rows)[1..] == ItemsJson(rows[1..]);
      IdsCollected(rows[1..]);
      var item := Obj([Member("id", Str(rows[0].id)), Member("sequence", Num(rows[0].sequence))]);
      assert Child(item, "id") == Some(Str(rows[0].id));
      assert [Key("id")][1..] == [];
      assert CollectAt(Some(item), [Key("id")]) == [Str(rows[0].id)];
    }
  }

  lemma {:induction false} PageReads<T>(page: Page<T>, encode: Cursor -> string)
    ensures CollectAt(Some(PageJson(page, encode)), ITEM_IDS) == seq(|page.items|, i requires 0 <= i < |page.items| => Str(page.items[i].id))
    ensures ReadAt(Some(PageJson(page, encode)), NEXT_CURSOR)
         == Some(if page.next.None? then Null else Str(encode(page.next.value)))
  {
    var body := PageJson(page, encode);
    assert ITEM_IDS[1..] == [Each, Key("id")] && [Each, Key("id")][1..] == [Key("id")] && NEXT_CURSOR[1..] == [];
    assert body.members[1..][0].key == "next_cursor";
    assert "items"[0] != "next_cursor"[0];
    assert KeyAt(body.members[1..], "next_cursor") == 0;
    IdsCollected(page.items);
  }

  lemma {:induction false} OccurrencesAreItems<T>(walk: seq<Page<T>>, encode: Cursor -> string, n: nat)
    requires n <= |walk|
    ensures var found := Occurrences(Bodies(walk, encode), ITEM_IDS, n);
            |found| == |Items(walk[..n])| && forall k :: 0 <= k < |found| ==> found[k].identity == Str(Items(walk[..n])[k].id)
  {
    hide CollectAt, PageJson, ReadAt;
    if n > 0 {
      OccurrencesAreItems(walk, encode, n - 1);
      PageReads(walk[n - 1], encode);
      assert walk[..n] == walk[..n - 1] + [walk[n - 1]];
      ItemsAppend(walk[..n - 1], walk[n - 1]);
    }
  }

  lemma {:induction false} ItemsAppend<T>(walk: seq<Page<T>>, page: Page<T>)
    ensures Items(walk + [page]) == Items(walk) + page.items
  {
    if walk == [] {
      assert [page][1..] == [];
    } else {
      assert (walk + [page])[1..] == walk[1..] + [page];
      ItemsAppend(walk[1..], page);
    }
  }

  ghost predicate IdsDiffer<T>(rows: seq<Row<T>>) {
    forall i, j :: 0 <= i < j < |rows| ==> rows[i].id != rows[j].id
  }

  ghost predicate Encodes(encode: Cursor -> string) {
    forall a, b :: encode(a) == encode(b) ==> a == b
  }

  /** What any exact and complete walk guarantees is what the policy asks for. */
  lemma {:induction false} CompleteWalkConforms<T>(walk: seq<Page<T>>, encode: Cursor -> string, consistency: Consistency)
    requires Complete(walk) && IdsDiffer(Items(walk)) && Encodes(encode)
    requires forall i, j :: 0 <= i < j < |walk| && walk[i].next.Some? ==> walk[i].next != walk[j].next
    ensures Conforms(Bodies(walk, encode), PolicyFor(consistency))
  {
    hide CollectAt, PageJson, Items, Occurrences, ReadAt;
    var bodies := Bodies(walk, encode);
    OccurrencesAreItems(walk, encode, |walk|);
    assert walk[..|walk|] == walk;
    forall i | 0 <= i < |walk|
      ensures CursorOf(bodies, NEXT_CURSOR, i) == if walk[i].next.None? then None else Some(Str(encode(walk[i].next.value)))
    {
      PageReads(walk[i], encode);
    }
  }

  // ---- the ledger ----

  /** An account's rows as its history lists them; `text` writes an id. */
  function EntryRows(entries: seq<LedgerSpec.Entry>, account: LedgerSpec.Id, text: LedgerSpec.Id -> string)
    : seq<Row<LedgerSpec.Entry>>
  {
    if entries == [] then []
    else
      var e := entries[|entries| - 1];
      EntryRows(entries[..|entries| - 1], account, text) + if e.account == account then [Row(e.sequence, text(e.id), e)] else []
  }

  lemma {:induction false} RowsOfPrefix(v: seq<LedgerSpec.Entry>, w: seq<LedgerSpec.Entry>, account: LedgerSpec.Id,
                                        text: LedgerSpec.Id -> string)
    requires v <= w
    ensures EntryRows(v, account, text) <= EntryRows(w, account, text)
    ensures forall k :: |EntryRows(v, account, text)| <= k < |EntryRows(w, account, text)| ==>
              exists j :: |v| <= j < |w| && EntryRows(w, account, text)[k] == Row(w[j].sequence, text(w[j].id), w[j])
    decreases |w|
  {
    if |v| < |w| {
      var u := w[..|w| - 1];
      RowsOfPrefix(v, u, account, text);
      var rows, was := EntryRows(w, account, text), EntryRows(u, account, text);
      forall k | |EntryRows(v, account, text)| <= k < |rows|
        ensures exists j :: |v| <= j < |w| && rows[k] == Row(w[j].sequence, text(w[j].id), w[j])
      {
        if k < |was| {
          assert rows[k] == was[k];
          var j :| |v| <= j < |u| && was[k] == Row(u[j].sequence, text(u[j].id), u[j]);
          assert w[j] == u[j];
        } else {
          assert rows[k] == Row(w[|w| - 1].sequence, text(w[|w| - 1].id), w[|w| - 1]);
        }
      }
    } else {
      assert v == w;
    }
  }

  /** Rows of well-kept entries: numbered by position, so distinct, and later ones are newer. */
  lemma {:induction false} RowsGrow(v: seq<LedgerSpec.Entry>, w: seq<LedgerSpec.Entry>, account: LedgerSpec.Id, text: LedgerSpec.Id -> string)
    requires v <= w && forall k :: 0 <= k < |w| ==> w[k].sequence == k + 1
    ensures Grown(EntryRows(v, account, text), EntryRows(w, account, text))
  {
    var a, b := EntryRows(v, account, text), EntryRows(w, account, text);
    RowsOfPrefix(v, w, account, text);
    RowsOfPrefix([], v, account, text);
    hide EntryRows;
    forall j, k | 0 <= j < |a| <= k < |b| ensures b[j].sequence < b[k].sequence {
      assert b[j] == a[j];
      var x :| 0 <= x < |v| && a[j] == Row(v[x].sequence, text(v[x].id), v[x]);
      assert v[x] == w[x];
    }
  }

  lemma {:induction false} RowsDiffer(es: seq<LedgerSpec.Entry>, account: LedgerSpec.Id, text: LedgerSpec.Id -> string)
    requires forall k :: 0 <= k < |es| ==> es[k].sequence == k + 1
    requires forall j, k :: 0 <= j < k < |es| ==> text(es[j].id) != text(es[k].id)
    ensures Distinct(EntryRows(es, account, text)) && IdsDiffer(EntryRows(es, account, text))
  {
    if es != [] {
      var front := es[..|es| - 1];
      RowsDiffer(front, account, text);
      RowsOfPrefix([], front, account, text);
      var rows := EntryRows(front, account, text);
      forall k | 0 <= k < |rows| ensures rows[k].sequence < |es| && rows[k].id != text(es[|es| - 1].id) {
        var j :| 0 <= j < |front| && rows[k] == Row(front[j].sequence, text(front[j].id), front[j]);
        assert front[j] == es[j];
      }
    }
  }

  /** The ledger at each page of a walk: any operations may come between two pages. */
  function States(s: LedgerSpec.State, between: seq<seq<LedgerSpec.Op>>): (r: seq<LedgerSpec.State>)
    ensures |r| == |between| + 1
    decreases |between|
  {
    [s] + if between == [] then [] else States(LedgerSpec.Run(s, between[0]), between[1..])
  }

  lemma {:induction false} StatesLater(s: LedgerSpec.State, between: seq<seq<LedgerSpec.Op>>)
    requires LedgerInvariant.Inv(s)
    ensures forall i :: 0 <= i < |States(s, between)| ==>
              LedgerInvariant.Inv(States(s, between)[i]) && s.entries <= States(s, between)[i].entries
    decreases |between|
  {
    hide LedgerInvariant.Inv, LedgerSpec.Run;
    if between != [] {
      var t := LedgerSpec.Run(s, between[0]);
      LedgerHistory.RunLater(s, between[0]);
      StatesLater(t, between[1..]);
    }
  }

  function History(states: seq<LedgerSpec.State>, account: LedgerSpec.Id, text: LedgerSpec.Id -> string)
    : (r: seq<seq<Row<LedgerSpec.Entry>>>)
    ensures |r| == |states|
  {
    seq(|states|, i requires 0 <= i < |states| => EntryRows(states[i].entries, account, text))
  }

  lemma {:induction false} HistoryWalkable(s: LedgerSpec.State, between: seq<seq<LedgerSpec.Op>>, sizes: seq<nat>,
                                           account: LedgerSpec.Id, text: LedgerSpec.Id -> string)
    requires LedgerInvariant.Inv(s) && |sizes| == |between| + 1 && forall i :: 0 <= i < |sizes| ==> sizes[i] >= 1
    requires forall a, b :: text(a) == text(b) ==> a == b
    ensures Walkable(EntryRows(s.entries, account, text), History(States(s, between), account, text), sizes)
    ensures IdsDiffer(EntryRows(s.entries, account, text))
  {
    hide LedgerSpec.Run, EntryRows, States, Grown, LedgerInvariant.BalancesOk, LedgerInvariant.TransfersOk, LedgerInvariant.LegsOk,
         LedgerInvariant.DepositsOk, LedgerInvariant.KeysOk, LedgerInvariant.UsageOk, LedgerInvariant.AccountsOk, Distinct;
    StatesLater(s, between);
    forall i | 0 <= i < |States(s, between)|
      ensures Grown(EntryRows(s.entries, account, text), EntryRows(States(s, between)[i].entries, account, text))
    {
      RowsGrow(s.entries, States(s, between)[i].entries, account, text);
    }
    RowsDiffer(s.entries, account, text);
  }

  /**
    Walk an account's history page by page while any operations happen between the pages. The walk
    ends, returns exactly the rows present at its first page, and every complete walk satisfies the
    pagination policy, under snapshot consistency and with a cursor to check.
  */
  lemma {:induction false} LedgerWalkPasses(s: LedgerSpec.State, between: seq<seq<LedgerSpec.Op>>, sizes: seq<nat>, account: LedgerSpec.Id,
                                            trailing: bool, text: LedgerSpec.Id -> string, encode: Cursor -> string)
    requires LedgerInvariant.Inv(s) && |sizes| == |between| + 1 && forall i :: 0 <= i < |sizes| ==> 1 <= sizes[i] <= MAX_PAGE_SIZE
    requires (forall a, b :: text(a) == text(b) ==> a == b) && Encodes(encode)
    ensures var rows := EntryRows(s.entries, account, text);
            var walk := Walk(History(States(s, between), account, text), sizes, Start, trailing);
            && (|between| >= |rows| ==> Complete(walk))
            && (Complete(walk) ==> Items(walk) == PageOrder(rows) && Conforms(Bodies(walk, encode), PolicyFor(Snapshot)))
  {
    hide LedgerInvariant.Inv, LedgerSpec.Run, Walk, PageOrder, Items, Bodies, Conforms, Walkable, EntryRows, Complete;
    var history := History(States(s, between), account, text);
    var rows := EntryRows(s.entries, account, text);
    HistoryWalkable(s, between, sizes, account, text);
    assert history[0] == rows;
    WalkIsExact(history, sizes, trailing);
    var walk := Walk(history, sizes, Start, trailing);
    if Complete(walk) {
      PageOrderSorts(rows);
      SortedIdsDiffer(rows);
      CompleteWalkConforms(walk, encode, Snapshot);
    }
  }

  lemma {:induction false} SortedIdsDiffer<T>(rows: seq<Row<T>>)
    requires IdsDiffer(rows)
    ensures IdsDiffer(PageOrder(rows))
  {
    if rows != [] {
      var front, last := rows[..|rows| - 1], rows[|rows| - 1];
      SortedIdsDiffer(front);
      PageOrderSorts(front);
      forall k | 0 <= k < |PageOrder(front)| ensures PageOrder(front)[k].id != last.id {
        assert PageOrder(front)[k] in multiset(PageOrder(front));
        var j :| 0 <= j < |front| && front[j] == PageOrder(front)[k];
        assert rows[j] == front[j];
      }
      InsertIdsDiffer(PageOrder(front), last);
    }
  }

  lemma {:induction false} InsertIdsDiffer<T>(rows: seq<Row<T>>, row: Row<T>)
    requires IdsDiffer(rows) && forall k :: 0 <= k < |rows| ==> rows[k].id != row.id
    ensures IdsDiffer(Insert(rows, row))
  {
    if rows != [] && !Before(row, rows[0]) {
      InsertIdsDiffer(rows[1..], row);
      InsertKeeps(rows[1..], row);
      var tail := Insert(rows[1..], row);
      forall k | 0 <= k < |tail| ensures tail[k].id != rows[0].id {
        assert tail[k] in multiset(tail);
      }
    }
  }
}

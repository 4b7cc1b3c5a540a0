/**
  What holds over whole histories of the ledger: refusals leave no trace, what is over stays
  over, a key creates one transfer, the daily limit counts one day, and settling in two
  batches is settling once.
*/
module LedgerHistory {
  import opened Common
  import opened LedgerSpec
  import opened LedgerInvariant

  // ---- refusals ----

  /** A refused request changes nothing at all: no sequence number, no drawn id, no usage. */
  lemma {:induction false} RefusalsLeaveNoTrace(s: State, op: Op)
    ensures Apply(s, op).1.Refused? ==> Apply(s, op).0 == s
  {
    hide SettleAll, Ended;
  }

  /** An idempotent replay changes nothing either, and answers 200 where the first attempt answered 201. */
  lemma ReplaysLeaveNoTrace(s: State, r: TransferRequest, key: string, p: Principal)
    ensures var (t, o) := CreateTransfer(s, r, key, p);
            o.Done? ==> o.body.ATransfer? && (o.status == 200 <==> o.body.replayed) && (o.body.replayed ==> t == s)
  {}

  // ---- what is over stays over ----

  predicate Terminal(t: Transfer) {
    t.status != Pending
  }

  ghost predicate LaterTransfer(a: Transfer, b: Transfer) {
    && b == a.(status := b.status, settled := b.settled, canceled := b.canceled)
    && (Terminal(a) ==> a == b)
  }

  ghost predicate LaterAccount(a: Account, b: Account) {
    && b == a.(status := b.status, balance := b.balance, activated := b.activated, closed := b.closed)
    && (a.status == Closed ==> a == b)
  }

  ghost predicate OpenIn(accounts: seq<Account>, id: Id) {
    forall a :: 0 <= a < |accounts| && accounts[a].id == id ==> accounts[a].status != Closed
  }

  /** How a later state relates to an earlier one. */
  ghost predicate Later(s: State, t: State) {
    && |s.transfers| <= |t.transfers| && (forall i :: 0 <= i < |s.transfers| ==> LaterTransfer(s.transfers[i], t.transfers[i]))
    && |s.accounts| <= |t.accounts| && (forall i :: 0 <= i < |s.accounts| ==> LaterAccount(s.accounts[i], t.accounts[i]))
    && s.entries <= t.entries
    && (forall k :: |s.entries| <= k < |t.entries| ==> OpenIn(s.accounts, t.entries[k].account))
    && (forall k :: k in s.idempotency ==> k in t.idempotency && t.idempotency[k] == s.idempotency[k])
  }

  lemma {:induction false} LaterTransitive(s: State, t: State, u: State)
    requires Later(s, t) && Later(t, u)
    ensures Later(s, u)
  {
    forall i | 0 <= i < |s.transfers| ensures LaterTransfer(s.transfers[i], u.transfers[i]) {
      assert LaterTransfer(t.transfers[i], u.transfers[i]);
    }
    forall i | 0 <= i < |s.accounts| ensures LaterAccount(s.accounts[i], u.accounts[i]) {
      assert LaterAccount(t.accounts[i], u.accounts[i]);
    }
    forall k | |s.entries| <= k < |u.entries| ensures OpenIn(s.accounts, u.entries[k].account) {
      if k < |t.entries| {
        assert u.entries[k] == t.entries[k];
      } else {
        StillOpen(s, t, u.entries[k].account);
      }
    }
  }

  lemma {:induction false} StillOpen(s: State, t: State, id: Id)
    requires Later(s, t) && OpenIn(t.accounts, id)
    ensures OpenIn(s.accounts, id)
  {
    forall a | 0 <= a < |s.accounts| && s.accounts[a].id == id ensures s.accounts[a].status != Closed {
      assert LaterAccount(s.accounts[a], t.accounts[a]);
    }
  }

  lemma {:induction false} PendingIsOpen(s: State, i: nat)
    requires Inv(s) && i < |s.transfers| && s.transfers[i].status == Pending
    ensures OpenIn(s.accounts, s.transfers[i].source) && OpenIn(s.accounts, s.transfers[i].destination)
    ensures OpenIn(s.accounts, FeeId(s.transfers[i].currency))
    ensures HasAccount(s, s.transfers[i].source)
  {
    var t := s.transfers[i];
    assert TransferOk(s.accounts, t);
    ActiveIsOpen(s, t.source, t.currency);
    ActiveIsOpen(s, t.destination, t.currency);
    var f := if t.currency == USD then 0 else 1;
    assert s.accounts[f].id == FeeId(t.currency) && s.accounts[f].status == Active;
  }

  lemma {:induction false} ActiveIsOpen(s: State, id: Id, c: Currency)
    requires AccountsOk(s.accounts, s.draws) && Endpoint(s.accounts, id, c, true)
    ensures OpenIn(s.accounts, id) && HasAccount(s, id)
  {
    var a :| 0 <= a < |s.accounts| && s.accounts[a].id == id && s.accounts[a].currency == c && s.accounts[a].status == Active;
  }

  lemma {:induction false} ClosedUnmoved(s: State, t: Transfer)
    requires OpenIn(s.accounts, t.source) && OpenIn(s.accounts, t.destination) && OpenIn(s.accounts, FeeId(t.currency))
    ensures forall k :: 0 <= k < |s.accounts| && s.accounts[k].status == Closed ==> Paid(s.accounts, t)[k] == s.accounts[k]
  {}

  lemma {:induction false} PaidLater(s: State, i: nat, u: State)
    requires i < |s.transfers| && s.transfers[i].status == Pending
    requires var t := s.transfers[i];
             && OpenIn(s.accounts, t.source) && OpenIn(s.accounts, t.destination) && OpenIn(s.accounts, FeeId(t.currency))
             && u == s.(sequence := s.sequence + 1, draws := s.draws + 3, accounts := Paid(s.accounts, t),
                        transfers := s.transfers[i := t.(status := Settled, settled := Some(s.sequence + 1))],
                        entries := s.entries + [LegEntry(s, t, 0)] + [LegEntry(s, t, 1)] + [LegEntry(s, t, 2)])
    ensures Later(s, u)
  {
    var t := s.transfers[i];
    ClosedUnmoved(s, t);
    hide Paid;
    forall k | |s.entries| <= k < |u.entries| ensures OpenIn(s.accounts, u.entries[k].account) {
      assert u.entries[k] == LegEntry(s, t, k - |s.entries|);
    }
  }

  lemma {:induction false} FailedLater(s: State, i: nat, u: State)
    requires i < |s.transfers| && s.transfers[i].status == Pending
    requires u == s.(sequence := s.sequence + 1, transfers := s.transfers[i := s.transfers[i].(status := Failed)])
    ensures Later(s, u)
  {}

  lemma {:induction false} SettleOneLater(s: State, i: nat)
    requires Inv(s) && i < |s.transfers| && s.transfers[i].status == Pending
    ensures Later(s, SettleOne(s, i))
  {
    hide Inv, Later, OpenIn;
    PendingIsOpen(s, i);
    var t := s.transfers[i];
    if GetAccount(s, t.source).balance < t.amount + t.fee {
      FailedLater(s, i, SettleOne(s, i));
    } else {
      SettledState(s, i);
      hide SettleOne, Paid, LegEntry;
      PaidLater(s, i, SettleOne(s, i));
    }
  }

  lemma {:induction false} SettleAllLater(s: State, batch: seq<nat>)
    requires Inv(s)
    requires forall k :: 0 <= k < |batch| ==> batch[k] < |s.transfers| && s.transfers[batch[k]].status == Pending
    requires forall j, k :: 0 <= j < k < |batch| ==> batch[j] != batch[k]
    ensures Later(s, SettleAll(s, batch))
    decreases |batch|
  {
    hide Inv, SettleOne, Later;
    if batch == [] {
      LaterSame(s);
    } else {
      var t := SettleOne(s, batch[0]);
      SettleOneInv(s, batch[0]);
      SettleOneOthers(s, batch[0]);
      SettleOneLater(s, batch[0]);
      SettleAllLater(t, batch[1..]);
      LaterTransitive(s, t, SettleAll(t, batch[1..]));
    }
  }

  lemma LaterSame(s: State)
    ensures Later(s, s)
  {}

  lemma NextDayLater(s: State, t: State)
    requires Later(s, t)
    ensures Later(s, t.(day := t.day + 1, usage := map[]))
  {}

  lemma {:induction false} TickLater(s: State, limit: Option<int>, advanceDay: bool)
    requires Inv(s)
    ensures Later(s, Tick(s, limit, advanceDay).0)
  {
    BatchFacts(s, limit);
    hide Inv, SettleAll, Batch, Ended, PendingFrom, Later;
    SettleAllLater(s, Batch(s, limit));
    NextDayLater(s, SettleAll(s, Batch(s, limit)));
  }

  lemma {:induction false} ActiveAccountIsOpen(s: State, k: nat)
    requires AccountsOk(s.accounts, s.draws) && k < |s.accounts| && s.accounts[k].status == Active
    ensures OpenIn(s.accounts, s.accounts[k].id)
  {}

  /** One more row, posted to an open account. */
  lemma {:induction false} RowLater(s: State, t: State, e: Entry)
    requires t.transfers == s.transfers && t.idempotency == s.idempotency && t.entries == s.entries + [e]
    requires OpenIn(s.accounts, e.account) && t.accounts == Credited(s.accounts, e.account, e.amount)
    ensures Later(s, t)
  {}

  lemma {:induction false} DepositLater(s: State, r: DepositRequest, p: Principal)
    requires Inv(s)
    ensures Later(s, CreateDeposit(s, r, p).0)
  {
    if CreateDeposit(s, r, p).1.Done? {
      DepositState(s, r, p);
      ActiveAccountIsOpen(s, AccountAt(s.accounts, r.account.value));
      var t := CreateDeposit(s, r, p).0;
      hide Inv, CreateDeposit, Later;
      RowLater(s, t, DepositEntryOf(s, GetAccount(s, r.account.value), r.amount.value));
    } else {
      LaterSame(s);
    }
  }

  lemma {:induction false} InsertLater(s: State, t: State)
    requires t.accounts == s.accounts && t.entries == s.entries && s.transfers <= t.transfers
    requires forall k :: k in s.idempotency ==> k in t.idempotency && t.idempotency[k] == s.idempotency[k]
    ensures Later(s, t)
  {}

  lemma {:induction false} TransferLater(s: State, r: TransferRequest, key: string, p: Principal)
    ensures Later(s, CreateTransfer(s, r, key, p).0)
  {
    if CreateTransfer(s, r, key, p).1.Done? {
      TransferState(s, r, key, p);
      KeyIsNew(s, r, key, p);
      var t := CreateTransfer(s, r, key, p).0;
      hide CreateTransfer, TransferRefusal, Later;
      InsertLater(s, t);
    } else {
      LaterSame(s);
    }
  }

  lemma KeyIsNew(s: State, r: TransferRequest, key: string, p: Principal)
    ensures var o := CreateTransfer(s, r, key, p).1;
            o.Done? && o.body.ATransfer? && !o.body.replayed && key != "" ==> Scoped(p, key) !in s.idempotency
  {}

  lemma {:induction false} AccountLater(s: State, t: State)
    requires t.transfers == s.transfers && t.entries == s.entries && t.idempotency == s.idempotency
    requires |s.accounts| <= |t.accounts|
    requires forall i :: 0 <= i < |s.accounts| ==> LaterAccount(s.accounts[i], t.accounts[i])
    ensures Later(s, t)
  {}

  lemma {:induction false} CancelLater(s: State, id: Id, p: Principal)
    ensures Later(s, CancelTransfer(s, id, p).0)
  {}

  lemma {:induction false} ApplyLater(s: State, op: Op)
    requires Inv(s)
    ensures Later(s, Apply(s, op).0)
  {
    hide Inv, Later, CreateTransfer, CreateDeposit, CancelTransfer, Tick;
    match op
    case PayIn(r, p) => DepositLater(s, r, p);
    case Send(r, key, p) => TransferLater(s, r, key, p);
    case Settlement(limit, advanceDay) => TickLater(s, limit, advanceDay);
    case OpenAccount(r, p) => AccountLater(s, Apply(s, op).0);
    case Activate(id, p) => AccountLater(s, Apply(s, op).0);
    case Close(id, p) => AccountLater(s, Apply(s, op).0);
    case Cancel(id, p) => CancelLater(s, id, p);
  }

  lemma {:induction false} RunLater(s: State, ops: seq<Op>)
    requires Inv(s)
    ensures Later(s, Run(s, ops)) && Inv(Run(s, ops))
    decreases |ops|
  {
    hide Inv, Later, Apply;
    if ops == [] {
      LaterSame(s);
    } else {
      var t := Apply(s, ops[0]).0;
      ApplyInv(s, ops[0]);
      ApplyLater(s, ops[0]);
      RunLater(t, ops[1..]);
      LaterTransitive(s, t, Run(t, ops[1..]));
    }
  }

  /** A settled, failed or canceled transfer never changes again. */
  lemma {:induction false} TerminalForever(s: State, ops: seq<Op>, i: nat)
    requires Inv(s) && i < |s.transfers| && Terminal(s.transfers[i])
    ensures i < |Run(s, ops).transfers| && Run(s, ops).transfers[i] == s.transfers[i]
  {
    RunLater(s, ops);
    hide Inv;
    assert LaterTransfer(s.transfers[i], Run(s, ops).transfers[i]);
  }

  /** Once closed, an account keeps its balance for good and no further row is ever posted to it. */
  lemma {:induction false} ClosedForever(s: State, ops: seq<Op>, i: nat)
    requires Inv(s) && i < |s.accounts| && s.accounts[i].status == Closed
    ensures var t := Run(s, ops);
            && i < |t.accounts| && t.accounts[i] == s.accounts[i]
            && s.entries <= t.entries
            && (forall k :: |s.entries| <= k < |t.entries| ==> t.entries[k].account != s.accounts[i].id)
            && !HasPending(s.transfers, s.accounts[i].id)
  {
    RunLater(s, ops);
    assert LaterAccount(s.accounts[i], Run(s, ops).accounts[i]);
    forall k | 0 <= k < |s.transfers| && s.transfers[k].status == Pending ensures !Involves(s.transfers[k], s.accounts[i].id) {
      PendingIsOpen(s, k);
    }
    var t := Run(s, ops);
    hide Inv;
    forall k | |s.entries| <= k < |t.entries| ensures t.entries[k].account != s.accounts[i].id {
      assert OpenIn(s.accounts, t.entries[k].account);
    }
  }

  // ---- one key, one transfer ----

  predicate Creates(s: State, op: Op, scoped: string) {
    && op.Send? && op.key != "" && Scoped(op.p, op.key) == scoped
    && Apply(s, op).1.Done? && Apply(s, op).1.status == 201
  }

  /** How many transfers a history creates under one scoped key. */
  function Creations(s: State, ops: seq<Op>, scoped: string): nat
    decreases |ops|
  {
    if ops == [] then 0
    else (if Creates(s, ops[0], scoped) then 1 else 0) + Creations(Apply(s, ops[0]).0, ops[1..], scoped)
  }

  lemma {:induction false} KeysChange(s: State, op: Op, scoped: string)
    ensures var t := Apply(s, op).0;
            if Creates(s, op, scoped) then scoped !in s.idempotency && scoped in t.idempotency
            else scoped in t.idempotency <==> scoped in s.idempotency
  {
    if op.Settlement? {
      BatchFacts(s, op.limit);
      hide SettleAll, Ended;
      SettleAllKeys(s, Batch(s, op.limit));
    }
  }

  lemma {:induction false} SettleAllKeys(s: State, batch: seq<nat>)
    requires forall k :: 0 <= k < |batch| ==> batch[k] < |s.transfers|
    ensures var t := SettleAll(s, batch); t.idempotency == s.idempotency && t.usage == s.usage && t.day == s.day
    decreases |batch|
  {
    if batch != [] {
      SettleOneOthers(s, batch[0]);
      hide SettleOne;
      SettleAllKeys(SettleOne(s, batch[0]), batch[1..]);
    }
  }

  lemma {:induction false} CreationsCount(s: State, ops: seq<Op>, scoped: string)
    ensures Creations(s, ops, scoped) + (if scoped in s.idempotency then 1 else 0)
         == if scoped in Run(s, ops).idempotency then 1 else 0
    decreases |ops|
  {
    if ops != [] {
      KeysChange(s, ops[0], scoped);
      hide Apply, Creates;
      CreationsCount(Apply(s, ops[0]).0, ops[1..], scoped);
    }
  }

  /** Across cancels, settlements and day rollovers, one principal's key never creates a second transfer. */
  lemma {:induction false} OneTransferPerKey(ops: seq<Op>, p: Principal, key: string)
    ensures Creations(Reset(), ops, Scoped(p, key)) <= 1
  {
    CreationsCount(Reset(), ops, Scoped(p, key));
  }

  /** The key is remembered for request r, and the transfer at k is the one it created. */
  predicate Keeps(s: State, scoped: string, r: TransferRequest, t: Transfer, k: nat) {
    && scoped in s.idempotency && s.idempotency[scoped] == Used(r, t.id)
    && k < |s.transfers| && TransferAt(s.transfers, t.id) == k
    && s.transfers[k] == t.(status := s.transfers[k].status, settled := s.transfers[k].settled, canceled := s.transfers[k].canceled)
  }

  lemma {:induction false} CreatedKeeps(s: State, r: TransferRequest, key: string, p: Principal)
    requires Inv(s) && key != "" && CreateTransfer(s, r, key, p).1.Done? && CreateTransfer(s, r, key, p).1.status == 201
    ensures var (t, o) := CreateTransfer(s, r, key, p);
            !MalformedTransfer(r) && o.body.ATransfer? && Keeps(t, Scoped(p, key), r, o.body.transfer, |s.transfers|)
  {
    hide Inv;
    TransferState(s, r, key, p);
    ReplaysLeaveNoTrace(s, r, key, p);
    CreateTransferInv(s, r, key, p);
    hide CreateTransfer, TransferRefusal, MalformedTransfer;
    FoundById(CreateTransfer(s, r, key, p).0, |s.transfers|);
  }

  lemma {:induction false} KeepsLater(s: State, u: State, scoped: string, r: TransferRequest, t: Transfer, k: nat)
    requires Inv(u) && Later(s, u) && Keeps(s, scoped, r, t, k)
    ensures Keeps(u, scoped, r, t, k)
  {
    assert LaterTransfer(s.transfers[k], u.transfers[k]);
    FoundById(u, k);
  }

  lemma {:induction false} KeptForever(s: State, r: TransferRequest, key: string, p: Principal, ops: seq<Op>)
    requires Inv(s) && key != "" && CreateTransfer(s, r, key, p).1.Done? && CreateTransfer(s, r, key, p).1.status == 201
    ensures var (t, o) := CreateTransfer(s, r, key, p);
            !MalformedTransfer(r) && o.body.ATransfer? && Keeps(Run(t, ops), Scoped(p, key), r, o.body.transfer, |s.transfers|)
  {
    hide Inv, Keeps, Later, MalformedTransfer, Run;
    CreatedKeeps(s, r, key, p);
    CreateTransferInv(s, r, key, p);
    var (t, o) := CreateTransfer(s, r, key, p);
    hide CreateTransfer;
    RunLater(t, ops);
    KeepsLater(t, Run(t, ops), Scoped(p, key), r, o.body.transfer, |s.transfers|);
  }

  /** The answer a later attempt gets: the original transfer, unless the body differs. */
  function Replay(u: State, r: TransferRequest, other: TransferRequest, k: nat): (State, Outcome)
    requires k < |u.transfers|
  {
    if other == r then (u, Done(200, ATransfer(u.transfers[k], true))) else (u, Refused(409, KeyConflict))
  }

  lemma {:induction false} ReplayNow(u: State, r: TransferRequest, other: TransferRequest, key: string, p: Principal, t: Transfer, k: nat)
    requires Keeps(u, Scoped(p, key), r, t, k) && !MalformedTransfer(other) && key != ""
    ensures CreateTransfer(u, other, key, p) == Replay(u, r, other, k)
  {
    hide TransferRefusal, MalformedTransfer;
  }

  /**
    However much later it is repeated, a keyed request is answered with the transfer it created,
    and the same key with a different body is a conflict; nothing moves either way.
  */
  lemma {:induction false} ReplayForever(s: State, r: TransferRequest, key: string, p: Principal, ops: seq<Op>, other: TransferRequest)
    requires Inv(s) && key != "" && CreateTransfer(s, r, key, p).1.Done? && CreateTransfer(s, r, key, p).1.status == 201
    requires !MalformedTransfer(other)
    ensures var (t, o) := CreateTransfer(s, r, key, p);
            var u := Run(t, ops);
            && o.body.ATransfer? && Keeps(u, Scoped(p, key), r, o.body.transfer, |s.transfers|)
            && CreateTransfer(u, other, key, p) == Replay(u, r, other, |s.transfers|)
  {
    KeptForever(s, r, key, p, ops);
    var (t, o) := CreateTransfer(s, r, key, p);
    hide Inv, Keeps, Replay;
    ReplayNow(Run(t, ops), r, other, key, p, o.body.transfer, |s.transfers|);
  }

  lemma {:induction false} FoundById(s: State, k: nat)
    requires Inv(s) && k < |s.transfers|
    ensures TransferAt(s.transfers, s.transfers[k].id) == k
  {}

  lemma {:induction false} RememberedIsFound(s: State, key: string)
    requires Inv(s) && key in s.idempotency
    ensures TransferAt(s.transfers, s.idempotency[key].transfer) < |s.transfers|
  {
    hide AccountsOk, BalancesOk, EntriesOk, TransfersOk, LegsOk, DepositsOk, UsageOk;
    assert Remembered(s.transfers, s.idempotency[key]);
  }

  /** The branch for a key remembered without its transfer is never taken. */
  lemma {:induction false} NeverLost(s: State, op: Op)
    requires Inv(s)
    ensures Apply(s, op).1 != Refused(500, LostTransfer)
  {
    hide Inv, SettleAll, Ended, TransferAt, AccountAt;
    if op.Send? && Scoped(op.p, op.key) in s.idempotency {
      RememberedIsFound(s, Scoped(op.p, op.key));
    }
  }

  // ---- the daily limit ----

  /** What a history sends from one account since the last day rollover, counted from its results. */
  function Sent(s: State, ops: seq<Op>, id: Id, before: int): int
    decreases |ops|
  {
    if ops == [] then before
    else
      var (t, o) := Apply(s, ops[0]);
      var now :=
        if ops[0].Settlement? && ops[0].advanceDay then 0
        else if ops[0].Send? && o.Done? && o.status == 201 && o.body.ATransfer? && o.body.transfer.source == id
        then before + o.body.transfer.amount
        else before;
      Sent(t, ops[1..], id, now)
  }

  lemma {:induction false} SendUsage(s: State, r: TransferRequest, key: string, p: Principal, id: Id)
    ensures var (t, o) := CreateTransfer(s, r, key, p);
            UsedToday(t, id) ==
            if o.Done? && o.status == 201 && o.body.ATransfer? && o.body.transfer.source == id
            then UsedToday(s, id) + o.body.transfer.amount
            else UsedToday(s, id)
  {
    if CreateTransfer(s, r, key, p).1.Done? {
      TransferState(s, r, key, p);
      ReplaysLeaveNoTrace(s, r, key, p);
      hide CreateTransfer, TransferRefusal;
    }
  }

  lemma {:induction false} TickUsage(s: State, limit: Option<int>, advanceDay: bool, id: Id)
    ensures UsedToday(Tick(s, limit, advanceDay).0, id) == if advanceDay then 0 else UsedToday(s, id)
  {
    BatchFacts(s, limit);
    hide SettleAll, Ended;
    SettleAllKeys(s, Batch(s, limit));
  }

  lemma {:induction false} UsageStep(s: State, op: Op, id: Id)
    ensures var (t, o) := Apply(s, op);
            UsedToday(t, id) ==
            if op.Settlement? && op.advanceDay then 0
            else if op.Send? && o.Done? && o.status == 201 && o.body.ATransfer? && o.body.transfer.source == id
            then UsedToday(s, id) + o.body.transfer.amount
            else UsedToday(s, id)
  {
    hide CreateTransfer, Tick;
    match op
    case Settlement(limit, advanceDay) => TickUsage(s, limit, advanceDay, id);
    case Send(r, key, p) => SendUsage(s, r, key, p, id);
    case PayIn(r, p) =>
    case OpenAccount(r, p) =>
    case Activate(_, p) =>
    case Close(_, p) =>
    case Cancel(_, p) =>
  }

  lemma {:induction false} UsageIsSent(s: State, ops: seq<Op>, id: Id)
    ensures UsedToday(Run(s, ops), id) == Sent(s, ops, id, UsedToday(s, id))
    decreases |ops|
  {
    if ops != [] {
      UsageStep(s, ops[0], id);
      hide Apply, UsedToday;
      UsageIsSent(Apply(s, ops[0]).0, ops[1..], id);
    }
  }

  /** In every history, what an account has sent today is what the ledger thinks it has, and never over the limit. */
  lemma {:induction false} DailyLimitHolds(ops: seq<Op>, id: Id)
    ensures var s := Run(Reset(), ops);
            UsedToday(s, id) == Sent(Reset(), ops, id, 0) && 0 <= UsedToday(s, id) <= DAILY_LIMIT
  {
    hide Run, Sent, AccountsOk, BalancesOk, EntriesOk, TransfersOk, LegsOk, DepositsOk, KeysOk, Total, PaidIn;
    ResetInv();
    RunInv(Reset(), ops);
    UsageIsSent(Reset(), ops, id);
  }

  // ---- the fee ----

  /** The basis-point part is the nearest whole number of units, halves upwards. */
  lemma FeeIsNearest(amount: int)
    ensures var bps := FeeFor(amount) - FEE_FLAT;
            amount * FEE_BPS - 5000 < bps * 10000 <= amount * FEE_BPS + 5000
  {}
}

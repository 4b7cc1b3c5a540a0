/**
  The ledger object: its state as fields, and each operation as the method that updates them,
  check by check. Every method is proved to do exactly what LedgerSpec says of the same
  request, so what is proved of runs of that specification holds of this object.
*/
module Ledger {
  import opened Common
  import opened Text
  import opened LedgerSpec
  import opened LedgerInvariant
  import LedgerSettlement

  // ---- facts the loops need ----

  lemma {:induction false} NotAmongFirst(accounts: seq<Account>, id: Id, k: nat)
    requires k <= |accounts| && forall j :: 0 <= j < k ==> accounts[j].id != id
    ensures AccountAt(accounts, id) >= k
    ensures k == |accounts| || accounts[k].id == id ==> AccountAt(accounts, id) == k
  {
    var at := AccountAt(accounts, id);
    if at < k { assert false; }
  }

  lemma {:induction false} NotAmongFirstTransfers(transfers: seq<Transfer>, id: Id, k: nat)
    requires k <= |transfers| && forall j :: 0 <= j < k ==> transfers[j].id != id
    ensures TransferAt(transfers, id) >= k
    ensures k == |transfers| || transfers[k].id == id ==> TransferAt(transfers, id) == k
  {
    var at := TransferAt(transfers, id);
    if at < k { assert false; }
  }

  lemma {:induction false} CreditedAt(accounts: seq<Account>, k: nat, delta: int)
    requires k < |accounts| && forall i, j :: 0 <= i < j < |accounts| ==> accounts[i].id != accounts[j].id
    ensures accounts[k := accounts[k].(balance := accounts[k].balance + delta)] == Credited(accounts, accounts[k].id, delta)
  {}

  lemma {:induction false} QueueSplit(ts: seq<Transfer>, i: nat, j: nat)
    requires i <= j < |ts|
    ensures PendingFrom(ts[..j], i) + (if ts[j].status == Pending then [j] else []) == PendingFrom(ts[..j + 1], i)
    decreases j - i
  {
    if i < j {
      QueueSplit(ts, i + 1, j);
    } else {
      assert PendingFrom(ts[..j], j) == [] && PendingFrom(ts[..j + 1], j + 1) == [];
    }
  }

  /** The queue grown by one transfer that has just been looked at. */
  lemma {:induction false} QueueGrows(ts: seq<Transfer>, j: nat)
    requires j < |ts|
    ensures PendingFrom(ts[..j + 1], 0) == PendingFrom(ts[..j], 0) + if ts[j].status == Pending then [j] else []
  {
    QueueSplit(ts, 0, j);
  }

  /** What a settlement in progress has done: the first i transfers of the batch, and nothing else yet. */
  ghost predicate SettledSoFar(s: State, batch: seq<nat>, i: nat, now: State, settled: seq<Id>, failed: seq<Id>)
    requires i <= |batch| && LedgerSettlement.InRange(s, batch)
  {
    && LedgerSettlement.InRange(s, batch[..i]) && now == SettleAll(s, batch[..i]) && |now.transfers| == |s.transfers|
    && settled == Ended(now, batch[..i], Settled) && failed == Ended(now, batch[..i], Failed)
    && (forall k :: i <= k < |batch| ==> now.transfers[batch[k]] == s.transfers[batch[k]])
  }

  lemma {:induction false} EndedGrows(s: State, t: State, batch: seq<nat>, i: nat, status: TransferStatus)
    requires LedgerSettlement.InRange(s, batch) && i < |batch| && |t.transfers| == |s.transfers|
    requires forall k :: 0 <= k < |s.transfers| && k != batch[i] ==> t.transfers[k] == s.transfers[k]
    requires forall k :: 0 <= k < i ==> batch[k] != batch[i]
    ensures LedgerSettlement.InRange(t, batch[..i + 1])
    ensures var last := t.transfers[batch[i]];
            Ended(t, batch[..i + 1], status) == Ended(s, batch[..i], status) + if last.status == status then [last.id] else []
  {
    var k := batch[i];
    assert batch[..i + 1] == batch[..i] + [k];
    LedgerSettlement.EndedSplit(t, batch[..i], [k], status);
    LedgerSettlement.EndedSame(s, t, batch[..i], status);
    assert [k][1..] == [];
  }

  lemma {:induction false} SettleAllGrows(s: State, batch: seq<nat>, i: nat)
    requires LedgerSettlement.InRange(s, batch) && i < |batch| && LedgerSettlement.InRange(s, batch[..i])
    ensures |SettleAll(s, batch[..i]).transfers| == |s.transfers| && LedgerSettlement.InRange(s, batch[..i + 1])
    ensures SettleAll(s, batch[..i + 1]) == SettleOne(SettleAll(s, batch[..i]), batch[i])
  {
    hide SettleOne;
    SettleAllLength(s, batch[..i]);
    var now := SettleAll(s, batch[..i]);
    assert batch[..i + 1] == batch[..i] + [batch[i]];
    LedgerSettlement.SettleSplit(s, batch[..i], [batch[i]]);
    assert [batch[i]][1..] == [];
    SettleOneOthers(now, batch[i]);
    assert SettleAll(SettleOne(now, batch[i]), []) == SettleOne(now, batch[i]);
  }

  lemma {:induction false} SettlementAdvances(s: State, batch: seq<nat>, i: nat, now: State, settled: seq<Id>, failed: seq<Id>)
    requires LedgerSettlement.InRange(s, batch) && i < |batch| && SettledSoFar(s, batch, i, now, settled, failed)
    requires forall j, k :: 0 <= j < k < |batch| ==> batch[j] != batch[k]
    ensures var next := SettleOne(now, batch[i]);
            && |next.transfers| == |s.transfers|
            && var ended, id := next.transfers[batch[i]].status, s.transfers[batch[i]].id;
               && (ended == Settled || ended == Failed)
               && SettledSoFar(s, batch, i + 1, next, settled + if ended == Settled then [id] else [],
                               failed + if ended == Failed then [id] else [])
  {
    hide SettleOne, SettleAll, Ended;
    var next := SettleOne(now, batch[i]);
    SettleOneOthers(now, batch[i]);
    SettleAllGrows(s, batch, i);
    EndedGrows(now, next, batch, i, Settled);
    EndedGrows(now, next, batch, i, Failed);
  }

  class Ledger {
    var sequence: nat
    var draws: nat
    var day: nat
    var accounts: seq<Account>
    var transfers: seq<Transfer>
    var deposits: seq<Deposit>
    var entries: seq<Entry>
    var idempotency: map<string, Used>
    var usage: map<(Id, nat), int>

    ghost function View(): State
      reads this
    {
      State(sequence, draws, day, accounts, transfers, deposits, entries, idempotency, usage)
    }

    ghost predicate Valid()
      reads this
    {
      Inv(View())
    }

    constructor ()
      ensures View() == Reset() && Valid()
    {
      sequence, draws, day := 0, 0, 0;
      accounts := [FeeAccount(USD), FeeAccount(EUR)];
      transfers, deposits, entries := [], [], [];
      idempotency, usage := map[], map[];
      new;
      ResetInv();
    }

    // ---- lookups, the clock and the generator ----

    method FindAccount(id: Id) returns (k: nat)
      ensures k == AccountAt(accounts, id)
    {
      k := 0;
      while k < |accounts| && accounts[k].id != id
        invariant k <= |accounts| && forall j :: 0 <= j < k ==> accounts[j].id != id
      {
        k := k + 1;
      }
      NotAmongFirst(accounts, id, k);
    }

    method FindTransfer(id: Id) returns (k: nat)
      ensures k == TransferAt(transfers, id)
    {
      k := 0;
      while k < |transfers| && transfers[k].id != id
        invariant k <= |transfers| && forall j :: 0 <= j < k ==> transfers[j].id != id
      {
        k := k + 1;
      }
      NotAmongFirstTransfers(transfers, id, k);
    }

    method TickSequence()
      modifies this`sequence
      ensures View() == Tick1(old(View()))
    {
      sequence := sequence + 1;
    }

    method DrawId(prefix: string) returns (id: Id)
      modifies this`draws
      ensures id == Drawn(prefix, old(draws)) && draws == old(draws) + 1
    {
      id := Drawn(prefix, draws);
      draws := draws + 1;
    }

    method AppendEntry(account: Account, kind: EntryKind, amount: int, transfer: Option<Id>, deposit: Option<Id>)
      returns (entry: Entry)
      modifies this`draws, this`entries
      ensures View() == Post(old(View()), account.id, kind, amount, account.currency, transfer, deposit)
      ensures entries == old(entries) + [entry]
    {
      var id := DrawId("ent");
      entry := Entry(id, account.id, kind, amount, account.currency, transfer, deposit, |entries| + 1, sequence);
      entries := entries + [entry];
    }

    method AddToBalance(k: nat, delta: int)
      requires k < |accounts| && forall i, j :: 0 <= i < j < |accounts| ==> accounts[i].id != accounts[j].id
      modifies this`accounts
      ensures View() == Credit(old(View()), old(accounts[k].id), delta)
      ensures forall i, j :: 0 <= i < j < |accounts| ==> accounts[i].id != accounts[j].id
    {
      CreditedAt(accounts, k, delta);
      accounts := accounts[k := accounts[k].(balance := accounts[k].balance + delta)];
    }

    // ---- accounts ----

    method CreateAccount(r: AccountRequest, p: Principal) returns (o: Outcome)
      requires Valid()
      modifies this
      ensures (View(), o) == LedgerSpec.CreateAccount(old(View()), r, p) && Valid()
    {
      hide Inv, Trim;
      CreateAccountInv(View(), r, p);
      if !r.isObject { return Refused(400, InvalidRequest); }
      if r.unknownProperty { return Refused(400, InvalidRequest); }
      if !r.owner.Given? || Trim(r.owner.value) == [] { return Refused(400, InvalidRequest); }
      if !r.ownerPrincipal.Absent? {
        if !r.ownerPrincipal.Given? || Trim(r.ownerPrincipal.value) == [] { return Refused(400, InvalidRequest); }
        if !p.admin { return Refused(403, Forbidden); }
      }
      if r.currency.Absent? || r.currency.Null? { return Refused(400, InvalidRequest); }
      if r.currency.WrongType? { return Refused(400, InvalidRequest); }
      if r.currency.value !in ["USD", "EUR"] { return Refused(422, UnsupportedCurrency); }
      TickSequence();
      var id := DrawId("acc");
      var account := Account(id, Customer, Trim(r.owner.value),
                             Trim(if r.ownerPrincipal.Given? then r.ownerPrincipal.value else p.id),
                             if r.currency.value == "USD" then USD else EUR, Opened, 0, sequence, sequence, None, None);
      accounts := accounts + [account];
      o := Done(201, AnAccount(account));
    }

    method ActivateAccount(id: Id, p: Principal) returns (o: Outcome)
      requires Valid()
      modifies this
      ensures (View(), o) == LedgerSpec.ActivateAccount(old(View()), id, p) && Valid()
    {
      hide Inv, AccountAt;
      ActivateAccountInv(View(), id, p);
      var k := FindAccount(id);
      if k == |accounts| { return Refused(404, AccountNotFound); }
      if !MayAct(accounts[k], p) { return Refused(403, Forbidden); }
      if accounts[k].status == Closed { return Refused(410, AccountClosed); }
      if accounts[k].status == Active { return Refused(409, AccountNotPending); }
      TickSequence();
      accounts := accounts[k := accounts[k].(status := Active)];
      accounts := accounts[k := accounts[k].(activated := Some(sequence))];
      assert accounts == old(accounts)[k := accounts[k]];
      o := Done(200, AnAccount(accounts[k]));
    }

    method CloseAccount(id: Id, p: Principal) returns (o: Outcome)
      requires Valid()
      modifies this
      ensures (View(), o) == LedgerSpec.CloseAccount(old(View()), id, p) && Valid()
    {
      hide Inv, AccountAt;
      CloseAccountInv(View(), id, p);
      var k := FindAccount(id);
      if k == |accounts| { return Refused(404, AccountNotFound); }
      if !MayAct(accounts[k], p) { return Refused(403, Forbidden); }
      if accounts[k].kind == System { return Refused(409, AccountNotClosable); }
      if accounts[k].status == Closed { return Refused(410, AccountClosed); }
      var i, pending := 0, 0;
      while i < |transfers|
        invariant 0 <= i <= |transfers|
        invariant pending > 0 <==> exists j :: 0 <= j < i && transfers[j].status == Pending && Involves(transfers[j], id)
        invariant pending >= 0
      {
        if transfers[i].status == Pending && (transfers[i].source == id || transfers[i].destination == id) {
          pending := pending + 1;
        }
        i := i + 1;
      }
      if pending > 0 { return Refused(409, HasPendingTransfers); }
      TickSequence();
      accounts := accounts[k := accounts[k].(status := Closed)];
      accounts := accounts[k := accounts[k].(closed := Some(sequence))];
      assert accounts == old(accounts)[k := accounts[k]];
      o := Done(200, AnAccount(accounts[k]));
    }

    // ---- deposits ----

    method CreateDeposit(r: DepositRequest, p: Principal) returns (o: Outcome)
      requires Valid()
      modifies this
      ensures (View(), o) == LedgerSpec.CreateDeposit(old(View()), r, p) && Valid()
    {
      hide Inv, Credited, AccountAt;
      CreateDepositInv(View(), r, p);
      DistinctAccounts(View());
      if !r.isObject { return Refused(400, InvalidRequest); }
      if r.unknownProperty { return Refused(400, InvalidRequest); }
      if !r.account.Given? { return Refused(400, InvalidRequest); }
      if !WellTyped(r.amount) { return Refused(400, InvalidRequest); }
      if r.amount.value <= 0 { return Refused(422, InvalidAmount); }
      var k := FindAccount(r.account.value);
      if k == |accounts| { return Refused(404, AccountNotFound); }
      var account := accounts[k];
      if !MayAct(account, p) { return Refused(403, Forbidden); }
      if account.status == Closed { return Refused(410, AccountClosed); }
      if account.status != Active { return Refused(409, AccountNotActive); }
      TickSequence();
      var id := DrawId("dep");
      var entry := AppendEntry(account, DepositEntry, r.amount.value, None, Some(id));
      AddToBalance(k, r.amount.value);
      var deposit := Deposit(id, account.id, r.amount.value, account.currency, sequence, entry.id);
      deposits := deposits + [deposit];
      o := Done(201, ADeposit(deposit));
    }

    // ---- transfers ----

    method InsertTransfer(source: Account, destination: Account, amount: int, key: string) returns (t: Transfer)
      modifies this`sequence, this`draws, this`transfers
      ensures t == NewTransfer(old(View()), source, destination, amount, key)
      ensures View() == LedgerSpec.InsertTransfer(old(View()), t)
    {
      TickSequence();
      var id := DrawId("tr");
      t := Transfer(id, Pending, source.id, destination.id, amount, FeeFor(amount), source.currency, key, sequence, sequence,
                    None, None);
      transfers := transfers + [t];
    }

    /** The two parties are looked at in turn, the payer first; the first that may not transact decides. */
    method CheckParties(source: Account, destination: Account) returns (refusal: Option<Outcome>)
      ensures refusal == if StatusRefusal(source).Some? then StatusRefusal(source) else StatusRefusal(destination)
    {
      var parties, i := [source, destination], 0;
      while i < |parties|
        invariant 0 <= i <= 2
        invariant forall j :: 0 <= j < i ==> StatusRefusal(parties[j]).None?
      {
        assert parties[1] == destination && parties[0] == source && (i == 1 ==> StatusRefusal(parties[0]).None?);
        if parties[i].status == Closed { return Some(Refused(410, AccountClosed)); }
        if parties[i].status == Opened { return Some(Refused(409, AccountNotActive)); }
        i := i + 1;
      }
      assert StatusRefusal(parties[0]).None? && StatusRefusal(parties[1]).None?;
      refusal := None;
    }

    method CreateTransfer(r: TransferRequest, key: string, p: Principal) returns (o: Outcome)
      requires Valid()
      modifies this
      ensures (View(), o) == LedgerSpec.CreateTransfer(old(View()), r, key, p) && Valid()
    {
      hide Inv, AccountAt, TransferAt, Scoped, FeeFor, NewTransfer, MayAct, StatusRefusal, CurrencyName;
      CreateTransferInv(View(), r, key, p);
      if !r.isObject { return Refused(400, InvalidRequest); }
      if r.unknownProperty { return Refused(400, InvalidRequest); }
      if !r.source.Given? { return Refused(400, InvalidRequest); }
      if !r.destination.Given? { return Refused(400, InvalidRequest); }
      if !r.currency.Absent? && !r.currency.Given? { return Refused(400, InvalidRequest); }
      if key != "" {
        var scoped := Scoped(p, key);
        if scoped in idempotency {
          if idempotency[scoped].request != r { return Refused(409, KeyConflict); }
          var i := FindTransfer(idempotency[scoped].transfer);
          if i == |transfers| { return Refused(500, LostTransfer); }
          return Done(200, ATransfer(transfers[i], true));
        }
      }
      if !WellTyped(r.amount) { return Refused(400, InvalidRequest); }
      if r.amount.value <= 0 { return Refused(422, InvalidAmount); }
      var amount := r.amount.value;
      var i := FindAccount(r.source.value);
      if i == |accounts| { return Refused(404, AccountNotFound); }
      var source := accounts[i];
      if !MayAct(source, p) { return Refused(403, Forbidden); }
      var j := FindAccount(r.destination.value);
      if j == |accounts| { return Refused(404, AccountNotFound); }
      var destination := accounts[j];
      if source.id == destination.id { return Refused(422, SameAccount); }
      var refusal := CheckParties(source, destination);
      if refusal.Some? { return refusal.value; }
      if r.currency.Given? && r.currency.value != CurrencyName(source.currency) { return Refused(422, CurrencyMismatch); }
      if source.currency != destination.currency { return Refused(422, CurrencyMismatch); }
      var used := if (source.id, day) in usage then usage[(source.id, day)] else 0;
      if used + amount > DAILY_LIMIT { return Refused(422, DailyLimitExceeded); }
      var fee := FeeFor(amount);
      if source.balance < amount + fee { return Refused(422, InsufficientFunds); }
      var t := InsertTransfer(source, destination, amount, key);
      usage := usage[(source.id, day) := used + amount];
      if key != "" {
        idempotency := idempotency[Scoped(p, key) := Used(r, t.id)];
      }
      o := Done(201, ATransfer(t, false));
    }

    method CancelTransfer(id: Id, p: Principal) returns (o: Outcome)
      requires Valid()
      modifies this
      ensures (View(), o) == LedgerSpec.CancelTransfer(old(View()), id, p) && Valid()
    {
      hide Inv, AccountAt, TransferAt;
      CancelTransferInv(View(), id, p);
      var k := FindTransfer(id);
      if k == |transfers| { return Refused(404, TransferNotFound); }
      var source := FindAccount(transfers[k].source);
      if source < |accounts| && !MayAct(accounts[source], p) { return Refused(403, Forbidden); }
      if transfers[k].status != Pending { return Refused(409, TransferNotPending); }
      TickSequence();
      transfers := transfers[k := transfers[k].(status := Canceled)];
      transfers := transfers[k := transfers[k].(canceled := Some(sequence))];
      assert transfers == old(transfers)[k := transfers[k]];
      o := Done(200, ATransfer(transfers[k], false));
    }

    // ---- settlement ----

    method PendingQueue() returns (queue: seq<nat>)
      ensures queue == Queue(View())
    {
      queue := [];
      var i := 0;
      while i < |transfers|
        invariant 0 <= i <= |transfers|
        invariant queue == PendingFrom(transfers[..i], 0)
      {
        QueueGrows(transfers, i);
        if transfers[i].status == Pending {
          queue := queue + [i];
        }
        i := i + 1;
      }
      assert transfers[..i] == transfers;
    }

    /** The three rows of a settled transfer, on the payer, the payee and the fee account. */
    method PostLegs(source: nat, destination: nat, fees: nat, t: Transfer, ghost s: State)
      requires s.(sequence := s.sequence + 1) == View()
      requires source < |accounts| && accounts[source].id == t.source && accounts[source].currency == t.currency
      requires destination < |accounts| && accounts[destination].id == t.destination
      requires accounts[destination].currency == t.currency
      requires fees < |accounts| && accounts[fees].id == FeeId(t.currency) && accounts[fees].currency == t.currency
      modifies this`draws, this`entries
      ensures View() == old(View()).(draws := s.draws + 3,
                                     entries := s.entries + [LegEntry(s, t, 0)] + [LegEntry(s, t, 1)] + [LegEntry(s, t, 2)])
    {
      var _ := AppendEntry(accounts[source], DebitEntry, -(t.amount + t.fee), Some(t.id), None);
      var _ := AppendEntry(accounts[destination], CreditEntry, t.amount, Some(t.id), None);
      var _ := AppendEntry(accounts[fees], FeeEntry, t.fee, Some(t.id), None);
    }

    /** The stored balances of the same three accounts. */
    method MoveFunds(source: nat, destination: nat, fees: nat, t: Transfer)
      requires forall i, j :: 0 <= i < j < |accounts| ==> accounts[i].id != accounts[j].id
      requires source < |accounts| && accounts[source].id == t.source
      requires destination < |accounts| && accounts[destination].id == t.destination
      requires fees < |accounts| && accounts[fees].id == FeeId(t.currency)
      modifies this`accounts
      ensures View() == old(View()).(accounts := Paid(old(accounts), t))
    {
      hide Credited;
      SameIds(accounts, t);
      AddToBalance(source, -(t.amount + t.fee));
      AddToBalance(destination, t.amount);
      AddToBalance(fees, t.fee);
    }

    /** Settle one pending transfer, or fail it without a row; true when it settled. */
    method Settle(i: nat) returns (settled: bool)
      requires Valid() && i < |transfers| && transfers[i].status == Pending
      modifies this`sequence, this`draws, this`entries, this`accounts, this`transfers
      ensures View() == SettleOne(old(View()), i) && Valid()
      ensures i < |transfers| && settled == (transfers[i].status == Settled) && transfers[i].id == old(transfers[i].id)
    {
      hide Inv, Credited, Paid, LegEntry, SettleOne;
      var t := transfers[i];
      ghost var s := View();
      SettleOneInv(s, i);
      SettleOneOthers(s, i);
      PartiesOf(s, i);
      var source := FindAccount(t.source);
      var destination := FindAccount(t.destination);
      var fees := FindAccount(FeeId(t.currency));
      TickSequence();
      if accounts[source].balance < t.amount + t.fee {
        FailedState(s, i);
        transfers := transfers[i := t.(status := Failed)];
        return false;
      }
      SettledState(s, i);
      PostLegs(source, destination, fees, t, s);
      MoveFunds(source, destination, fees, t);
      transfers := transfers[i := t.(status := Settled, settled := Some(sequence))];
      return true;
    }

    /** Advance settlement: the front of the queue in creation order, then the day if asked. */
    method Tick(limit: Option<int>, advanceDay: bool) returns (o: Outcome)
      requires Valid()
      modifies this
      ensures (View(), o) == LedgerSpec.Tick(old(View()), limit, advanceDay) && Valid()
    {
      hide Inv, PendingFrom, SettleOne, SettleAll, Ended, LedgerSpec.Tick;
      ghost var s := View();
      TickInv(s, limit, advanceDay);
      BatchFacts(s, limit);
      var pending := PendingQueue();
      var batch := if limit.None? then pending else pending[..Min(|pending|, Max(0, limit.value))];
      var settled, failed := [], [];
      var i := 0;
      assert batch == Batch(s, limit);
      NothingSettled(s, batch);
      while i < |batch|
        invariant 0 <= i <= |batch| && batch == Batch(s, limit)
        invariant SettledSoFar(s, batch, i, View(), settled, failed)
        invariant Valid()
      {
        SettlementAdvances(s, batch, i, View(), settled, failed);
        var done := Settle(batch[i]);
        if done {
          settled := settled + [transfers[batch[i]].id];
        } else {
          failed := failed + [transfers[batch[i]].id];
        }
        i := i + 1;
      }
      assert batch[..i] == batch;
      TickReports(s, limit, advanceDay);
      if advanceDay {
        day := day + 1;
        usage := map[];
      }
      var left := PendingQueue();
      o := Done(200, ATick(settled, failed, |left|, day));
    }
  }

  /** Tick's report, read off the settled state before the day moves on. */
  lemma {:induction false} TickReports(s: State, limit: Option<int>, advanceDay: bool)
    ensures var batch := Batch(s, limit);
            && LedgerSettlement.InRange(s, batch) && |SettleAll(s, batch).transfers| == |s.transfers|
            && var t := SettleAll(s, batch);
               var u := if advanceDay then t.(day := t.day + 1, usage := map[]) else t;
               LedgerSpec.Tick(s, limit, advanceDay)
               == (u, Done(200, ATick(Ended(t, batch, Settled), Ended(t, batch, Failed), |Queue(u)|, u.day)))
  {
    hide PendingFrom, SettleAll;
    BatchFacts(s, limit);
    var batch := Batch(s, limit);
    SettleAllLength(s, batch);
    var t := SettleAll(s, batch);
    var u := if advanceDay then t.(day := t.day + 1, usage := map[]) else t;
    LedgerSettlement.EndedSame(t, u, batch, Settled);
    LedgerSettlement.EndedSame(t, u, batch, Failed);
  }

  lemma DistinctAccounts(s: State)
    requires Inv(s)
    ensures forall i, j :: 0 <= i < j < |s.accounts| ==> s.accounts[i].id != s.accounts[j].id
  {}

  lemma NothingSettled(s: State, batch: seq<nat>)
    requires LedgerSettlement.InRange(s, batch)
    ensures SettledSoFar(s, batch, 0, s, [], [])
  {}

  /** The ids of the parties stay where they are while balances move. */
  lemma {:induction false} SameIds(accounts: seq<Account>, t: Transfer)
    ensures var a := Credited(accounts, t.source, -(t.amount + t.fee));
            var b := Credited(a, t.destination, t.amount);
            && b == Credited(a, t.destination, t.amount)
            && (forall k :: 0 <= k < |accounts| ==> a[k].id == accounts[k].id)
            && (forall k :: 0 <= k < |accounts| ==> b[k].id == accounts[k].id)
  {}

  /** SettleOne without the funds, written out. */
  lemma FailedState(s: State, i: nat)
    requires i < |s.transfers| && HasAccount(s, s.transfers[i].source)
    requires GetAccount(s, s.transfers[i].source).balance < s.transfers[i].amount + s.transfers[i].fee
    ensures SettleOne(s, i) == s.(sequence := s.sequence + 1, transfers := s.transfers[i := s.transfers[i].(status := Failed)])
  {}

  /** The accounts a pending transfer names exist, in its currency, and no two accounts share an id. */
  lemma {:induction false} PartiesOf(s: State, i: nat)
    requires Inv(s) && i < |s.transfers|
    ensures var t := s.transfers[i];
            && HasAccount(s, t.source) && GetAccount(s, t.source).currency == t.currency
            && HasAccount(s, t.destination) && GetAccount(s, t.destination).currency == t.currency
            && HasAccount(s, FeeId(t.currency)) && GetAccount(s, FeeId(t.currency)).currency == t.currency
    ensures forall j, k :: 0 <= j < k < |s.accounts| ==> s.accounts[j].id != s.accounts[k].id
  {
    var t := s.transfers[i];
    assert TransferOk(s.accounts, t);
    EndpointIs(s.accounts, t.source, t.currency, t.status == Pending);
    EndpointIs(s.accounts, t.destination, t.currency, t.status == Pending);
    var f := if t.currency == USD then 0 else 1;
    assert s.accounts[f].id == FeeId(t.currency) && s.accounts[f].currency == t.currency;
    AccountAtIndex(s.accounts, f);
  }

  lemma {:induction false} EndpointIs(accounts: seq<Account>, id: Id, c: Currency, active: bool)
    requires Endpoint(accounts, id, c, active)
    requires forall i, j :: 0 <= i < j < |accounts| ==> accounts[i].id != accounts[j].id
    ensures AccountAt(accounts, id) < |accounts| && accounts[AccountAt(accounts, id)].currency == c
  {
    var a :| 0 <= a < |accounts| && accounts[a].id == id && accounts[a].currency == c;
    AccountAtIndex(accounts, a);
  }
}

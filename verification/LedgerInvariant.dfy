/**
  What every operation of the ledger keeps.
*/
module LedgerInvariant {
  import opened Common
  import opened LedgerSpec

  // ---- sums and rows ----

  /** What an account's ledger rows add up to. */
  function Sum(es: seq<Entry>, id: Id): int {
    if es == [] then 0
    else Sum(es[..|es| - 1], id) + if es[|es| - 1].account == id then es[|es| - 1].amount else 0
  }

  function Total(accounts: seq<Account>): int {
    if accounts == [] then 0 else Total(accounts[..|accounts| - 1]) + accounts[|accounts| - 1].balance
  }

  function PaidIn(deposits: seq<Deposit>): int {
    if deposits == [] then 0 else PaidIn(deposits[..|deposits| - 1]) + deposits[|deposits| - 1].amount
  }

  /** One ledger row, without its id, number and time. */
  datatype Leg = Leg(account: Id, kind: EntryKind, amount: int)

  function LegsOf(es: seq<Entry>, transfer: Id): seq<Leg> {
    if es == [] then []
    else
      var e := es[|es| - 1];
      LegsOf(es[..|es| - 1], transfer) + if e.transfer == Some(transfer) then [Leg(e.account, e.kind, e.amount)] else []
  }

  function DepositRows(es: seq<Entry>, deposit: Id): seq<Entry> {
    if es == [] then []
    else
      var e := es[|es| - 1];
      DepositRows(es[..|es| - 1], deposit) + if e.deposit == Some(deposit) then [e] else []
  }

  /** The three rows of a settled transfer: the payer pays amount and fee, the payee gets the amount, the bank the fee. */
  function ThreeLegs(t: Transfer): (legs: seq<Leg>)
    ensures |legs| == 3 && legs[0].amount + legs[1].amount + legs[2].amount == 0
  {
    [Leg(t.source, DebitEntry, -(t.amount + t.fee)), Leg(t.destination, CreditEntry, t.amount),
     Leg(FeeId(t.currency), FeeEntry, t.fee)]
  }

  // ---- the invariant ----

  ghost predicate Endpoint(accounts: seq<Account>, id: Id, c: Currency, active: bool) {
    exists a :: 0 <= a < |accounts| && accounts[a].id == id && accounts[a].currency == c && (active ==> accounts[a].status == Active)
  }

  ghost predicate TransferOk(accounts: seq<Account>, t: Transfer) {
    && t.amount > 0 && t.fee == FeeFor(t.amount) && t.source != t.destination
    && Endpoint(accounts, t.source, t.currency, t.status == Pending)
    && Endpoint(accounts, t.destination, t.currency, t.status == Pending)
  }

  ghost predicate AccountsOk(accounts: seq<Account>, draws: nat) {
    && (forall i, j :: 0 <= i < j < |accounts| ==> accounts[i].id != accounts[j].id)
    && |accounts| >= 2
    && accounts[0].id == FeeId(USD) && accounts[0].currency == USD
    && accounts[1].id == FeeId(EUR) && accounts[1].currency == EUR
    && (forall i :: 0 <= i < 2 ==> accounts[i].kind == System && accounts[i].status == Active)
    && (forall i :: 2 <= i < |accounts| ==> && accounts[i].kind == Customer && accounts[i].id.Drawn?
                                            && accounts[i].id.prefix == "acc" && accounts[i].id.n < draws)
  }

  ghost predicate BalancesOk(accounts: seq<Account>, es: seq<Entry>) {
    forall i :: 0 <= i < |accounts| ==> accounts[i].balance == Sum(es, accounts[i].id) && accounts[i].balance >= 0
  }

  ghost predicate EntriesOk(accounts: seq<Account>, es: seq<Entry>, draws: nat) {
    && (forall k :: 0 <= k < |es| ==> es[k].sequence == k + 1 && es[k].id.Drawn? && es[k].id.n < draws)
    && (forall j, k :: 0 <= j < k < |es| ==> es[j].id.n < es[k].id.n)
    && (forall k :: 0 <= k < |es| ==> AccountAt(accounts, es[k].account) < |accounts|)
    && (forall k :: 0 <= k < |es| && es[k].transfer.Some? ==> es[k].transfer.value.Drawn? && es[k].transfer.value.n < draws)
    && (forall k :: 0 <= k < |es| && es[k].deposit.Some? ==> es[k].deposit.value.Drawn? && es[k].deposit.value.n < draws)
  }

  ghost predicate TransfersOk(accounts: seq<Account>, ts: seq<Transfer>, sequence: nat, draws: nat) {
    && (forall i :: 0 <= i < |ts| ==> TransferOk(accounts, ts[i]))
    && (forall i :: 0 <= i < |ts| ==> ts[i].id.Drawn? && ts[i].id.prefix == "tr" && ts[i].id.n < draws && ts[i].sequence <= sequence)
    && (forall i, j :: 0 <= i < j < |ts| ==> ts[i].id.n < ts[j].id.n && ts[i].sequence < ts[j].sequence)
  }

  /** Exactly three rows for a settled transfer, none for any other. */
  ghost predicate LegsOk(ts: seq<Transfer>, es: seq<Entry>) {
    forall i :: 0 <= i < |ts| ==> LegsOf(es, ts[i].id) == if ts[i].status == Settled then ThreeLegs(ts[i]) else []
  }

  /** Exactly one row for every deposit, the one its receipt names. */
  ghost predicate DepositsOk(ds: seq<Deposit>, es: seq<Entry>, draws: nat) {
    forall i :: 0 <= i < |ds| ==>
      && ds[i].id.Drawn? && ds[i].id.n < draws
      && |DepositRows(es, ds[i].id)| == 1
      && var e := DepositRows(es, ds[i].id)[0];
         e.id == ds[i].entry && e.account == ds[i].account && e.amount == ds[i].amount && e.kind == DepositEntry
  }

  ghost predicate UsageOk(s: State) {
    forall k :: k in s.usage ==> k.1 == s.day && 0 <= s.usage[k] <= DAILY_LIMIT
  }

  ghost predicate KeysOk(s: State) {
    forall k :: k in s.idempotency ==> Remembered(s.transfers, s.idempotency[k])
  }

  /** A remembered key still names the transfer its request created. */
  ghost predicate Remembered(ts: seq<Transfer>, u: Used) {
    && !MalformedTransfer(u.request) && u.request.amount.Given?
    && exists i :: 0 <= i < |ts| && ts[i].id == u.transfer && ts[i].source == u.request.source.value
                   && ts[i].destination == u.request.destination.value && ts[i].amount == u.request.amount.value
  }

  ghost predicate Inv(s: State) {
    && AccountsOk(s.accounts, s.draws)
    && BalancesOk(s.accounts, s.entries)
    && Total(s.accounts) == PaidIn(s.deposits)
    && EntriesOk(s.accounts, s.entries, s.draws)
    && TransfersOk(s.accounts, s.transfers, s.sequence, s.draws)
    && LegsOk(s.transfers, s.entries)
    && DepositsOk(s.deposits, s.entries, s.draws)
    && UsageOk(s)
    && KeysOk(s)
  }

  lemma {:induction false} ResetInv()
    ensures Inv(Reset())
  {
    var s := Reset();
    assert s.accounts[..2] == s.accounts && s.accounts[..1] == [FeeAccount(USD)];
    assert Total(s.accounts) == Total(s.accounts[..1]) + 0;
    assert s.accounts[..1][..0] == [];
  }

  // ---- how the parts react to a change ----

  lemma {:induction false} SumAppend(es: seq<Entry>, e: Entry, id: Id)
    ensures Sum(es + [e], id) == Sum(es, id) + if e.account == id then e.amount else 0
  {
    assert (es + [e])[..|es|] == es;
  }

  lemma {:induction false} LegsAppend(es: seq<Entry>, e: Entry, t: Id)
    ensures LegsOf(es + [e], t) == LegsOf(es, t) + if e.transfer == Some(t) then [Leg(e.account, e.kind, e.amount)] else []
  {
    assert (es + [e])[..|es|] == es;
  }

  lemma {:induction false} RowsAppend(es: seq<Entry>, e: Entry, d: Id)
    ensures DepositRows(es + [e], d) == DepositRows(es, d) + if e.deposit == Some(d) then [e] else []
  {
    assert (es + [e])[..|es|] == es;
  }

  lemma {:induction false} NoLegs(es: seq<Entry>, t: Id)
    requires forall k :: 0 <= k < |es| ==> es[k].transfer != Some(t)
    ensures LegsOf(es, t) == []
  {
    if es != [] { NoLegs(es[..|es| - 1], t); }
  }

  lemma {:induction false} NoRows(es: seq<Entry>, d: Id)
    requires forall k :: 0 <= k < |es| ==> es[k].deposit != Some(d)
    ensures DepositRows(es, d) == []
  {
    if es != [] { NoRows(es[..|es| - 1], d); }
  }

  lemma {:induction false} NoSum(es: seq<Entry>, id: Id)
    requires forall k :: 0 <= k < |es| ==> es[k].account != id
    ensures Sum(es, id) == 0
  {
    if es != [] { NoSum(es[..|es| - 1], id); }
  }

  lemma {:induction false} TotalAppend(accounts: seq<Account>, a: Account)
    ensures Total(accounts + [a]) == Total(accounts) + a.balance
  {
    assert (accounts + [a])[..|accounts|] == accounts;
  }

  lemma {:induction false} TotalSame(a: seq<Account>, b: seq<Account>)
    requires |a| == |b| && forall i :: 0 <= i < |a| ==> a[i].balance == b[i].balance
    ensures Total(a) == Total(b)
  {
    if a != [] { TotalSame(a[..|a| - 1], b[..|b| - 1]); }
  }

  lemma {:induction false} TotalUntouched(accounts: seq<Account>, id: Id, delta: int)
    requires forall i :: 0 <= i < |accounts| ==> accounts[i].id != id
    ensures Credited(accounts, id, delta) == accounts
  {}

  /** Crediting the one account of an id raises the total by exactly that much. */
  lemma {:induction false} TotalCredit(accounts: seq<Account>, id: Id, delta: int, k: nat)
    requires k < |accounts| && accounts[k].id == id
    requires forall i, j :: 0 <= i < j < |accounts| ==> accounts[i].id != accounts[j].id
    ensures Total(Credited(accounts, id, delta)) == Total(accounts) + delta
  {
    var last := |accounts| - 1;
    var front := accounts[..last];
    assert Credited(accounts, id, delta)[..last] == Credited(front, id, delta);
    if k == last {
      TotalUntouched(front, id, delta);
    } else {
      TotalCredit(front, id, delta, k);
    }
  }

  lemma AccountAtIndex(accounts: seq<Account>, k: nat)
    requires k < |accounts| && forall i, j :: 0 <= i < j < |accounts| ==> accounts[i].id != accounts[j].id
    ensures AccountAt(accounts, accounts[k].id) == k
  {}

  lemma {:induction false} EndpointsKept(a: seq<Account>, b: seq<Account>, t: Transfer)
    requires TransferOk(a, t) && |a| <= |b|
    requires forall i :: 0 <= i < |a| ==> a[i].id == b[i].id && a[i].currency == b[i].currency
    requires forall i :: 0 <= i < |a| && a[i].status == Active && t.status == Pending && Involves(t, a[i].id) ==> b[i].status == Active
    ensures TransferOk(b, t)
  {
    var i :| 0 <= i < |a| && a[i].id == t.source && a[i].currency == t.currency && (t.status == Pending ==> a[i].status == Active);
    var j :| 0 <= j < |a| && a[j].id == t.destination && a[j].currency == t.currency && (t.status == Pending ==> a[j].status == Active);
    assert b[i].id == t.source && b[j].id == t.destination;
  }

  lemma {:induction false} TransfersKept(a: seq<Account>, b: seq<Account>, ts: seq<Transfer>, sequence: nat, draws: nat, sequence': nat, draws': nat)
    requires TransfersOk(a, ts, sequence, draws) && |a| <= |b| && sequence <= sequence' && draws <= draws'
    requires forall i :: 0 <= i < |a| ==> a[i].id == b[i].id && a[i].currency == b[i].currency
    requires forall i :: 0 <= i < |a| && a[i].status == Active && HasPending(ts, a[i].id) ==> b[i].status == Active
    ensures TransfersOk(b, ts, sequence', draws')
  {
    forall k | 0 <= k < |ts| ensures TransferOk(b, ts[k]) {
      forall i | 0 <= i < |a| && a[i].status == Active && ts[k].status == Pending && Involves(ts[k], a[i].id)
        ensures b[i].status == Active
      {
        assert HasPending(ts, a[i].id);
      }
      EndpointsKept(a, b, ts[k]);
    }
  }

  // Each operation below changes some parts of the state; the parts are taken one by one.

  // ---- accounts ----

  lemma {:induction false} KeysKept(s: State, us: seq<Transfer>)
    requires KeysOk(s) && |s.transfers| <= |us|
    requires forall i :: 0 <= i < |s.transfers| ==>
      && us[i].id == s.transfers[i].id && us[i].source == s.transfers[i].source
      && us[i].destination == s.transfers[i].destination && us[i].amount == s.transfers[i].amount
    ensures forall k :: k in s.idempotency ==> Remembered(us, s.idempotency[k])
  {
    forall k | k in s.idempotency ensures Remembered(us, s.idempotency[k]) {
      RememberedKept(s.transfers, us, s.idempotency[k]);
    }
  }

  lemma {:induction false} AppendedAccount(accounts: seq<Account>, a: Account, es: seq<Entry>, draws: nat)
    requires AccountsOk(accounts, draws) && BalancesOk(accounts, es) && EntriesOk(accounts, es, draws)
    requires a.id == Drawn("acc", draws) && a.kind == Customer && a.balance == 0
    ensures AccountsOk(accounts + [a], draws + 1)
    ensures BalancesOk(accounts + [a], es)
  {
    forall k | 0 <= k < |es| ensures es[k].account != a.id {
      assert accounts[AccountAt(accounts, es[k].account)].id == es[k].account;
    }
    NoSum(es, a.id);
  }

  lemma {:induction false} EntriesAcross(a: seq<Account>, b: seq<Account>, es: seq<Entry>, draws: nat, draws': nat)
    requires EntriesOk(a, es, draws) && |a| <= |b| && draws <= draws'
    requires forall i :: 0 <= i < |a| ==> a[i].id == b[i].id
    ensures EntriesOk(b, es, draws')
  {
    forall k | 0 <= k < |es| ensures AccountAt(b, es[k].account) < |b| {
      assert b[AccountAt(a, es[k].account)].id == es[k].account;
    }
  }

  lemma {:induction false} NewAccountInv(s: State, a: Account)
    requires Inv(s) && a.id == Drawn("acc", s.draws) && a.kind == Customer && a.balance == 0
    ensures Inv(s.(sequence := s.sequence + 1, draws := s.draws + 1, accounts := s.accounts + [a]))
  {
    hide AccountsOk, BalancesOk, EntriesOk, TransfersOk, LegsOk, DepositsOk, Remembered;
    var b := s.accounts + [a];
    AppendedAccount(s.accounts, a, s.entries, s.draws);
    TotalAppend(s.accounts, a);
    EntriesAcross(s.accounts, b, s.entries, s.draws, s.draws + 1);
    TransfersKept(s.accounts, b, s.transfers, s.sequence, s.draws, s.sequence + 1, s.draws + 1);
    DepositsLater(s.deposits, s.entries, s.draws, s.draws + 1);
  }

  lemma DepositsLater(ds: seq<Deposit>, es: seq<Entry>, draws: nat, draws': nat)
    requires DepositsOk(ds, es, draws) && draws <= draws'
    ensures DepositsOk(ds, es, draws')
  {}

  lemma {:induction false} RestatedAccount(accounts: seq<Account>, k: nat, b: Account, es: seq<Entry>, draws: nat)
    requires AccountsOk(accounts, draws) && BalancesOk(accounts, es) && 2 <= k < |accounts|
    requires b == accounts[k].(status := b.status, activated := b.activated, closed := b.closed)
    ensures AccountsOk(accounts[k := b], draws) && BalancesOk(accounts[k := b], es)
  {}

  lemma {:induction false} StatusInv(s: State, k: nat, b: Account)
    requires Inv(s) && 2 <= k < |s.accounts|
    requires b == s.accounts[k].(status := b.status, activated := b.activated, closed := b.closed)
    requires b.status == Active || !HasPending(s.transfers, b.id)
    ensures Inv(s.(sequence := s.sequence + 1, accounts := s.accounts[k := b]))
  {
    hide AccountsOk, BalancesOk, EntriesOk, TransfersOk, LegsOk, DepositsOk, Remembered;
    var c := s.accounts[k := b];
    RestatedAccount(s.accounts, k, b, s.entries, s.draws);
    TotalSame(s.accounts, c);
    EntriesAcross(s.accounts, c, s.entries, s.draws, s.draws);
    TransfersKept(s.accounts, c, s.transfers, s.sequence, s.draws, s.sequence + 1, s.draws);
  }

  // ---- deposits ----

  lemma {:induction false} CreditBalances(accounts: seq<Account>, es: seq<Entry>, e: Entry)
    requires BalancesOk(accounts, es)
    requires forall i :: 0 <= i < |accounts| && accounts[i].id == e.account ==> accounts[i].balance + e.amount >= 0
    ensures BalancesOk(Credited(accounts, e.account, e.amount), es + [e])
  {
    forall i | 0 <= i < |accounts|
      ensures Credited(accounts, e.account, e.amount)[i].balance == Sum(es + [e], accounts[i].id)
    {
      SumAppend(es, e, accounts[i].id);
    }
  }

  lemma {:induction false} EntryAppended(accounts: seq<Account>, es: seq<Entry>, draws: nat, e: Entry)
    requires EntriesOk(accounts, es, draws) && e.sequence == |es| + 1 && e.id.Drawn? && e.id.n == draws
    requires AccountAt(accounts, e.account) < |accounts|
    requires e.transfer.Some? ==> e.transfer.value.Drawn? && e.transfer.value.n <= draws
    requires e.deposit.Some? ==> e.deposit.value.Drawn? && e.deposit.value.n <= draws
    ensures EntriesOk(accounts, es + [e], draws + 1)
  {}

  lemma {:induction false} CreditedIds(accounts: seq<Account>, id: Id, delta: int, draws: nat, draws': nat)
    requires AccountsOk(accounts, draws) && draws <= draws'
    ensures AccountsOk(Credited(accounts, id, delta), draws')
  {}

  lemma {:induction false} LegsUnmoved(ts: seq<Transfer>, es: seq<Entry>, e: Entry)
    requires LegsOk(ts, es) && forall i :: 0 <= i < |ts| ==> e.transfer != Some(ts[i].id)
    ensures LegsOk(ts, es + [e])
  {
    forall i | 0 <= i < |ts| ensures LegsOf(es + [e], ts[i].id) == LegsOf(es, ts[i].id) {
      LegsAppend(es, e, ts[i].id);
    }
  }

  lemma {:induction false} DepositRecorded(ds: seq<Deposit>, es: seq<Entry>, accounts: seq<Account>, draws: nat, e: Entry, d: Deposit)
    requires DepositsOk(ds, es, draws) && EntriesOk(accounts, es, draws)
    requires d.id == Drawn("dep", draws) && e.deposit == Some(d.id) && e.kind == DepositEntry
    requires e.id == d.entry && e.account == d.account && e.amount == d.amount
    ensures DepositsOk(ds + [d], es + [e], draws + 2)
    ensures PaidIn(ds + [d]) == PaidIn(ds) + d.amount
  {
    assert (ds + [d])[..|ds|] == ds;
    NoRows(es, d.id);
    RowsAppend(es, e, d.id);
    forall i | 0 <= i < |ds| ensures DepositRows(es + [e], ds[i].id) == DepositRows(es, ds[i].id) {
      RowsAppend(es, e, ds[i].id);
    }
  }

  function DepositEntryOf(s: State, a: Account, amount: int): Entry {
    Entry(Drawn("ent", s.draws + 1), a.id, DepositEntry, amount, a.currency, None, Some(Drawn("dep", s.draws)),
          |s.entries| + 1, s.sequence + 1)
  }

  function DepositOf(s: State, a: Account, amount: int): Deposit {
    Deposit(Drawn("dep", s.draws), a.id, amount, a.currency, s.sequence + 1, Drawn("ent", s.draws + 1))
  }

  /** One row and the credit that goes with it. */
  lemma {:induction false} Posted(accounts: seq<Account>, es: seq<Entry>, draws: nat, e: Entry, k: nat)
    requires AccountsOk(accounts, draws) && BalancesOk(accounts, es) && EntriesOk(accounts, es, draws)
    requires k < |accounts| && e.account == accounts[k].id && accounts[k].balance + e.amount >= 0
    requires e.sequence == |es| + 1 && e.id.Drawn? && e.id.n == draws
    requires e.transfer.Some? ==> e.transfer.value.Drawn? && e.transfer.value.n <= draws
    requires e.deposit.Some? ==> e.deposit.value.Drawn? && e.deposit.value.n <= draws
    ensures var b := Credited(accounts, e.account, e.amount);
            AccountsOk(b, draws + 1) && BalancesOk(b, es + [e]) && EntriesOk(b, es + [e], draws + 1)
    ensures Total(Credited(accounts, e.account, e.amount)) == Total(accounts) + e.amount
  {
    hide EntriesOk, BalancesOk;
    var b := Credited(accounts, e.account, e.amount);
    OneCredited(accounts, es, e, k);
    TotalCredit(accounts, e.account, e.amount, k);
    CreditedIds(accounts, e.account, e.amount, draws, draws + 1);
    EntriesAcross(accounts, b, es, draws, draws);
    assert b[k].id == e.account;
    EntryAppended(b, es, draws, e);
  }

  lemma {:induction false} OneCredited(accounts: seq<Account>, es: seq<Entry>, e: Entry, k: nat)
    requires BalancesOk(accounts, es) && k < |accounts| && e.account == accounts[k].id && accounts[k].balance + e.amount >= 0
    requires forall i, j :: 0 <= i < j < |accounts| ==> accounts[i].id != accounts[j].id
    ensures BalancesOk(Credited(accounts, e.account, e.amount), es + [e])
  {
    CreditBalances(accounts, es, e);
  }

  lemma {:induction false} DepositInv(s: State, k: nat, amount: int)
    requires Inv(s) && k < |s.accounts| && amount > 0
    ensures var a := s.accounts[k];
            Inv(s.(sequence := s.sequence + 1, draws := s.draws + 2, accounts := Credited(s.accounts, a.id, amount),
                   entries := s.entries + [DepositEntryOf(s, a, amount)], deposits := s.deposits + [DepositOf(s, a, amount)]))
  {
    hide AccountsOk, BalancesOk, EntriesOk, TransfersOk, LegsOk, DepositsOk, Remembered, Total, PaidIn;
    var a := s.accounts[k];
    var e, d := DepositEntryOf(s, a, amount), DepositOf(s, a, amount);
    var b := Credited(s.accounts, a.id, amount);
    EntriesAcross(s.accounts, s.accounts, s.entries, s.draws, s.draws + 1);
    AccountsLater(s.accounts, s.draws);
    NonNegative(s.accounts, s.entries, k);
    Posted(s.accounts, s.entries, s.draws + 1, e, k);
    DepositRecorded(s.deposits, s.entries, s.accounts, s.draws, e, d);
    TransfersKept(s.accounts, b, s.transfers, s.sequence, s.draws, s.sequence + 1, s.draws + 2);
    LegsUnmoved(s.transfers, s.entries, e);
  }

  lemma NonNegative(accounts: seq<Account>, es: seq<Entry>, k: nat)
    requires BalancesOk(accounts, es) && k < |accounts|
    ensures accounts[k].balance >= 0
  {}

  lemma AccountsLater(accounts: seq<Account>, draws: nat)
    requires AccountsOk(accounts, draws)
    ensures AccountsOk(accounts, draws + 1)
  {}

  // ---- transfers ----

  lemma InsertedTransferOk(s: State, t: Transfer)
    requires TransfersOk(s.accounts, s.transfers, s.sequence, s.draws) && TransferOk(s.accounts, t)
    requires t.id == Drawn("tr", s.draws) && t.sequence == s.sequence + 1
    ensures TransfersOk(s.accounts, s.transfers + [t], s.sequence + 1, s.draws + 1)
  {}

  lemma {:induction false} InsertedLegs(accounts: seq<Account>, ts: seq<Transfer>, es: seq<Entry>, draws: nat, t: Transfer)
    requires LegsOk(ts, es) && EntriesOk(accounts, es, draws) && t.id == Drawn("tr", draws) && t.status == Pending
    ensures LegsOk(ts + [t], es)
  {
    NoLegs(es, t.id);
  }

  lemma {:induction false} RememberedKept(ts: seq<Transfer>, us: seq<Transfer>, u: Used)
    requires Remembered(ts, u) && |ts| <= |us|
    requires forall i :: 0 <= i < |ts| ==> us[i].id == ts[i].id && us[i].source == ts[i].source
                                           && us[i].destination == ts[i].destination && us[i].amount == ts[i].amount
    ensures Remembered(us, u)
  {
    var i :| 0 <= i < |ts| && ts[i].id == u.transfer && ts[i].source == u.request.source.value
             && ts[i].destination == u.request.destination.value && ts[i].amount == u.request.amount.value;
    assert us[i].id == u.transfer;
  }

  /** A new pending transfer, with its usage and its key. */
  lemma {:induction false} InsertInv(s: State, t: Transfer, usage: map<(Id, nat), int>, keys: map<string, Used>)
    requires Inv(s) && TransferOk(s.accounts, t) && t.status == Pending
    requires t.id == Drawn("tr", s.draws) && t.sequence == s.sequence + 1
    requires UsageOk(s.(usage := usage))
    requires forall k :: k in keys ==> (k in s.idempotency && keys[k] == s.idempotency[k]) || Remembered(s.transfers + [t], keys[k])
    ensures Inv(s.(sequence := s.sequence + 1, draws := s.draws + 1, transfers := s.transfers + [t], usage := usage,
                   idempotency := keys))
  {
    hide BalancesOk, EntriesOk, TransfersOk, LegsOk, DepositsOk, Remembered, TransferOk;
    InsertedTransferOk(s, t);
    InsertedLegs(s.accounts, s.transfers, s.entries, s.draws, t);
    EntriesAcross(s.accounts, s.accounts, s.entries, s.draws, s.draws + 1);
    DepositsLater(s.deposits, s.entries, s.draws, s.draws + 1);
    KeysKept(s, s.transfers + [t]);
  }

  lemma {:induction false} EndedOk(accounts: seq<Account>, p: Transfer, t: Transfer)
    requires TransferOk(accounts, p) && t.status != Pending
    requires t == p.(status := t.status, settled := t.settled, canceled := t.canceled)
    ensures TransferOk(accounts, t)
  {
    var i :| 0 <= i < |accounts| && accounts[i].id == p.source && accounts[i].currency == p.currency;
    var j :| 0 <= j < |accounts| && accounts[j].id == p.destination && accounts[j].currency == p.currency;
  }

  lemma {:induction false} EndedTransfers(accounts: seq<Account>, ts: seq<Transfer>, i: nat, t: Transfer, sequence: nat, draws: nat)
    requires TransfersOk(accounts, ts, sequence, draws) && i < |ts| && t.status != Pending
    requires t == ts[i].(status := t.status, settled := t.settled, canceled := t.canceled)
    ensures TransfersOk(accounts, ts[i := t], sequence + 1, draws)
  {
    EndedOk(accounts, ts[i], t);
  }

  lemma EndedLegs(ts: seq<Transfer>, es: seq<Entry>, i: nat, t: Transfer)
    requires LegsOk(ts, es) && i < |ts| && ts[i].status != Settled && t.status != Settled && t.id == ts[i].id
    ensures LegsOk(ts[i := t], es)
  {}

  /** A pending transfer that ends without any ledger rows. */
  lemma {:induction false} EndedInv(s: State, i: nat, t: Transfer)
    requires Inv(s) && i < |s.transfers| && s.transfers[i].status == Pending
    requires t == s.transfers[i].(status := t.status, canceled := t.canceled) && (t.status == Failed || t.status == Canceled)
    ensures Inv(s.(sequence := s.sequence + 1, transfers := s.transfers[i := t]))
  {
    hide AccountsOk, BalancesOk, EntriesOk, TransfersOk, LegsOk, DepositsOk, Remembered;
    EndedTransfers(s.accounts, s.transfers, i, t, s.sequence, s.draws);
    EndedLegs(s.transfers, s.entries, i, t);
    KeysKept(s, s.transfers[i := t]);
  }

  // ---- settlement ----

  lemma {:induction false} RowsUnmoved(ds: seq<Deposit>, es: seq<Entry>, draws: nat, e: Entry)
    requires DepositsOk(ds, es, draws) && e.deposit.None?
    ensures DepositsOk(ds, es + [e], draws + 1)
  {
    forall i | 0 <= i < |ds| ensures DepositRows(es + [e], ds[i].id) == DepositRows(es, ds[i].id) {
      RowsAppend(es, e, ds[i].id);
    }
  }

  function LegEntry(s: State, t: Transfer, j: nat): Entry
    requires j < 3
  {
    var leg := ThreeLegs(t)[j];
    Entry(Drawn("ent", s.draws + j), leg.account, leg.kind, leg.amount, t.currency, Some(t.id), None, |s.entries| + 1 + j,
          s.sequence + 1)
  }

  lemma {:induction false} PostedCredit(accounts: seq<Account>, es: seq<Entry>, draws: nat, e: Entry, k: nat)
    requires AccountsOk(accounts, draws) && BalancesOk(accounts, es) && EntriesOk(accounts, es, draws)
    requires k < |accounts| && e.account == accounts[k].id && e.amount >= 0
    requires e.sequence == |es| + 1 && e.id.Drawn? && e.id.n == draws && e.deposit.None?
    requires e.transfer.Some? ==> e.transfer.value.Drawn? && e.transfer.value.n <= draws
    ensures var b := Credited(accounts, e.account, e.amount);
            && AccountsOk(b, draws + 1) && BalancesOk(b, es + [e]) && EntriesOk(b, es + [e], draws + 1)
            && Total(b) == Total(accounts) + e.amount
  {
    hide AccountsOk, EntriesOk;
    Posted(accounts, es, draws, e, k);
  }

  /** Rows and balances after the three legs, whichever accounts they touch. */
  lemma {:induction false} LegsPosted(s: State, t: Transfer, i: nat, j: nat, f: nat)
    requires AccountsOk(s.accounts, s.draws) && BalancesOk(s.accounts, s.entries) && EntriesOk(s.accounts, s.entries, s.draws)
    requires i < |s.accounts| && s.accounts[i].id == t.source && s.accounts[i].balance >= t.amount + t.fee
    requires j < |s.accounts| && s.accounts[j].id == t.destination
    requires f < |s.accounts| && s.accounts[f].id == FeeId(t.currency)
    requires t.amount > 0 && t.fee > 0 && t.id.Drawn? && t.id.n < s.draws
    ensures var a := Paid(s.accounts, t);
            var es := s.entries + [LegEntry(s, t, 0)] + [LegEntry(s, t, 1)] + [LegEntry(s, t, 2)];
            && AccountsOk(a, s.draws + 3) && BalancesOk(a, es) && EntriesOk(a, es, s.draws + 3)
            && Total(a) == Total(s.accounts)
  {
    hide AccountsOk, EntriesOk, BalancesOk, Total;
    var e0, e1, e2 := LegEntry(s, t, 0), LegEntry(s, t, 1), LegEntry(s, t, 2);
    var a1 := Credited(s.accounts, e0.account, e0.amount);
    var a2 := Credited(a1, e1.account, e1.amount);
    var es1 := s.entries + [e0];
    assert a1[j].id == s.accounts[j].id && a2[f].id == a1[f].id == s.accounts[f].id;
    Posted(s.accounts, s.entries, s.draws, e0, i);
    PostedCredit(a1, es1, s.draws + 1, e1, j);
    PostedCredit(a2, es1 + [e1], s.draws + 2, e2, f);
  }

  function Paid(accounts: seq<Account>, t: Transfer): (r: seq<Account>)
    ensures |r| == |accounts|
    ensures forall k :: 0 <= k < |accounts| ==> r[k] == accounts[k].(balance := r[k].balance)
  {
    Credited(Credited(Credited(accounts, t.source, -(t.amount + t.fee)), t.destination, t.amount), FeeId(t.currency), t.fee)
  }

  lemma {:induction false} ThreeAppended(es: seq<Entry>, e0: Entry, e1: Entry, e2: Entry, t: Id, id: Id)
    requires e0.transfer == e1.transfer == e2.transfer == Some(t)
    ensures LegsOf(es + [e0] + [e1] + [e2], id) ==
            if id != t then LegsOf(es, id)
            else LegsOf(es, id) + [Leg(e0.account, e0.kind, e0.amount)] + [Leg(e1.account, e1.kind, e1.amount)]
                 + [Leg(e2.account, e2.kind, e2.amount)]
  {
    hide LegsOf;
    LegsAppend(es, e0, id);
    LegsAppend(es + [e0], e1, id);
    LegsAppend(es + [e0] + [e1], e2, id);
    assert forall q: seq<Leg> :: q + [] == q;
  }

  lemma {:induction false} SettledLegs(s: State, i: nat, t: Transfer)
    requires LegsOk(s.transfers, s.entries) && i < |s.transfers| && s.transfers[i].status == Pending
    requires t == s.transfers[i].(status := Settled, settled := t.settled)
    requires forall j, k :: 0 <= j < k < |s.transfers| ==> s.transfers[j].id != s.transfers[k].id
    ensures LegsOk(s.transfers[i := t], s.entries + [LegEntry(s, t, 0)] + [LegEntry(s, t, 1)] + [LegEntry(s, t, 2)])
  {
    hide LegsOf;
    var e0, e1, e2 := LegEntry(s, t, 0), LegEntry(s, t, 1), LegEntry(s, t, 2);
    forall k | 0 <= k < |s.transfers|
      ensures LegsOf(s.entries + [e0] + [e1] + [e2], s.transfers[k].id) ==
              if k == i then ThreeLegs(t) else LegsOf(s.entries, s.transfers[k].id)
    {
      ThreeAppended(s.entries, e0, e1, e2, t.id, s.transfers[k].id);
    }
  }

  lemma FeePositive(amount: int)
    requires amount > 0
    ensures FeeFor(amount) >= FEE_FLAT
  {}

  /** Settling moves amount and fee between three accounts, or fails without a trace. */
  lemma {:induction false} SettleOneInv(s: State, i: nat)
    requires Inv(s) && i < |s.transfers| && s.transfers[i].status == Pending
    ensures Inv(SettleOne(s, i))
  {
    hide Inv, AccountAt, Endpoint;
    var t := s.transfers[i];
    IsOk(s, i);
    EndpointFound(s.accounts, t.source, t.currency, true);
    EndpointFound(s.accounts, t.destination, t.currency, true);
    if GetAccount(s, t.source).balance < t.amount + t.fee {
      EndedInv(s, i, t.(status := Failed));
    } else {
      SettledInv(s, i);
    }
  }

  lemma IsOk(s: State, i: nat)
    requires Inv(s) && i < |s.transfers|
    ensures TransferOk(s.accounts, s.transfers[i])
  {}

  lemma {:induction false} EndpointFound(accounts: seq<Account>, id: Id, c: Currency, active: bool)
    requires Endpoint(accounts, id, c, active)
    ensures AccountAt(accounts, id) < |accounts|
  {
    var a :| 0 <= a < |accounts| && accounts[a].id == id;
  }

  lemma {:induction false} SettleFacts(s: State, i: nat) returns (f: nat)
    requires Inv(s) && i < |s.transfers|
    ensures var t := s.transfers[i];
            && f < |s.accounts| && s.accounts[f].id == FeeId(t.currency)
            && t.amount > 0 && t.fee > 0 && t.id.Drawn? && t.id.n < s.draws
    ensures forall j, k :: 0 <= j < k < |s.transfers| ==> s.transfers[j].id != s.transfers[k].id
  {
    f := if s.transfers[i].currency == USD then 0 else 1;
    assert TransferOk(s.accounts, s.transfers[i]);
    FeePositive(s.transfers[i].amount);
  }

  lemma {:induction false} SettledInv(s: State, i: nat)
    requires Inv(s) && i < |s.transfers| && s.transfers[i].status == Pending
    requires HasAccount(s, s.transfers[i].source) && HasAccount(s, s.transfers[i].destination)
    requires GetAccount(s, s.transfers[i].source).balance >= s.transfers[i].amount + s.transfers[i].fee
    ensures Inv(SettleOne(s, i))
  {
    hide AccountsOk, BalancesOk, EntriesOk, TransfersOk, LegsOk, DepositsOk, Remembered, SettleOne, Total, Credited, LegEntry;
    var t := s.transfers[i];
    var t' := t.(status := Settled, settled := Some(s.sequence + 1));
    var f := SettleFacts(s, i);
    SameLegs(s, t, t');
    LegsPosted(s, t', AccountAt(s.accounts, t.source), AccountAt(s.accounts, t.destination), f);
    SettledLegs(s, i, t');
    LegsKeepDeposits(s, t');
    TransfersKept(s.accounts, Paid(s.accounts, t'), s.transfers, s.sequence, s.draws, s.sequence, s.draws + 3);
    EndedTransfers(Paid(s.accounts, t'), s.transfers, i, t', s.sequence, s.draws + 3);
    KeysKept(s, s.transfers[i := t']);
    SettledState(s, i);
  }

  lemma SameLegs(s: State, t: Transfer, t': Transfer)
    requires t' == t.(status := t'.status, settled := t'.settled)
    ensures forall j: nat :: j < 3 ==> LegEntry(s, t, j) == LegEntry(s, t', j)
    ensures Paid(s.accounts, t) == Paid(s.accounts, t')
  {}

  lemma {:induction false} LegsKeepDeposits(s: State, t: Transfer)
    requires DepositsOk(s.deposits, s.entries, s.draws)
    ensures DepositsOk(s.deposits, s.entries + [LegEntry(s, t, 0)] + [LegEntry(s, t, 1)] + [LegEntry(s, t, 2)], s.draws + 3)
  {
    hide DepositsOk;
    RowsUnmoved(s.deposits, s.entries, s.draws, LegEntry(s, t, 0));
    RowsUnmoved(s.deposits, s.entries + [LegEntry(s, t, 0)], s.draws + 1, LegEntry(s, t, 1));
    RowsUnmoved(s.deposits, s.entries + [LegEntry(s, t, 0)] + [LegEntry(s, t, 1)], s.draws + 2, LegEntry(s, t, 2));
  }

  /** SettleOne, written out. */
  lemma SettledState(s: State, i: nat)
    requires i < |s.transfers| && HasAccount(s, s.transfers[i].source)
    requires GetAccount(s, s.transfers[i].source).balance >= s.transfers[i].amount + s.transfers[i].fee
    ensures var t := s.transfers[i];
            SettleOne(s, i) == s.(sequence := s.sequence + 1, draws := s.draws + 3, accounts := Paid(s.accounts, t),
                                  transfers := s.transfers[i := t.(status := Settled, settled := Some(s.sequence + 1))],
                                  entries := s.entries + [LegEntry(s, t, 0)] + [LegEntry(s, t, 1)] + [LegEntry(s, t, 2)])
  {}

  lemma {:induction false} SettleAllInv(s: State, batch: seq<nat>)
    requires Inv(s)
    requires forall k :: 0 <= k < |batch| ==> batch[k] < |s.transfers| && s.transfers[batch[k]].status == Pending
    requires forall j, k :: 0 <= j < k < |batch| ==> batch[j] != batch[k]
    ensures Inv(SettleAll(s, batch))
    decreases |batch|
  {
    hide Inv, SettleOne;
    if batch != [] {
      SettleOneInv(s, batch[0]);
      SettleOneOthers(s, batch[0]);
      SettleAllInv(SettleOne(s, batch[0]), batch[1..]);
    }
  }

  lemma {:induction false} SettleOneOthers(s: State, i: nat)
    requires i < |s.transfers|
    ensures var u := SettleOne(s, i);
            && |u.transfers| == |s.transfers|
            && (forall k :: 0 <= k < |s.transfers| && k != i ==> u.transfers[k] == s.transfers[k])
            && u.transfers[i] == s.transfers[i].(status := u.transfers[i].status, settled := u.transfers[i].settled)
            && (u.transfers[i].status == Settled || u.transfers[i].status == Failed)
            && u.day == s.day && u.usage == s.usage && u.idempotency == s.idempotency && u.deposits == s.deposits
            && |u.accounts| == |s.accounts|
            && (forall k :: 0 <= k < |s.accounts| ==> u.accounts[k] == s.accounts[k].(balance := u.accounts[k].balance))
            && s.entries <= u.entries
  {
    if HasAccount(s, s.transfers[i].source) && GetAccount(s, s.transfers[i].source).balance >= s.transfers[i].amount + s.transfers[i].fee {
      SettledState(s, i);
      hide SettleOne, Paid, LegEntry;
    }
  }

  // ---- every operation ----

  lemma {:induction false} CreateAccountInv(s: State, r: AccountRequest, p: Principal)
    requires Inv(s)
    ensures Inv(CreateAccount(s, r, p).0)
  {
    var (t, o) := CreateAccount(s, r, p);
    if o.Done? {
      NewAccountInv(s, o.body.account);
    }
  }

  lemma CustomerIndex(s: State, id: Id)
    requires AccountsOk(s.accounts, s.draws) && HasAccount(s, id)
    ensures GetAccount(s, id).status != Active || GetAccount(s, id).kind != System ==> AccountAt(s.accounts, id) >= 2
  {}

  lemma {:induction false} ActivateAccountInv(s: State, id: Id, p: Principal)
    requires Inv(s)
    ensures Inv(ActivateAccount(s, id, p).0)
  {
    var (t, o) := ActivateAccount(s, id, p);
    if o.Done? {
      CustomerIndex(s, id);
      StatusInv(s, AccountAt(s.accounts, id), o.body.account);
    }
  }

  lemma {:induction false} CloseAccountInv(s: State, id: Id, p: Principal)
    requires Inv(s)
    ensures Inv(CloseAccount(s, id, p).0)
  {
    var (t, o) := CloseAccount(s, id, p);
    if o.Done? {
      CustomerIndex(s, id);
      StatusInv(s, AccountAt(s.accounts, id), o.body.account);
    }
  }

  /** An accepted deposit, written out. */
  lemma {:induction false} DepositState(s: State, r: DepositRequest, p: Principal)
    requires CreateDeposit(s, r, p).1.Done?
    ensures HasAccount(s, r.account.value) && r.amount.value > 0
    ensures var a := GetAccount(s, r.account.value);
            CreateDeposit(s, r, p).0 ==
            s.(sequence := s.sequence + 1, draws := s.draws + 2, accounts := Credited(s.accounts, a.id, r.amount.value),
               entries := s.entries + [DepositEntryOf(s, a, r.amount.value)],
               deposits := s.deposits + [DepositOf(s, a, r.amount.value)])
  {
    hide Credited;
  }

  lemma {:induction false} CreateDepositInv(s: State, r: DepositRequest, p: Principal)
    requires Inv(s)
    ensures Inv(CreateDeposit(s, r, p).0)
  {
    hide Inv;
    if CreateDeposit(s, r, p).1.Done? {
      DepositState(s, r, p);
      hide CreateDeposit;
      DepositInv(s, AccountAt(s.accounts, r.account.value), r.amount.value);
    }
  }

  /** An accepted transfer, written out. */
  lemma TransferState(s: State, r: TransferRequest, key: string, p: Principal)
    requires CreateTransfer(s, r, key, p).1.Done?
    ensures var (u, o) := CreateTransfer(s, r, key, p);
            if o.body.ATransfer? && o.body.replayed then u == s
            else
              && !MalformedTransfer(r) && TransferRefusal(s, r, p).None? && r.amount.Given?
              && HasAccount(s, r.source.value) && HasAccount(s, r.destination.value)
              && var source := GetAccount(s, r.source.value);
                 var t := NewTransfer(s, source, GetAccount(s, r.destination.value), r.amount.value, key);
                 && o == Done(201, ATransfer(t, false))
                 && u == s.(sequence := s.sequence + 1, draws := s.draws + 1, transfers := s.transfers + [t],
                            usage := s.usage[(source.id, s.day) := UsedToday(s, source.id) + r.amount.value],
                            idempotency := if key == "" then s.idempotency else s.idempotency[Scoped(p, key) := Used(r, t.id)])
  {}

  lemma {:induction false} CreateTransferInv(s: State, r: TransferRequest, key: string, p: Principal)
    requires Inv(s)
    ensures Inv(CreateTransfer(s, r, key, p).0)
  {
    hide Inv;
    if CreateTransfer(s, r, key, p).1.Done? {
      TransferState(s, r, key, p);
      var (u, o) := CreateTransfer(s, r, key, p);
      hide CreateTransfer, TransferRefusal, MalformedTransfer;
      if !o.body.replayed {
        NewTransferOk(s, r, key, p);
        InsertInv(s, o.body.transfer, u.usage, u.idempotency);
      }
    }
  }

  lemma {:induction false} NewTransferOk(s: State, r: TransferRequest, key: string, p: Principal)
    requires Inv(s) && !MalformedTransfer(r) && TransferRefusal(s, r, p).None?
    ensures var source := GetAccount(s, r.source.value);
            var t := NewTransfer(s, source, GetAccount(s, r.destination.value), r.amount.value, key);
            && TransferOk(s.accounts, t)
            && UsageOk(s.(usage := s.usage[(source.id, s.day) := UsedToday(s, source.id) + r.amount.value]))
            && Remembered(s.transfers + [t], Used(r, t.id))
  {
    var t := NewTransfer(s, GetAccount(s, r.source.value), GetAccount(s, r.destination.value), r.amount.value, key);
    assert (s.transfers + [t])[|s.transfers|] == t;
    var i, j := AccountAt(s.accounts, r.source.value), AccountAt(s.accounts, r.destination.value);
    assert Endpoint(s.accounts, s.accounts[i].id, s.accounts[i].currency, true);
    assert Endpoint(s.accounts, s.accounts[j].id, s.accounts[j].currency, true);
  }

  lemma {:induction false} CancelTransferInv(s: State, id: Id, p: Principal)
    requires Inv(s)
    ensures Inv(CancelTransfer(s, id, p).0)
  {
    var (u, o) := CancelTransfer(s, id, p);
    if o.Done? {
      EndedInv(s, TransferAt(s.transfers, id), o.body.transfer);
    }
  }

  lemma {:induction false} TickInv(s: State, limit: Option<int>, advanceDay: bool)
    requires Inv(s)
    ensures Inv(Tick(s, limit, advanceDay).0)
  {
    BatchFacts(s, limit);
    hide Inv, SettleAll, Batch, Ended, PendingFrom;
    SettleAllInv(s, Batch(s, limit));
    NextDayInv(SettleAll(s, Batch(s, limit)));
  }

  lemma {:induction false} BatchFacts(s: State, limit: Option<int>)
    ensures var batch := Batch(s, limit);
            && (forall k :: 0 <= k < |batch| ==> batch[k] < |s.transfers| && s.transfers[batch[k]].status == Pending)
            && (forall j, k :: 0 <= j < k < |batch| ==> batch[j] < batch[k])
  {
    QueueInRange(s.transfers, 0);
  }

  lemma NextDayInv(s: State)
    requires Inv(s)
    ensures Inv(s.(day := s.day + 1, usage := map[]))
  {}

  /** Every operation, accepted or refused, keeps the ledger's books in order. */
  lemma {:induction false} ApplyInv(s: State, op: Op)
    requires Inv(s)
    ensures Inv(Apply(s, op).0)
  {
    hide Inv;
    match op
    case OpenAccount(r, p) => CreateAccountInv(s, r, p);
    case Activate(id, p) => ActivateAccountInv(s, id, p);
    case Close(id, p) => CloseAccountInv(s, id, p);
    case PayIn(r, p) => CreateDepositInv(s, r, p);
    case Send(r, key, p) => CreateTransferInv(s, r, key, p);
    case Cancel(id, p) => CancelTransferInv(s, id, p);
    case Settlement(limit, advanceDay) => TickInv(s, limit, advanceDay);
  }

  lemma {:induction false} RunInv(s: State, ops: seq<Op>)
    requires Inv(s)
    ensures Inv(Run(s, ops))
    decreases |ops|
  {
    if ops != [] {
      hide Inv;
      ApplyInv(s, ops[0]);
      RunInv(Apply(s, ops[0]).0, ops[1..]);
    }
  }

  /** After any sequence of operations: balances are sums of rows and never negative, and no money appears or disappears. */
  lemma {:induction false} BooksBalance(ops: seq<Op>)
    ensures var s := Run(Reset(), ops);
            && (forall i :: 0 <= i < |s.accounts| ==> s.accounts[i].balance == Sum(s.entries, s.accounts[i].id) >= 0)
            && Total(s.accounts) == PaidIn(s.deposits)
            && (forall i :: 0 <= i < |s.transfers| ==>
                  LegsOf(s.entries, s.transfers[i].id) == if s.transfers[i].status == Settled then ThreeLegs(s.transfers[i]) else [])
  {
    hide Run, AccountsOk, EntriesOk, TransfersOk, DepositsOk, KeysOk, Sum, LegsOf;
    ResetInv();
    RunInv(Reset(), ops);
  }
}

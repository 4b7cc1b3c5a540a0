/**
  The double-entry ledger with no fault enabled: its state, and what each operation makes of it.

  Money is in minor units. An operation answers a request with a result and never throws.
  Identifiers are the n-th draw of the seeded generator; that two draws never collide is
  the model's one premise about it. Timestamps are derived from the mutation sequence, so
  a timestamp is that number here.
*/
module LedgerSpec {
  import opened Common
  import opened Text

  datatype Currency = USD | EUR

  datatype Id = Fixed(name: string) | Drawn(prefix: string, n: nat)

  datatype Kind = System | Customer

  datatype AccountStatus = Opened | Active | Closed

  datatype Account = Account(
    id: Id, kind: Kind, owner: string, ownerPrincipal: string, currency: Currency, status: AccountStatus, balance: int,
    sequence: nat, created: nat, activated: Option<nat>, closed: Option<nat>)

  datatype TransferStatus = Pending | Settled | Failed | Canceled

  datatype Transfer = Transfer(
    id: Id, status: TransferStatus, source: Id, destination: Id, amount: int, fee: int, currency: Currency, key: string,
    sequence: nat, created: nat, settled: Option<nat>, canceled: Option<nat>)

  datatype EntryKind = DepositEntry | DebitEntry | CreditEntry | FeeEntry

  datatype Entry = Entry(
    id: Id, account: Id, kind: EntryKind, amount: int, currency: Currency, transfer: Option<Id>, deposit: Option<Id>,
    sequence: nat, created: nat)

  datatype Deposit = Deposit(id: Id, account: Id, amount: int, currency: Currency, created: nat, entry: Id)

  datatype Principal = Principal(admin: bool, id: string)

  // ---- requests: a field is absent, null, of the wrong type (or an empty id), or given ----

  datatype Field<T> = Absent | Null | WrongType | Given(value: T)

  datatype AccountRequest = AccountRequest(
    isObject: bool, unknownProperty: bool, owner: Field<string>, currency: Field<string>, ownerPrincipal: Field<string>)

  datatype DepositRequest = DepositRequest(isObject: bool, unknownProperty: bool, account: Field<Id>, amount: Field<int>)

  datatype TransferRequest = TransferRequest(
    isObject: bool, unknownProperty: bool, source: Field<Id>, destination: Field<Id>, amount: Field<int>,
    currency: Field<string>)

  /** What an idempotency key is remembered with: the body it was used with, and the transfer it created. */
  datatype Used = Used(request: TransferRequest, transfer: Id)

  datatype State = State(
    sequence: nat, draws: nat, day: nat,
    accounts: seq<Account>, transfers: seq<Transfer>, deposits: seq<Deposit>, entries: seq<Entry>,
    idempotency: map<string, Used>, usage: map<(Id, nat), int>)

  datatype Code =
    | InvalidRequest | Forbidden | UnsupportedCurrency | AccountNotFound | AccountClosed | AccountNotPending
    | AccountNotClosable | HasPendingTransfers | InvalidAmount | AccountNotActive | KeyConflict | SameAccount
    | CurrencyMismatch | DailyLimitExceeded | InsufficientFunds | TransferNotFound | TransferNotPending
    | LostTransfer  // a key remembered for a transfer that does not exist; LedgerInvariant.NeverLost

  datatype Payload =
    | AnAccount(account: Account) | ADeposit(deposit: Deposit) | ATransfer(transfer: Transfer, replayed: bool)
    | ATick(settled: seq<Id>, failed: seq<Id>, pending: nat, day: nat)

  datatype Outcome = Done(status: nat, body: Payload) | Refused(status: nat, code: Code)

  const FEE_FLAT := 25
  const FEE_BPS := 15
  const DAILY_LIMIT := 100_000
  const MAX_SAFE := 0x1f_ffff_ffff_ffff

  function FeeId(c: Currency): Id {
    Fixed(if c == USD then "acc_fee_usd" else "acc_fee_eur")
  }

  function CurrencyName(c: Currency): string {
    if c == USD then "USD" else "EUR"
  }

  /** The flat fee plus the basis points of the amount, rounded to the nearest unit with halves up. */
  function FeeFor(amount: int): int {
    FEE_FLAT + (amount * FEE_BPS + 5000) / 10000
  }

  function FeeAccount(c: Currency): Account {
    Account(FeeId(c), System, "minibank", "minibank", c, Active, 0, 0, 0, Some(0), None)
  }

  function Reset(): State {
    State(0, 0, 0, [FeeAccount(USD), FeeAccount(EUR)], [], [], [], map[], map[])
  }

  // ---- lookups ----

  /** Position of the account with this id, or the number of accounts. */
  function AccountAt(accounts: seq<Account>, id: Id): (k: nat)
    ensures k <= |accounts|
    ensures k < |accounts| ==> accounts[k].id == id
    ensures forall j :: 0 <= j < k ==> accounts[j].id != id
  {
    if accounts == [] || accounts[0].id == id then 0 else 1 + AccountAt(accounts[1..], id)
  }

  function TransferAt(transfers: seq<Transfer>, id: Id): (k: nat)
    ensures k <= |transfers|
    ensures k < |transfers| ==> transfers[k].id == id
    ensures forall j :: 0 <= j < k ==> transfers[j].id != id
  {
    if transfers == [] || transfers[0].id == id then 0 else 1 + TransferAt(transfers[1..], id)
  }

  predicate HasAccount(s: State, id: Id) {
    AccountAt(s.accounts, id) < |s.accounts|
  }

  function GetAccount(s: State, id: Id): Account
    requires HasAccount(s, id)
  {
    s.accounts[AccountAt(s.accounts, id)]
  }

  predicate MayAct(a: Account, p: Principal) {
    p.admin || (a.kind != System && a.ownerPrincipal == p.id)
  }

  predicate NonBlank(f: Field<string>) {
    f.Given? && Trim(f.value) != []
  }

  // ---- the pieces operations are made of ----

  function Tick1(s: State): State {
    s.(sequence := s.sequence + 1)
  }

  /** Append one ledger row; its id is the next draw and its number the next row number. */
  function Post(s: State, account: Id, kind: EntryKind, amount: int, currency: Currency, transfer: Option<Id>,
                deposit: Option<Id>): State {
    s.(draws := s.draws + 1,
       entries := s.entries + [Entry(Drawn("ent", s.draws), account, kind, amount, currency, transfer, deposit,
                                     |s.entries| + 1, s.sequence)])
  }

  function Credited(accounts: seq<Account>, id: Id, delta: int): (r: seq<Account>)
    ensures |r| == |accounts|
  {
    seq(|accounts|, i requires 0 <= i < |accounts| =>
      if accounts[i].id == id then accounts[i].(balance := accounts[i].balance + delta) else accounts[i])
  }

  function Credit(s: State, id: Id, delta: int): State {
    s.(accounts := Credited(s.accounts, id, delta))
  }

  // ---- accounts ----

  function CreateAccount(s: State, r: AccountRequest, p: Principal): (State, Outcome) {
    if !r.isObject || r.unknownProperty || !NonBlank(r.owner) then (s, Refused(400, InvalidRequest))
    else if !r.ownerPrincipal.Absent? && !NonBlank(r.ownerPrincipal) then (s, Refused(400, InvalidRequest))
    else if r.ownerPrincipal.Given? && !p.admin then (s, Refused(403, Forbidden))
    else if !r.currency.Given? then (s, Refused(400, InvalidRequest))
    else if r.currency.value != "USD" && r.currency.value != "EUR" then (s, Refused(422, UnsupportedCurrency))
    else
      var t := Tick1(s);
      var a := Account(Drawn("acc", t.draws), Customer, Trim(r.owner.value),
                       Trim(if r.ownerPrincipal.Given? then r.ownerPrincipal.value else p.id),
                       if r.currency.value == "USD" then USD else EUR, Opened, 0, t.sequence, t.sequence, None, None);
      (t.(draws := t.draws + 1, accounts := t.accounts + [a]), Done(201, AnAccount(a)))
  }

  function ActivateAccount(s: State, id: Id, p: Principal): (State, Outcome) {
    if !HasAccount(s, id) then (s, Refused(404, AccountNotFound))
    else
      var a := GetAccount(s, id);
      if !MayAct(a, p) then (s, Refused(403, Forbidden))
      else if a.status == Closed then (s, Refused(410, AccountClosed))
      else if a.status == Active then (s, Refused(409, AccountNotPending))
      else
        var t := Tick1(s);
        var b := a.(status := Active, activated := Some(t.sequence));
        (t.(accounts := t.accounts[AccountAt(s.accounts, id) := b]), Done(200, AnAccount(b)))
  }

  predicate Involves(t: Transfer, id: Id) {
    t.source == id || t.destination == id
  }

  predicate HasPending(transfers: seq<Transfer>, id: Id) {
    exists i :: 0 <= i < |transfers| && transfers[i].status == Pending && Involves(transfers[i], id)
  }

  function CloseAccount(s: State, id: Id, p: Principal): (State, Outcome) {
    if !HasAccount(s, id) then (s, Refused(404, AccountNotFound))
    else
      var a := GetAccount(s, id);
      if !MayAct(a, p) then (s, Refused(403, Forbidden))
      else if a.kind == System then (s, Refused(409, AccountNotClosable))
      else if a.status == Closed then (s, Refused(410, AccountClosed))
      else if HasPending(s.transfers, id) then (s, Refused(409, HasPendingTransfers))
      else
        var t := Tick1(s);
        var b := a.(status := Closed, closed := Some(t.sequence));
        (t.(accounts := t.accounts[AccountAt(s.accounts, id) := b]), Done(200, AnAccount(b)))
  }

  // ---- deposits ----

  predicate WellTyped(amount: Field<int>) {
    amount.Given? && -MAX_SAFE <= amount.value <= MAX_SAFE
  }

  function CreateDeposit(s: State, r: DepositRequest, p: Principal): (State, Outcome) {
    if !r.isObject || r.unknownProperty || !r.account.Given? || !WellTyped(r.amount) then (s, Refused(400, InvalidRequest))
    else if r.amount.value <= 0 then (s, Refused(422, InvalidAmount))
    else if !HasAccount(s, r.account.value) then (s, Refused(404, AccountNotFound))
    else
      var a := GetAccount(s, r.account.value);
      if !MayAct(a, p) then (s, Refused(403, Forbidden))
      else if a.status == Closed then (s, Refused(410, AccountClosed))
      else if a.status != Active then (s, Refused(409, AccountNotActive))
      else
        var t := Tick1(s);
        var id := Drawn("dep", t.draws);
        var u := Post(t.(draws := t.draws + 1), a.id, DepositEntry, r.amount.value, a.currency, None, Some(id));
        var d := Deposit(id, a.id, r.amount.value, a.currency, t.sequence, u.entries[|u.entries| - 1].id);
        (Credit(u, a.id, r.amount.value).(deposits := u.deposits + [d]), Done(201, ADeposit(d)))
  }

  // ---- transfers ----

  function Scoped(p: Principal, key: string): string {
    p.id + ":" + key
  }

  function UsedToday(s: State, id: Id): int {
    if (id, s.day) in s.usage then s.usage[(id, s.day)] else 0
  }

  function StatusRefusal(a: Account): Option<Outcome> {
    if a.status == Closed then Some(Refused(410, AccountClosed))
    else if a.status == Opened then Some(Refused(409, AccountNotActive))
    else None
  }

  /** Why this transfer may not be created now, once its idempotency key is known to be new. */
  function TransferRefusal(s: State, r: TransferRequest, p: Principal): Option<Outcome>
    requires r.source.Given? && r.destination.Given?
  {
    if !WellTyped(r.amount) then Some(Refused(400, InvalidRequest))
    else if r.amount.value <= 0 then Some(Refused(422, InvalidAmount))
    else if !HasAccount(s, r.source.value) then Some(Refused(404, AccountNotFound))
    else
      var source, amount := GetAccount(s, r.source.value), r.amount.value;
      if !MayAct(source, p) then Some(Refused(403, Forbidden))
      else if !HasAccount(s, r.destination.value) then Some(Refused(404, AccountNotFound))
      else
        var destination := GetAccount(s, r.destination.value);
        if source.id == destination.id then Some(Refused(422, SameAccount))
        else if StatusRefusal(source).Some? then StatusRefusal(source)
        else if StatusRefusal(destination).Some? then StatusRefusal(destination)
        else if r.currency.Given? && r.currency.value != CurrencyName(source.currency) then Some(Refused(422, CurrencyMismatch))
        else if source.currency != destination.currency then Some(Refused(422, CurrencyMismatch))
        else if UsedToday(s, source.id) + amount > DAILY_LIMIT then Some(Refused(422, DailyLimitExceeded))
        else if source.balance < amount + FeeFor(amount) then Some(Refused(422, InsufficientFunds))
        else None
  }

  function NewTransfer(s: State, source: Account, destination: Account, amount: int, key: string): Transfer {
    Transfer(Drawn("tr", s.draws), Pending, source.id, destination.id, amount, FeeFor(amount), source.currency, key,
             s.sequence + 1, s.sequence + 1, None, None)
  }

  function InsertTransfer(s: State, t: Transfer): State {
    s.(sequence := s.sequence + 1, draws := s.draws + 1, transfers := s.transfers + [t])
  }

  predicate MalformedTransfer(r: TransferRequest) {
    !r.isObject || r.unknownProperty || !r.source.Given? || !r.destination.Given? || r.currency.Null? || r.currency.WrongType?
  }

  function CreateTransfer(s: State, r: TransferRequest, key: string, p: Principal): (State, Outcome) {
    if MalformedTransfer(r) then (s, Refused(400, InvalidRequest))
    else if key != "" && Scoped(p, key) in s.idempotency then
      var used := s.idempotency[Scoped(p, key)];
      var k := TransferAt(s.transfers, used.transfer);
      if used.request != r then (s, Refused(409, KeyConflict))
      else if k == |s.transfers| then (s, Refused(500, LostTransfer))
      else (s, Done(200, ATransfer(s.transfers[k], true)))
    else
      var refusal := TransferRefusal(s, r, p);
      if refusal.Some? then (s, refusal.value)
      else
        var source, amount := GetAccount(s, r.source.value), r.amount.value;
        var t := NewTransfer(s, source, GetAccount(s, r.destination.value), amount, key);
        var u := InsertTransfer(s, t).(usage := s.usage[(source.id, s.day) := UsedToday(s, source.id) + amount]);
        (if key == "" then u else u.(idempotency := u.idempotency[Scoped(p, key) := Used(r, t.id)]),
         Done(201, ATransfer(t, false)))
  }

  function CancelTransfer(s: State, id: Id, p: Principal): (State, Outcome) {
    var k := TransferAt(s.transfers, id);
    if k == |s.transfers| then (s, Refused(404, TransferNotFound))
    else
      var t := s.transfers[k];
      if HasAccount(s, t.source) && !MayAct(GetAccount(s, t.source), p) then (s, Refused(403, Forbidden))
      else if t.status != Pending then (s, Refused(409, TransferNotPending))
      else
        var u := Tick1(s);
        var c := t.(status := Canceled, canceled := Some(u.sequence));
        (u.(transfers := u.transfers[k := c]), Done(200, ATransfer(c, false)))
  }

  // ---- settlement ----

  /** Positions of the pending transfers from k on, in creation order. */
  function PendingFrom(ts: seq<Transfer>, k: nat): seq<nat>
    requires k <= |ts|
    decreases |ts| - k
  {
    if k == |ts| then [] else (if ts[k].status == Pending then [k] else []) + PendingFrom(ts, k + 1)
  }

  function Queue(s: State): seq<nat> {
    PendingFrom(s.transfers, 0)
  }

  /** Settle the transfer at position i, or fail it when its source can no longer cover it. */
  function SettleOne(s: State, i: nat): State
    requires i < |s.transfers|
  {
    var t := s.transfers[i];
    var u := Tick1(s);
    if !HasAccount(s, t.source) || GetAccount(s, t.source).balance < t.amount + t.fee then
      u.(transfers := u.transfers[i := t.(status := Failed)])
    else
      var e1 := Post(u, t.source, DebitEntry, -(t.amount + t.fee), t.currency, Some(t.id), None);
      var e2 := Post(e1, t.destination, CreditEntry, t.amount, t.currency, Some(t.id), None);
      var e3 := Post(e2, FeeId(t.currency), FeeEntry, t.fee, t.currency, Some(t.id), None);
      var b1 := Credit(e3, t.source, -(t.amount + t.fee));
      var b2 := Credit(b1, t.destination, t.amount);
      var b3 := Credit(b2, FeeId(t.currency), t.fee);
      b3.(transfers := b3.transfers[i := t.(status := Settled, settled := Some(u.sequence))])
  }

  function SettleAll(s: State, batch: seq<nat>): State
    requires forall k :: 0 <= k < |batch| ==> batch[k] < |s.transfers|
    decreases |batch|
  {
    if batch == [] then s else SettleAll(SettleOne(s, batch[0]), batch[1..])
  }

  function Batch(s: State, limit: Option<int>): seq<nat> {
    var q := Queue(s);
    if limit.None? then q else q[..Min(|q|, Max(0, limit.value))]
  }

  /** The ids of the batch that ended with this status. */
  function Ended(s: State, batch: seq<nat>, status: TransferStatus): seq<Id>
    requires forall k :: 0 <= k < |batch| ==> batch[k] < |s.transfers|
  {
    if batch == [] then []
    else (if s.transfers[batch[0]].status == status then [s.transfers[batch[0]].id] else []) + Ended(s, batch[1..], status)
  }

  lemma {:induction false} QueueInRange(ts: seq<Transfer>, k: nat)
    requires k <= |ts|
    ensures forall j :: 0 <= j < |PendingFrom(ts, k)| ==> k <= PendingFrom(ts, k)[j] < |ts|
    ensures forall j :: 0 <= j < |PendingFrom(ts, k)| ==> ts[PendingFrom(ts, k)[j]].status == Pending
    ensures forall i, j :: 0 <= i < j < |PendingFrom(ts, k)| ==> PendingFrom(ts, k)[i] < PendingFrom(ts, k)[j]
    decreases |ts| - k
  {
    if k < |ts| { QueueInRange(ts, k + 1); }
  }

  lemma {:induction false} SettleAllLength(s: State, batch: seq<nat>)
    requires forall k :: 0 <= k < |batch| ==> batch[k] < |s.transfers|
    ensures |SettleAll(s, batch).transfers| == |s.transfers|
    decreases |batch|
  {
    if batch != [] { SettleAllLength(SettleOne(s, batch[0]), batch[1..]); }
  }

  function Tick(s: State, limit: Option<int>, advanceDay: bool): (State, Outcome) {
    QueueInRange(s.transfers, 0);
    var batch := Batch(s, limit);
    var t := SettleAll(s, batch);
    SettleAllLength(s, batch);
    var u := if advanceDay then t.(day := t.day + 1, usage := map[]) else t;
    (u, Done(200, ATick(Ended(u, batch, Settled), Ended(u, batch, Failed), |Queue(u)|, u.day)))
  }

  // ---- one operation ----

  datatype Op =
    | OpenAccount(account: AccountRequest, p: Principal)
    | Activate(id: Id, p: Principal)
    | Close(id: Id, p: Principal)
    | PayIn(deposit: DepositRequest, p: Principal)
    | Send(transfer: TransferRequest, key: string, p: Principal)
    | Cancel(id: Id, p: Principal)
    | Settlement(limit: Option<int>, advanceDay: bool)

  function Apply(s: State, op: Op): (State, Outcome) {
    match op
    case OpenAccount(r, p) => CreateAccount(s, r, p)
    case Activate(id, p) => ActivateAccount(s, id, p)
    case Close(id, p) => CloseAccount(s, id, p)
    case PayIn(r, p) => CreateDeposit(s, r, p)
    case Send(r, key, p) => CreateTransfer(s, r, key, p)
    case Cancel(id, p) => CancelTransfer(s, id, p)
    case Settlement(limit, advanceDay) => Tick(s, limit, advanceDay)
  }

  function Run(s: State, ops: seq<Op>): State
    decreases |ops|
  {
    if ops == [] then s else Run(Apply(s, ops[0]).0, ops[1..])
  }
}

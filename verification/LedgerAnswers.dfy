/**
  How the ledger answers: each operation's checks in the order they are made, what an accepted
  request changes, and who may change what.
*/
module LedgerAnswers {
  import opened Common
  import opened Text
  import opened LedgerSpec
  import opened LedgerInvariant

  // ---- checks in order ----

  /** The refusal when a check does not hold; else what the later checks say. */
  function Unless(holds: bool, refusal: Outcome, later: Option<Outcome>): Option<Outcome> {
    if holds then later else Some(refusal)
  }

  /** The first refusal, with nothing changed; or acceptance. */
  ghost predicate Checked(s: State, result: (State, Outcome), refusal: Option<Outcome>, accepted: nat) {
    match refusal
    case Some(r) => result == (s, r)
    case None => result.1.Done? && result.1.status == accepted
  }

  // ---- what the checks look at ----

  function Lookup(accounts: seq<Account>, id: Id): Option<Account> {
    if accounts == [] then None else if accounts[0].id == id then Some(accounts[0]) else Lookup(accounts[1..], id)
  }

  lemma {:induction false} LookupIs(accounts: seq<Account>, id: Id)
    ensures var k := AccountAt(accounts, id); Lookup(accounts, id) == if k < |accounts| then Some(accounts[k]) else None
  {
    if accounts != [] && accounts[0].id != id {
      LookupIs(accounts[1..], id);
      AccountTail(accounts, id);
    }
  }

  lemma AccountTail(accounts: seq<Account>, id: Id)
    requires accounts != [] && accounts[0].id != id
    ensures AccountAt(accounts, id) == 1 + AccountAt(accounts[1..], id)
  {}

  /** An administrator may do anything; nobody else acts for the bank, and a customer's account is its owner's. */
  predicate Owns(p: Principal, a: Account) {
    p.admin || (a.kind == Customer && a.ownerPrincipal == p.id)
  }

  predicate Exists(a: Option<Account>) {
    a.Some?
  }

  predicate OwnedBy(a: Option<Account>, p: Principal) {
    a.Some? && Owns(p, a.value)
  }

  predicate Is(a: Option<Account>, status: AccountStatus) {
    a.Some? && a.value.status == status
  }

  /** An amount in minor units that a request can carry. */
  predicate IsAmount(f: Field<int>) {
    f.Given? && -0x1f_ffff_ffff_ffff <= f.value <= 0x1f_ffff_ffff_ffff
  }

  predicate IsName(f: Field<string>) {
    f.Given? && exists k :: 0 <= k < |f.value| && !IsSpace(f.value[k])
  }

  lemma {:induction false} BlankTrims(s: string)
    ensures Trim(s) != [] <==> exists k :: 0 <= k < |s| && !IsSpace(s[k])
  {
    StartTrims(s);
    EndTrims(TrimStart(s));
  }

  lemma {:induction false} StartTrims(s: string)
    ensures TrimStart(s) != [] <==> exists k :: 0 <= k < |s| && !IsSpace(s[k])
    ensures TrimStart(s) != [] ==> !IsSpace(TrimStart(s)[0])
  {
    if s != [] && IsSpace(s[0]) {
      StartTrims(s[1..]);
      assert forall k :: 0 <= k < |s[1..]| ==> s[1..][k] == s[k + 1];
      if k :| 0 <= k < |s| && !IsSpace(s[k]) { assert s[1..][k - 1] == s[k]; }
    }
  }

  lemma {:induction false} EndTrims(s: string)
    requires s == [] || !IsSpace(s[0])
    ensures TrimEnd(s) == [] <==> s == []
  {
    if s != [] && IsSpace(s[|s| - 1]) { EndTrims(s[..|s| - 1]); }
  }

  // ---- accounts ----

  lemma {:induction false} CreateAccountAnswers(s: State, r: AccountRequest, p: Principal)
    ensures Checked(s, CreateAccount(s, r, p),
              Unless(r.isObject && !r.unknownProperty && IsName(r.owner), Refused(400, InvalidRequest),
              Unless(r.ownerPrincipal.Absent? || IsName(r.ownerPrincipal), Refused(400, InvalidRequest),
              Unless(r.ownerPrincipal.Absent? || p.admin, Refused(403, Forbidden),
              Unless(r.currency.Given?, Refused(400, InvalidRequest),
              Unless(r.currency == Given("USD") || r.currency == Given("EUR"), Refused(422, UnsupportedCurrency),
              None))))), 201)
    ensures CreateAccount(s, r, p).1.Done? ==>
              var (t, o) := CreateAccount(s, r, p);
              && |t.accounts| == |s.accounts| + 1
              && var a := t.accounts[|s.accounts|];
                 && t == s.(sequence := s.sequence + 1, draws := s.draws + 1, accounts := s.accounts + [a])
                 && o.body == AnAccount(a)
                 && a.id == Drawn("acc", s.draws) && a.kind == Customer && a.status == Opened && a.balance == 0
                 && a.owner == Trim(r.owner.value) && r.currency == Given(CurrencyName(a.currency))
                 && a.ownerPrincipal == (if r.ownerPrincipal.Given? then Trim(r.ownerPrincipal.value) else Trim(p.id))
                 && a.sequence == t.sequence && a.created == t.sequence && a.activated.None? && a.closed.None?
  {
    hide Trim;
    if r.owner.Given? { BlankTrims(r.owner.value); }
    if r.ownerPrincipal.Given? { BlankTrims(r.ownerPrincipal.value); }
  }

  /** Only this account's row differs. */
  ghost predicate OnlyAccount(s: State, t: State, id: Id, a: Account) {
    && t == s.(sequence := s.sequence + 1, accounts := t.accounts) && |t.accounts| == |s.accounts|
    && exists k :: 0 <= k < |s.accounts| && s.accounts[k].id == id && t.accounts == s.accounts[k := a]
                   && Lookup(s.accounts, id) == Some(s.accounts[k])
  }

  lemma {:induction false} ActivateAnswers(s: State, id: Id, p: Principal)
    ensures var a := Lookup(s.accounts, id);
            Checked(s, ActivateAccount(s, id, p),
              Unless(Exists(a), Refused(404, AccountNotFound),
              Unless(OwnedBy(a, p), Refused(403, Forbidden),
              Unless(!Is(a, Closed), Refused(410, AccountClosed),
              Unless(Is(a, Opened), Refused(409, AccountNotPending),
              None)))), 200)
    ensures ActivateAccount(s, id, p).1.Done? ==>
              var (t, o) := ActivateAccount(s, id, p);
              && o.body.AnAccount? && OnlyAccount(s, t, id, o.body.account)
              && o.body.account == Lookup(s.accounts, id).value.(status := Active, activated := Some(s.sequence + 1))
  {
    hide AccountAt, Lookup;
    LookupIs(s.accounts, id);
  }

  lemma {:induction false} CloseAnswers(s: State, id: Id, p: Principal)
    ensures var a := Lookup(s.accounts, id);
            Checked(s, CloseAccount(s, id, p),
              Unless(Exists(a), Refused(404, AccountNotFound),
              Unless(OwnedBy(a, p), Refused(403, Forbidden),
              Unless(a.Some? && a.value.kind == Customer, Refused(409, AccountNotClosable),
              Unless(!Is(a, Closed), Refused(410, AccountClosed),
              Unless(forall i :: 0 <= i < |s.transfers| && s.transfers[i].status == Pending ==> s.transfers[i].source != id && s.transfers[i].destination != id, Refused(409, HasPendingTransfers),
              None))))), 200)
    ensures CloseAccount(s, id, p).1.Done? ==>
              var (t, o) := CloseAccount(s, id, p);
              && o.body.AnAccount? && OnlyAccount(s, t, id, o.body.account)
              && o.body.account == Lookup(s.accounts, id).value.(status := Closed, closed := Some(s.sequence + 1))
  {
    hide AccountAt, Lookup;
    LookupIs(s.accounts, id);
  }

  // ---- deposits ----

  lemma {:induction false} DepositAnswers(s: State, r: DepositRequest, p: Principal)
    ensures var a := if r.account.Given? then Lookup(s.accounts, r.account.value) else None;
            Checked(s, CreateDeposit(s, r, p),
              Unless(r.isObject && !r.unknownProperty && r.account.Given? && IsAmount(r.amount), Refused(400, InvalidRequest),
              Unless(r.amount.Given? && r.amount.value > 0, Refused(422, InvalidAmount),
              Unless(Exists(a), Refused(404, AccountNotFound),
              Unless(OwnedBy(a, p), Refused(403, Forbidden),
              Unless(!Is(a, Closed), Refused(410, AccountClosed),
              Unless(Is(a, Active), Refused(409, AccountNotActive),
              None)))))), 201)
    ensures CreateDeposit(s, r, p).1.Done? ==>
              var (t, o) := CreateDeposit(s, r, p);
              && o.body.ADeposit? && t.deposits == s.deposits + [o.body.deposit] && |t.entries| == |s.entries| + 1
              && var d, e := o.body.deposit, t.entries[|s.entries|];
                 && t == s.(sequence := s.sequence + 1, draws := s.draws + 2, deposits := t.deposits, entries := s.entries + [e],
                            accounts := t.accounts)
                 && |t.accounts| == |s.accounts|
                 && (forall i :: 0 <= i < |s.accounts| ==>
                       t.accounts[i] == s.accounts[i].(balance := s.accounts[i].balance
                                                                  + if s.accounts[i].id == r.account.value then r.amount.value else 0))
                 && d.account == e.account == r.account.value && d.amount == e.amount == r.amount.value && d.entry == e.id
                 && e.kind == DepositEntry && e.transfer.None? && e.deposit == Some(d.id) && e.sequence == |t.entries|
                 && d.id != e.id && d.currency == e.currency == Lookup(s.accounts, r.account.value).value.currency
  {
    hide AccountAt, Lookup;
    if r.account.Given? { LookupIs(s.accounts, r.account.value); }
  }

  // ---- transfers ----

  /** What the source has sent today, as the ledger remembers it. */
  function Spent(s: State, id: Id): int {
    if (id, s.day) in s.usage then s.usage[(id, s.day)] else 0
  }

  /** The fee: 25, and 15 basis points of the amount to the nearest unit, halves upwards. */
  ghost predicate IsFee(amount: int, fee: int) {
    -5000 < 10000 * (fee - 25) - 15 * amount <= 5000
  }

  lemma {:induction false} FeeIs(amount: int)
    ensures IsFee(amount, FeeFor(amount)) && forall fee :: IsFee(amount, fee) ==> fee == FeeFor(amount)
  {}

  ghost predicate Covers(a: Option<Account>, amount: Field<int>) {
    a.Some? && amount.Given? && forall fee :: IsFee(amount.value, fee) ==> a.value.balance >= amount.value + fee
  }

  predicate WellFormed(r: TransferRequest) {
    r.isObject && !r.unknownProperty && r.source.Given? && r.destination.Given? && (r.currency.Absent? || r.currency.Given?)
  }

  ghost function TransferChecks(s: State, r: TransferRequest, p: Principal): Option<Outcome>
    requires WellFormed(r)
  {
    var a, b := Lookup(s.accounts, r.source.value), Lookup(s.accounts, r.destination.value);
    Unless(IsAmount(r.amount), Refused(400, InvalidRequest),
    Unless(r.amount.Given? && r.amount.value > 0, Refused(422, InvalidAmount),
    Unless(Exists(a), Refused(404, AccountNotFound),
    Unless(OwnedBy(a, p), Refused(403, Forbidden),
    Unless(Exists(b), Refused(404, AccountNotFound),
    Unless(r.source.value != r.destination.value, Refused(422, SameAccount),
    Unless(!Is(a, Closed), Refused(410, AccountClosed),
    Unless(Is(a, Active), Refused(409, AccountNotActive),
    Unless(!Is(b, Closed), Refused(410, AccountClosed),
    Unless(Is(b, Active), Refused(409, AccountNotActive),
    Unless(a.Some? && (r.currency.Given? ==> r.currency.value == if a.value.currency == USD then "USD" else "EUR"), Refused(422, CurrencyMismatch),
    Unless(a.Some? && b.Some? && a.value.currency == b.value.currency, Refused(422, CurrencyMismatch),
    Unless(r.amount.Given? && Spent(s, r.source.value) + r.amount.value <= 100_000, Refused(422, DailyLimitExceeded),
    Unless(Covers(a, r.amount), Refused(422, InsufficientFunds),
    None))))))))))))))
  }

  /** A request whose key this principal has not used. */
  predicate NewKey(s: State, key: string, p: Principal) {
    key == "" || p.id + ":" + key !in s.idempotency
  }

  /** The answer to a transfer: malformed, a key used before, or the checks in order. */
  lemma {:induction false} TransferAnswers(s: State, r: TransferRequest, key: string, p: Principal)
    ensures !WellFormed(r) ==> CreateTransfer(s, r, key, p) == (s, Refused(400, InvalidRequest))
    ensures WellFormed(r) && NewKey(s, key, p) ==> Checked(s, CreateTransfer(s, r, key, p), TransferChecks(s, r, p), 201)
    ensures WellFormed(r) && !NewKey(s, key, p) ==>
              var used := s.idempotency[p.id + ":" + key];
              && CreateTransfer(s, r, key, p).0 == s
              && (used.request != r <==> CreateTransfer(s, r, key, p).1 == Refused(409, KeyConflict))
              && (Inv(s) && used.request == r ==>
                    var o := CreateTransfer(s, r, key, p).1;
                    o.Done? && o.status == 200 && o.body.ATransfer? && o.body.transfer.id == used.transfer && o.body.transfer in s.transfers)
  {
    hide AccountAt, Lookup, Inv, FeeFor, TransferRefusal, TransferChecks;
    if WellFormed(r) {
      LookupIs(s.accounts, r.source.value);
      LookupIs(s.accounts, r.destination.value);
      if r.amount.Given? { FeeIs(r.amount.value); }
      if NewKey(s, key, p) {
        TransferChecked(s, r, p);
      } else if Inv(s) {
        KeyKnown(s, p.id + ":" + key);
      }
    }
  }

  lemma {:induction false} KeyKnown(s: State, key: string)
    requires Inv(s) && key in s.idempotency
    ensures TransferAt(s.transfers, s.idempotency[key].transfer) < |s.transfers|
  {
    hide AccountsOk, BalancesOk, EntriesOk, TransfersOk, LegsOk, DepositsOk, UsageOk;
    assert Remembered(s.transfers, s.idempotency[key]);
  }

  lemma {:induction false} TransferChecked(s: State, r: TransferRequest, p: Principal)
    requires WellFormed(r)
    ensures TransferChecks(s, r, p) == TransferRefusal(s, r, p)
    ensures TransferChecks(s, r, p).Some? ==> TransferChecks(s, r, p).value.Refused?
  {
    hide AccountAt, Lookup, FeeFor;
    LookupIs(s.accounts, r.source.value);
    LookupIs(s.accounts, r.destination.value);
    if r.amount.Given? { FeeIs(r.amount.value); }
  }

  /** What an accepted transfer changes: one pending transfer more, its key, and what its source has sent today; no money yet. */
  lemma {:induction false} TransferAccepted(s: State, r: TransferRequest, key: string, p: Principal)
    requires CreateTransfer(s, r, key, p).1.Done? && CreateTransfer(s, r, key, p).1.status == 201
    ensures WellFormed(r) && NewKey(s, key, p) && TransferChecks(s, r, p).None?
    ensures var (u, o) := CreateTransfer(s, r, key, p);
            && |u.transfers| == |s.transfers| + 1
            && var t := u.transfers[|s.transfers|];
               && o.body == ATransfer(t, false) && t.id == Drawn("tr", s.draws) && t.status == Pending
               && t.source == r.source.value && t.destination == r.destination.value && t.amount == r.amount.value
               && IsFee(t.amount, t.fee) && t.currency == Lookup(s.accounts, t.source).value.currency && t.key == key
               && t.sequence == u.sequence && t.created == u.sequence && t.settled.None? && t.canceled.None?
               && u == s.(sequence := s.sequence + 1, draws := s.draws + 1, transfers := s.transfers + [t],
                          usage := s.usage[(t.source, s.day) := Spent(s, t.source) + t.amount],
                          idempotency := if key == "" then s.idempotency else s.idempotency[p.id + ":" + key := Used(r, t.id)])
  {
    hide AccountAt, Lookup, FeeFor, TransferRefusal, TransferChecks, IsFee;
    TransferAnswers(s, r, key, p);
    if WellFormed(r) {
      LookupIs(s.accounts, r.source.value);
      LookupIs(s.accounts, r.destination.value);
      if NewKey(s, key, p) {
        TransferChecked(s, r, p);
        Passed(s, r, p);
        FeeIs(r.amount.value);
      } else {
        Replayed(s, r, key, p);
      }
    }
  }

  lemma {:induction false} Passed(s: State, r: TransferRequest, p: Principal)
    requires WellFormed(r) && TransferChecks(s, r, p).None?
    ensures r.amount.Given? && Lookup(s.accounts, r.source.value).Some? && Lookup(s.accounts, r.destination.value).Some?
  {
    hide Lookup, IsFee;
  }

  /**
    A new transfer is accepted exactly when the request is well formed, its key is new, the caller is administrator or
    owner of the paying account, both accounts are active, different and of one currency, the one asked for if any,
    what the payer sends today stays within the limit, and its balance covers amount and fee.
  */
  lemma {:induction false} TransferAcceptedWhen(s: State, r: TransferRequest, key: string, p: Principal)
    ensures var o := CreateTransfer(s, r, key, p).1;
            o.Done? && o.status == 201 <==>
              && WellFormed(r) && NewKey(s, key, p)
              && IsAmount(r.amount) && r.amount.value > 0
              && var a, b := Lookup(s.accounts, r.source.value), Lookup(s.accounts, r.destination.value);
                 && a.Some? && b.Some? && Owns(p, a.value) && r.source.value != r.destination.value
                 && a.value.status == Active && b.value.status == Active && a.value.currency == b.value.currency
                 && (r.currency.Given? ==> r.currency.value == if a.value.currency == USD then "USD" else "EUR")
                 && Spent(s, r.source.value) + r.amount.value <= 100_000
                 && forall fee :: IsFee(r.amount.value, fee) ==> a.value.balance >= r.amount.value + fee
  {
    hide CreateTransfer, Lookup, Inv, IsFee, Spent, Owns;
    TransferAnswers(s, r, key, p);
    if WellFormed(r) && !NewKey(s, key, p) { Replayed(s, r, key, p); }
  }

  lemma Replayed(s: State, r: TransferRequest, key: string, p: Principal)
    requires WellFormed(r) && !NewKey(s, key, p)
    ensures var o := CreateTransfer(s, r, key, p).1; o.Refused? || o.status == 200
  {}

  lemma {:induction false} CancelAnswers(s: State, id: Id, p: Principal)
    ensures var k := TransferAt(s.transfers, id);
            var t := if k < |s.transfers| then Some(s.transfers[k]) else None;
            var a := if t.Some? then Lookup(s.accounts, t.value.source) else None;
            Checked(s, CancelTransfer(s, id, p),
              Unless(t.Some?, Refused(404, TransferNotFound),
              Unless(a.Some? ==> Owns(p, a.value), Refused(403, Forbidden),
              Unless(t.Some? && t.value.status == Pending, Refused(409, TransferNotPending), None))), 200)
    ensures CancelTransfer(s, id, p).1.Done? ==>
              var (u, o) := CancelTransfer(s, id, p);
              var k := TransferAt(s.transfers, id);
              && k < |s.transfers|
              && var t := s.transfers[k].(status := Canceled, canceled := Some(s.sequence + 1));
                 o.body == ATransfer(t, false) && u == s.(sequence := s.sequence + 1, transfers := s.transfers[k := t])
  {
    hide AccountAt, Lookup, TransferAt;
    var k := TransferAt(s.transfers, id);
    if k < |s.transfers| { LookupIs(s.accounts, s.transfers[k].source); }
  }

  // ---- settlement ----

  /** A pending transfer settles exactly when its payer still covers it; and fails changing nothing but itself. */
  lemma {:induction false} SettlementAnswers(s: State, i: nat)
    requires i < |s.transfers|
    ensures var t, u := s.transfers[i], SettleOne(s, i);
            var a := Lookup(s.accounts, t.source);
            && |u.transfers| == |s.transfers|
            && (u.transfers[i].status == Settled <==> a.Some? && a.value.balance >= t.amount + t.fee)
            && (u.transfers[i].status != Settled ==>
                  u == s.(sequence := s.sequence + 1, transfers := s.transfers[i := t.(status := Failed)]))
            && (u.transfers[i].status == Settled ==>
                  && u.transfers == s.transfers[i := t.(status := Settled, settled := Some(s.sequence + 1))]
                  && |u.entries| == |s.entries| + 3 && u.sequence == s.sequence + 1 && u.draws == s.draws + 3
                  && u.deposits == s.deposits && u.usage == s.usage && u.idempotency == s.idempotency && u.day == s.day)
  {
    hide AccountAt, Lookup;
    LookupIs(s.accounts, s.transfers[i].source);
  }

  // ---- keys of different principals ----

  /** Two principals never share a remembered key, as long as no principal's id has a colon in it. */
  lemma {:induction false} KeysApart(p: Principal, q: Principal, key: string, other: string)
    requires ':' !in p.id && ':' !in q.id
    ensures Scoped(p, key) == Scoped(q, other) <==> p.id == q.id && key == other
  {
    var a, b := Scoped(p, key), Scoped(q, other);
    if a == b {
      assert a[|p.id|] == ':' && b[|q.id|] == ':';
      assert |p.id| == |q.id|;
      assert a[..|p.id|] == p.id && b[..|q.id|] == q.id;
      assert a[|p.id| + 1..] == key && b[|q.id| + 1..] == other;
    }
  }

  /** With a colon they may: one's key `b:c` is the other's key `c`. */
  lemma {:induction false} KeysMeet(a: string, b: string, c: string, admin: bool)
    ensures Scoped(Principal(admin, a), b + ":" + c) == Scoped(Principal(admin, a + ":" + b), c)
  {
    assert a + ":" + (b + ":" + c) == (a + ":" + b) + ":" + c;
  }

  // ---- who may change what ----

  /** The principal an operation is made by; settlement is the bank's own. */
  function By(op: Op): Option<Principal> {
    match op
    case OpenAccount(_, p) => Some(p)
    case Activate(_, p) => Some(p)
    case Close(_, p) => Some(p)
    case PayIn(_, p) => Some(p)
    case Send(_, _, p) => Some(p)
    case Cancel(_, p) => Some(p)
    case Settlement(_, _) => None
  }

  /** An operation by somebody who is neither an administrator nor the owner of this account. */
  predicate Stranger(op: Op, a: Account) {
    By(op).Some? && !Owns(By(op).value, a)
  }

  /** What only an owner may change: the account itself, its rows, what it sends, and its transfers. */
  ghost predicate Untouched(s: State, u: State, k: nat) {
    && k < |s.accounts| <= |u.accounts| && u.accounts[k] == s.accounts[k]
    && (forall e :: e in u.entries && e.account == s.accounts[k].id ==> e in s.entries)
    && (forall i :: 0 <= i < |u.transfers| && u.transfers[i].source == s.accounts[k].id ==>
          i < |s.transfers| && u.transfers[i] == s.transfers[i])
    && |s.transfers| <= |u.transfers| && (forall i :: 0 <= i < |s.transfers| ==> u.transfers[i].source == s.transfers[i].source)
  }

  lemma {:induction false} LookupAt(s: State, k: nat)
    requires Inv(s) && k < |s.accounts|
    ensures Lookup(s.accounts, s.accounts[k].id) == Some(s.accounts[k]) && AccountAt(s.accounts, s.accounts[k].id) == k
  {
    LookupIs(s.accounts, s.accounts[k].id);
    AccountAtIndex(s.accounts, k);
  }

  /** No operation by anybody else touches an account, its rows, or what it sends. */
  lemma {:induction false} OnlyOwnersAct(s: State, op: Op, k: nat)
    requires Inv(s) && k < |s.accounts| && Stranger(op, s.accounts[k])
    ensures Untouched(s, Apply(s, op).0, k)
  {
    hide Inv, Lookup, AccountAt, TransferAt, Owns, CreateAccount, ActivateAccount, CloseAccount, CreateDeposit, CreateTransfer, CancelTransfer,
         TransferChecks;
    var a := s.accounts[k];
    LookupAt(s, k);
    if Apply(s, op).1.Refused? {
      RefusedSame(s, op);
    } else {
      match op
      case OpenAccount(r, p) => CreateAccountAnswers(s, r, p);
      case Activate(id, p) =>
        ActivateAnswers(s, id, p);
        OtherAccount(s, Apply(s, op).0, id, Apply(s, op).1.body.account, p, k);
      case Close(id, p) =>
        CloseAnswers(s, id, p);
        OtherAccount(s, Apply(s, op).0, id, Apply(s, op).1.body.account, p, k);
      case PayIn(r, p) => StrangerPaysIn(s, r, p, k);
      case Send(r, key, p) => StrangerSends(s, r, key, p, k);
      case Cancel(id, p) => StrangerCancels(s, id, p, k);
    }
  }

  lemma {:induction false} OtherAccount(s: State, u: State, id: Id, b: Account, p: Principal, k: nat)
    requires Inv(s) && k < |s.accounts| && OnlyAccount(s, u, id, b) && OwnedBy(Lookup(s.accounts, id), p) && !Owns(p, s.accounts[k])
    ensures Untouched(s, u, k)
  {
    hide Inv, Lookup, Owns;
  }

  lemma {:induction false} StrangerPaysIn(s: State, r: DepositRequest, p: Principal, k: nat)
    requires Inv(s) && k < |s.accounts| && !Owns(p, s.accounts[k]) && CreateDeposit(s, r, p).1.Done?
    ensures Untouched(s, CreateDeposit(s, r, p).0, k)
  {
    hide Inv, Lookup, Owns, CreateDeposit, AccountAt;
    LookupAt(s, k);
    DepositAnswers(s, r, p);
  }

  lemma {:induction false} StrangerSends(s: State, r: TransferRequest, key: string, p: Principal, k: nat)
    requires Inv(s) && k < |s.accounts| && !Owns(p, s.accounts[k]) && CreateTransfer(s, r, key, p).1.Done?
    ensures Untouched(s, CreateTransfer(s, r, key, p).0, k)
  {
    hide Inv, Lookup, Owns, CreateTransfer, AccountAt, TransferChecks, IsFee, Spent;
    LookupAt(s, k);
    TransferAnswers(s, r, key, p);
    TransferAcceptedWhen(s, r, key, p);
    if CreateTransfer(s, r, key, p).1.status == 201 { TransferAccepted(s, r, key, p); }
  }

  lemma {:induction false} StrangerCancels(s: State, id: Id, p: Principal, k: nat)
    requires Inv(s) && k < |s.accounts| && !Owns(p, s.accounts[k]) && CancelTransfer(s, id, p).1.Done?
    ensures Untouched(s, CancelTransfer(s, id, p).0, k)
  {
    hide Inv, Lookup, Owns, CancelTransfer, AccountAt, TransferAt;
    LookupAt(s, k);
    CancelAnswers(s, id, p);
  }

  lemma {:induction false} RefusedSame(s: State, op: Op)
    requires Apply(s, op).1.Refused?
    ensures Apply(s, op).0 == s
  {
    hide SettleAll, Ended, TransferRefusal;
  }

  // ---- over histories ----

  /** Nobody's account changes hands. */
  lemma {:induction false} OwnersStay(s: State, op: Op, k: nat)
    requires k < |s.accounts|
    ensures var u := Apply(s, op).0;
            && k < |u.accounts| && u.accounts[k].id == s.accounts[k].id && u.accounts[k].kind == s.accounts[k].kind
            && u.accounts[k].ownerPrincipal == s.accounts[k].ownerPrincipal
  {
    hide AccountAt, TransferAt, TransferRefusal, Queue, SettleAll, Ended, HasPending, Trim;
    match op
    case Settlement(limit, advanceDay) =>
      TickSettles(s, limit, advanceDay);
      SettledOwners(s, Batch(s, limit), k);
    case _ =>
  }

  lemma {:induction false} SettledOwners(s: State, batch: seq<nat>, k: nat)
    requires k < |s.accounts| && forall j :: 0 <= j < |batch| ==> batch[j] < |s.transfers|
    ensures var u := SettleAll(s, batch);
            && |u.accounts| == |s.accounts| && u.accounts[k].id == s.accounts[k].id && u.accounts[k].kind == s.accounts[k].kind
            && u.accounts[k].ownerPrincipal == s.accounts[k].ownerPrincipal && u.accounts[k].status == s.accounts[k].status
            && |u.transfers| == |s.transfers|
            && forall i :: 0 <= i < |u.transfers| ==> u.transfers[i].source == s.transfers[i].source
    decreases |batch|
  {
    hide SettleOne;
    if batch != [] {
      OneSettledOwner(s, batch[0], k);
      SettledOwners(SettleOne(s, batch[0]), batch[1..], k);
    }
  }

  lemma {:induction false} OneSettledOwner(s: State, i: nat, k: nat)
    requires k < |s.accounts| && i < |s.transfers|
    ensures var u := SettleOne(s, i);
            && |u.accounts| == |s.accounts| && u.accounts[k].id == s.accounts[k].id && u.accounts[k].kind == s.accounts[k].kind
            && u.accounts[k].ownerPrincipal == s.accounts[k].ownerPrincipal && u.accounts[k].status == s.accounts[k].status
            && |u.transfers| == |s.transfers|
            && forall j :: 0 <= j < |u.transfers| ==> u.transfers[j].source == s.transfers[j].source
  {
    hide AccountAt;
  }

  /** A history made by strangers to this account, and the bank's settlements. */
  predicate Strangers(ops: seq<Op>, a: Account) {
    forall i :: 0 <= i < |ops| ==> ops[i].Settlement? || Stranger(ops[i], a)
  }

  /**
    However long others act: the account is neither activated nor closed, no deposit is paid into it, and it sends
    nothing but the transfers that were already there, which nobody cancels.
  */
  lemma {:induction false} NobodyElseActs(s: State, ops: seq<Op>, k: nat)
    requires Inv(s) && k < |s.accounts| && Strangers(ops, s.accounts[k])
    ensures var u, a := Run(s, ops), s.accounts[k];
            && k < |u.accounts| && u.accounts[k].id == a.id && u.accounts[k].status == a.status
            && |s.transfers| <= |u.transfers|
            && (forall i :: 0 <= i < |u.transfers| && u.transfers[i].source == a.id ==> i < |s.transfers|)
            && (forall i :: 0 <= i < |s.transfers| ==> u.transfers[i].source == s.transfers[i].source)
            && (forall i :: 0 <= i < |s.transfers| && s.transfers[i].source == a.id ==>
                  u.transfers[i].status == Canceled ==> s.transfers[i].status == Canceled)
            && (forall e :: e in u.entries && e.account == a.id && e.kind == DepositEntry ==> e in s.entries)
    decreases |ops|
  {
    hide Inv, Apply, Owns;
    if ops != [] {
      var v, a := Apply(s, ops[0]).0, s.accounts[k];
      ApplyInv(s, ops[0]);
      OwnersStay(s, ops[0], k);
      RestStrange(ops, a);
      SameOwner(ops[1..], a, v.accounts[k]);
      NobodyElseActs(v, ops[1..], k);
      OneStep(s, ops[0], k);
    }
  }

  lemma {:induction false} RestStrange(ops: seq<Op>, a: Account)
    requires ops != [] && Strangers(ops, a)
    ensures Strangers(ops[1..], a) && (ops[0].Settlement? || Stranger(ops[0], a))
  {
    forall i | 0 <= i < |ops[1..]| ensures ops[1..][i].Settlement? || Stranger(ops[1..][i], a) { assert ops[1..][i] == ops[i + 1]; }
  }

  lemma SameOwner(ops: seq<Op>, a: Account, b: Account)
    requires a.kind == b.kind && a.ownerPrincipal == b.ownerPrincipal && Strangers(ops, a)
    ensures Strangers(ops, b)
  {}

  lemma {:induction false} OneStep(s: State, op: Op, k: nat)
    requires Inv(s) && k < |s.accounts| && (op.Settlement? || Stranger(op, s.accounts[k]))
    ensures var u, a := Apply(s, op).0, s.accounts[k];
            && k < |u.accounts| && u.accounts[k].id == a.id && u.accounts[k].status == a.status
            && |s.transfers| <= |u.transfers|
            && (forall i :: 0 <= i < |u.transfers| && u.transfers[i].source == a.id ==> i < |s.transfers|)
            && (forall i :: 0 <= i < |s.transfers| ==> u.transfers[i].source == s.transfers[i].source)
            && (forall i :: 0 <= i < |s.transfers| && s.transfers[i].source == a.id ==>
                  u.transfers[i].status == Canceled ==> s.transfers[i].status == Canceled)
            && (forall e :: e in u.entries && e.account == a.id && e.kind == DepositEntry ==> e in s.entries)
  {
    hide Inv, Owns, AccountAt, Batch, SettleAll, Tick, CreateAccount, ActivateAccount, CloseAccount, CreateDeposit, CreateTransfer, CancelTransfer;
    if op.Settlement? {
      TickSettles(s, op.limit, op.advanceDay);
      SettledOwners(s, Batch(s, op.limit), k);
      SettledRows(s, Batch(s, op.limit));
    } else {
      OnlyOwnersAct(s, op, k);
    }
  }

  lemma {:induction false} TickSettles(s: State, limit: Option<int>, advanceDay: bool)
    ensures forall j :: 0 <= j < |Batch(s, limit)| ==> Batch(s, limit)[j] < |s.transfers|
    ensures var u, v := Tick(s, limit, advanceDay).0, SettleAll(s, Batch(s, limit));
            u.accounts == v.accounts && u.transfers == v.transfers && u.entries == v.entries
  {
    hide SettleAll, Ended;
    QueueInRange(s.transfers, 0);
  }

  /** Settlement pays nothing in and cancels nothing. */
  lemma {:induction false} SettledRows(s: State, batch: seq<nat>)
    requires forall j :: 0 <= j < |batch| ==> batch[j] < |s.transfers|
    ensures var u := SettleAll(s, batch);
            && |u.transfers| == |s.transfers|
            && (forall i :: 0 <= i < |u.transfers| && u.transfers[i].status == Canceled ==> s.transfers[i].status == Canceled)
            && (forall e :: e in u.entries && e.kind == DepositEntry ==> e in s.entries)
    decreases |batch|
  {
    hide AccountAt;
    if batch != [] {
      OneSettledRow(s, batch[0]);
      SettledRows(SettleOne(s, batch[0]), batch[1..]);
    }
  }

  lemma {:induction false} OneSettledRow(s: State, i: nat)
    requires i < |s.transfers|
    ensures var u := SettleOne(s, i);
            && |u.transfers| == |s.transfers|
            && (forall j :: 0 <= j < |u.transfers| && u.transfers[j].status == Canceled ==> s.transfers[j].status == Canceled)
            && (forall e :: e in u.entries && e.kind == DepositEntry ==> e in s.entries)
  {
    hide AccountAt;
  }
}

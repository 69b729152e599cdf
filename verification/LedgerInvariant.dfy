/** What every step of the ledger protocol keeps. */
module LedgerInvariant {
  import opened Wrappers
  import opened Ledger
  import opened LedgerProtocol
  import opened Sums

  // ----- Tables only grow ------------------------------------------------------------------

  ghost predicate SameKey(row: KeyRecord, later: KeyRecord) {
    row.secretHash == later.secretHash && row.accountId == later.accountId && row.keyId == later.keyId
    && row.capped == later.capped && (row.revoked ==> later.revoked)
  }

  /** Rows never disappear, keys keep their account and kind, revocation is final, receipts never change. */
  ghost predicate Grows(t: Tables, later: Tables) {
    && (forall a <- t.accounts :: a in later.accounts)
    && (forall h <- t.keys :: h in later.keys && SameKey(t.keys[h], later.keys[h]))
    && forall n <- t.receipts :: n in later.receipts && later.receipts[n] == t.receipts[n]
  }

  // ----- The money in the tables ---------------------------------------------------------------

  function DebitedFrom(a: AccountId): Debit -> nat { (d: Debit) => if d.account == a then d.cost else 0 }

  function RefundedTo(a: AccountId): Debit -> nat { (d: Debit) => if d.account == a then d.refunds * d.cost else 0 }

  function CreditedTo(a: AccountId): Receipt -> nat { (r: Receipt) => if r.accountId == a then r.invokes else 0 }

  function SpentOn(h: SecretHash): Debit -> nat { (d: Debit) => if d.capped && d.hash == h then d.cost else 0 }

  function ReturnedTo(h: SecretHash): Debit -> nat {
    (d: Debit) => if d.capped && d.hash == h then d.refunds * d.cost else 0
  }

  function BilledTo(a: AccountId): Debit -> nat { (d: Debit) => if d.account == a && d.ranGuest then d.cost else 0 }

  function Balance(t: Tables, a: AccountId): nat { if a in t.accounts then t.accounts[a] else 0 }

  /** Balance and debits on one side, refunds and receipts on the other. */
  ghost predicate MoneyBalances(t: Tables, debits: map<ReqId, Debit>, a: AccountId) {
    Balance(t, a) + Sum(debits, DebitedFrom(a)) == Sum(debits, RefundedTo(a)) + Sum(t.receipts, CreditedTo(a))
  }

  ghost predicate CapBalances(t: Tables, debits: map<ReqId, Debit>, issued: map<SecretHash, nat>, h: SecretHash) {
    h in t.keys && t.keys[h].capRemaining.Some? && h in issued &&
    t.keys[h].capRemaining.value + Sum(debits, SpentOn(h)) == Sum(debits, ReturnedTo(h)) + issued[h]
  }

  // ----- Requests ----------------------------------------------------------------------------

  /** A key record as read at some time: the row is still there and of the same account and kind. */
  ghost predicate Known(t: Tables, hash: SecretHash, key: KeyRecord) {
    hash in t.keys && t.keys[hash].accountId == key.accountId && t.keys[hash].capped == key.capped
  }

  /** The debit behind a receipt that is still out: applied, not refunded, and the guest has not run on it. */
  ghost predicate Outstanding(s: State, id: ReqId, r: DebitReceipt) {
    id in s.debits && s.debits[id] == Debit(r.secretHash, r.accountId, r.cost, r.capped, 0, false)
  }

  ghost predicate PcOk(s: State, id: ReqId, p: Proc)
    requires s.history != []
  {
    match p.pc
    case Start => id !in s.debits && id !in s.settled && (p.req.Invoke? ==> p.req.cost > 0)
                  && (p.req.Credit? ==> p.req.invokes > 0 && p.req.header.Header? && p.req.header.decoded.Ok?)
    case HasKey(key) => p.req.Invoke? && p.req.cost > 0 && id !in s.debits && Known(Now(s), p.req.hash, key)
    case Admitted(key) => p.req.Invoke? && p.req.cost > 0 && id !in s.debits && Known(Now(s), p.req.hash, key)
    case DebitRefused => p.req.Invoke? && id !in s.debits
    case DebitRefusedKey(_) => p.req.Invoke? && id !in s.debits
    case Charged(r) => p.req.Invoke? && r.secretHash == p.req.hash && r.cost == p.req.cost && Outstanding(s, id, r)
                       && id !in s.entered
    case Uncharged => p.req.Invoke? && p.req.cost == 0 && id !in s.debits
    case Refunding(r, cause) =>
      Pipeline.FailedBeforeGuest(cause) && p.req.Invoke? && r.secretHash == p.req.hash && r.cost == p.req.cost
      && Outstanding(s, id, r) && id !in s.entered
    case Authorized => (p.req.IssueKey? || p.req.Revoke?) && p.req.account in Now(s).accounts
    case BalanceBefore(_) => p.req.Revoke?
    case Found(_, _) => p.req.Revoke?
    case BalanceAfter(_) => p.req.Revoke?
    case Replayed => p.req.Credit? && ReadNonce(p.req) in Now(s).receipts
    case Unsettled =>
      p.req.Credit? && id !in s.settled && p.req.invokes > 0 && p.req.header.Header? && p.req.header.decoded.Ok?
    case Settled(n, k) => p.req.Credit? && 1 <= k <= CREDIT_ATTEMPTS && WasSettled(s, id, p.req, n)
    case Committed(n, k) =>
      p.req.Credit? && 1 <= k <= CREDIT_ATTEMPTS && WasSettled(s, id, p.req, n) && n in Now(s).receipts
    case CreditRefused(n, k) => p.req.Credit? && 1 <= k <= CREDIT_ATTEMPTS && WasSettled(s, id, p.req, n)
    case AlreadyCredited(n, k) =>
      p.req.Credit? && 1 <= k <= CREDIT_ATTEMPTS && WasSettled(s, id, p.req, n) && n in Now(s).receipts
    case Done(Credited(_)) => p.req.Credit? && ReadNonce(p.req) in Now(s).receipts
    case Done(Failed(e)) => p.req.Invoke? && (e.Unauthorized? || e.InsufficientCredits?) ==> id !in s.debits
    case Done(Succeeded) => true
  }

  /** The facilitator has settled this very payment, at the platform price. */
  ghost predicate WasSettled(s: State, id: ReqId, req: Request, n: Nonce)
    requires req.Credit?
  {
    && id in s.settled && req.invokes > 0 && n != "" && n == ReadNonce(req)
    && s.settled[id] == Settlement(req.account, n, req.invokes, req.invokes * s.settler.usdcPerInvoke)
  }

  /** Facts about the record of an applied debit. */
  ghost predicate DebitOk(s: State, id: ReqId)
    requires s.history != [] && id in s.debits
  {
    var d := s.debits[id];
    && id in s.procs && s.procs[id].req == Request.Invoke(d.hash, d.cost) && d.cost > 0
    && Known(Now(s), d.hash, KeyRecord(d.hash, d.account, 0, false, d.capped, None)) && d.account in Now(s).accounts
    && d.refunds <= 1 && (d.refunds == 1 ==> !d.ranGuest) && (d.ranGuest <==> id in s.entered)
  }

  /** Somebody settled exactly the payment that a receipt acknowledges. */
  ghost predicate Paid(settled: map<ReqId, Settlement>, price: nat, n: Nonce, r: Receipt) {
    exists id :: id in settled && settled[id] == Settlement(r.accountId, n, r.invokes, r.invokes * price)
  }

  // ----- The invariant, part by part -----------------------------------------------------------

  ghost predicate HistoryOk(s: State) {
    && s.history != []
    && forall k :: 0 <= k < |s.history| ==> RowsOk(s.history[k]) && Grows(s.history[k], s.history[|s.history| - 1])
  }

  ghost predicate MoneyOk(t: Tables, debits: map<ReqId, Debit>) { forall a :: MoneyBalances(t, debits, a) }

  ghost predicate CapsOk(t: Tables, debits: map<ReqId, Debit>, issued: map<SecretHash, nat>) {
    && (forall h <- t.keys :: t.keys[h].capped ==> CapBalances(t, debits, issued, h))
    && forall h <- issued :: h in t.keys && t.keys[h].capped
  }

  ghost predicate ProcsOk(s: State)
    requires s.history != []
  {
    forall id <- s.procs :: PcOk(s, id, s.procs[id])
  }

  ghost predicate DebitsOk(s: State)
    requires s.history != []
  {
    forall id <- s.debits :: DebitOk(s, id)
  }

  /** A paid request that entered the guest holds an applied debit. */
  ghost predicate EnteredOk(s: State) {
    forall id <- s.entered :: id in s.procs && s.procs[id].req.Invoke?
      && (s.procs[id].req.cost > 0 ==> id in s.debits && s.debits[id].ranGuest)
  }

  ghost predicate ReceiptsOk(t: Tables, settled: map<ReqId, Settlement>, price: nat) {
    forall n <- t.receipts :: Paid(settled, price, n, t.receipts[n])
  }

  ghost predicate SettlementsOk(settled: map<ReqId, Settlement>, price: nat) {
    forall id <- settled :: settled[id].value == settled[id].invokes * price <= U64_MAX
  }

  ghost predicate Inv(s: State) {
    && s.history != [] && HistoryOk(s)
    && MoneyOk(Now(s), s.debits)
    && CapsOk(Now(s), s.debits, s.issued)
    && ProcsOk(s)
    && DebitsOk(s)
    && EnteredOk(s)
    && ReceiptsOk(Now(s), s.settled, s.settler.usdcPerInvoke)
    && SettlementsOk(s.settled, s.settler.usdcPerInvoke)
    && s.settled.Keys <= s.procs.Keys
  }
}

/** Requests against the shared ledger, interleaved at every store call.

    A request is a program counter. Between two steps of one request any other request may step. A read observes
    some version of the tables, not necessarily the last one. A write commits, is refused (its conditions failed, or
    it lost a conflict), or its answer is lost, and then it may or may not have been applied. */
module LedgerProtocol {
  import opened Wrappers
  import opened Results
  import opened Ledger
  import opened Payments
  import Pipeline = InvokePipeline

  type ReqId = nat
  type AppError = Pipeline.AppError

  datatype Header = NoHeader | Header(decoded: Result<ExactAuthorization, PaymentError>)

  datatype Request =
    | Invoke(hash: SecretHash, cost: u64)
    | Create(account: AccountId, hash: SecretHash, keyId: KeyId)
    | IssueKey(account: AccountId, presented: SecretHash, hash: SecretHash, keyId: KeyId, spendCap: Option<u64>)
    | Revoke(account: AccountId, presented: SecretHash, keyId: KeyId)
    | Credit(account: AccountId, invokes: u64, header: Header)

  datatype Outcome = Succeeded | Credited(balance: nat) | Failed(error: AppError)

  /** Where a request stands: what it has read, and which store call comes next. */
  datatype Pc =
    | Start
    // PaidInvoke::execute around DynamoAccountStore::debit
    | HasKey(key: KeyRecord)
    | Admitted(key: KeyRecord)
    | DebitRefused
    | DebitRefusedKey(key: KeyRecord)
    | Charged(receipt: DebitReceipt)
    | Uncharged
    | Refunding(receipt: DebitReceipt, cause: AppError)
    // Accounts::issue_key and Accounts::revoke
    | Authorized
    | BalanceBefore(before: Option<nat>)
    | Found(hash: SecretHash, before: Option<nat>)
    | BalanceAfter(before: Option<nat>)
    // Accounts::credit
    | Replayed
    | Unsettled
    | Settled(nonce: Nonce, attempt: nat)
    | Committed(nonce: Nonce, attempt: nat)
    | CreditRefused(nonce: Nonce, attempt: nat)
    | AlreadyCredited(nonce: Nonce, attempt: nat)
    | Done(outcome: Outcome)

  datatype Proc = Proc(req: Request, pc: Pc)

  /** An applied debit and what became of it. */
  datatype Debit = Debit(hash: SecretHash, account: AccountId, cost: u64, capped: bool, refunds: nat, ranGuest: bool)

  /** A payment the facilitator settled. */
  datatype Settlement = Settlement(account: AccountId, nonce: Nonce, invokes: nat, value: nat)

  /** `history` holds every version of the tables, the current one last. `debits`, `settled`, `issued` and `entered`
      only record what has happened; no step looks at them. */
  datatype State = State(settler: Settler, history: seq<Tables>, procs: map<ReqId, Proc>, debits: map<ReqId, Debit>,
                         settled: map<ReqId, Settlement>, issued: map<SecretHash, nat>, entered: set<ReqId>)

  datatype Fate = Commits | Refused | Lost(applied: bool)

  datatype Event =
    | Begin(id: ReqId, req: Request, now: u64)
    | Read(id: ReqId, version: nat, pick: Option<SecretHash>)
    | ReadFault(id: ReqId)
    | Write(id: ReqId, fate: Fate)
    | Run(id: ReqId, script: Pipeline.Script)
    | Settle(id: ReqId, now: u64, facilitator: Result<(), PaymentError>)

  const CREDIT_ATTEMPTS := 3

  function Now(s: State): Tables
    requires s.history != []
  {
    s.history[|s.history| - 1]
  }

  function Fail(e: AppError): Pc { Done(Failed(e)) }

  /** `map_debit` and `From<StoreError>`; a missing row during a debit also reads as unauthorized. */
  function DebitError(e: StoreError): AppError {
    match e
    case Unauthorized => Pipeline.Unauthorized
    case NotFound => Pipeline.Unauthorized
    case Insufficient(_, balance, cost, cap) => Pipeline.InsufficientCredits(cost, balance, cap)
    case Storage(_) => Pipeline.Storage
  }

  function StoreErrorToApp(e: StoreError): AppError {
    match e
    case Unauthorized => Pipeline.Unauthorized
    case NotFound => Pipeline.NotFound
    case Insufficient(_, balance, cost, cap) => Pipeline.InsufficientCredits(cost, balance, cap)
    case Storage(_) => Pipeline.Storage
  }

  function PaymentToApp(e: PaymentError): AppError {
    if e.Settle? then Pipeline.Storage else Pipeline.BadRequest
  }

  // ----- Begin -----------------------------------------------------------------------------

  /** The checks before the first store call. A free invoke skips the ledger. */
  function FirstPc(s: Settler, req: Request, now: u64): Pc {
    match req
    case Invoke(_, cost) => if cost == 0 then Uncharged else Start
    case Create(_, _, _) => Start
    case IssueKey(_, _, _, _, _) => Start
    case Revoke(_, _, _) => Start
    case Credit(_, invokes, header) =>
      if invokes == 0 then Fail(Pipeline.BadRequest)
      else if header.NoHeader? then
        match Requirements(s, invokes)
        case Ok(r) => Fail(Pipeline.PaymentChallenge(r.amount))
        case Err(e) => Fail(PaymentToApp(e))
      else
        match PaymentNonce(s, invokes, header.decoded, now)
        case Ok(_) => Start
        case Err(e) => Fail(PaymentToApp(e))
  }

  // ----- Reads -----------------------------------------------------------------------------

  predicate Reads(p: Proc) {
    match p.pc
    case Start => !p.req.Create?
    case HasKey(_) => true
    case DebitRefused => true
    case DebitRefusedKey(_) => true
    case Authorized => p.req.Revoke?
    case BalanceBefore(_) => true
    case BalanceAfter(_) => true
    case Replayed => true
    case Committed(_, _) => true
    case CreditRefused(_, _) => true
    case AlreadyCredited(_, _) => true
    case _ => false
  }

  function AdmitDebit(t: Tables, key: KeyRecord, cost: nat, admitted: Pc): Pc {
    match AccountById(t, key.accountId)
    case Err(_) => Fail(Pipeline.Storage)
    case Ok(None) => Fail(Pipeline.Storage)
    case Ok(Some(account)) =>
      match Denial(account, key, cost)
      case Some(e) => Fail(DebitError(e))
      case None => admitted
  }

  function ReadDebitKey(t: Tables, hash: SecretHash): Option<KeyRecord> {
    var key :- KeyByHash(t, hash);
    if key.revoked then None else Some(key)
  }

  /** Another attempt after a storage error, while attempts are left. */
  function Retry(nonce: Nonce, attempt: nat): Pc {
    if attempt < CREDIT_ATTEMPTS then Settled(nonce, attempt + 1) else Fail(Pipeline.Storage)
  }

  /** The balance read at the end of `DynamoAccountStore::credit`. */
  function ReportBalance(t: Tables, account: AccountId, nonce: Nonce, attempt: nat): Pc {
    match BalanceOf(t, account)
    case Ok(balance) => Done(Credited(balance))
    case Err(Storage(_)) => Retry(nonce, attempt)
    case Err(e) => Fail(StoreErrorToApp(e))
  }

  function ReadNonce(req: Request): Nonce {
    if req.Credit? && req.header.Header? && req.header.decoded.Ok? then req.header.decoded.value.nonce else ""
  }

  /** One read of `p` that observes the tables `t`; `pick` is the row that the key index offers. */
  function AfterRead(p: Proc, t: Tables, pick: Option<SecretHash>): Pc {
    match p.req
    case Invoke(hash, cost) => (
      match p.pc
      case Start =>
        var key := ReadDebitKey(t, hash);
        if key.None? then Fail(Pipeline.Unauthorized) else HasKey(key.value)
      case HasKey(key) => AdmitDebit(t, key, cost, Admitted(key))
      case DebitRefused =>
        var key := ReadDebitKey(t, hash);
        if key.None? then Fail(Pipeline.Unauthorized) else DebitRefusedKey(key.value)
      case DebitRefusedKey(key) => AdmitDebit(t, key, cost, Fail(Pipeline.Storage))
      case _ => p.pc)
    case Create(_, _, _) => p.pc
    case IssueKey(account, presented, _, _, _) =>
      if !p.pc.Start? then p.pc
      else if AuthorizeAdditionalKey(account, KeyByHash(t, presented)) then Authorized
      else Fail(Pipeline.Unauthorized)
    case Revoke(account, presented, keyId) => (
      match p.pc
      case Start =>
        if AuthorizeAdditionalKey(account, KeyByHash(t, presented)) then Authorized else Fail(Pipeline.Unauthorized)
      case Authorized => (
        match AccountById(t, account)
        case Ok(row) => BalanceBefore(if row.Some? then Some(row.value.balance) else None)
        case Err(_) => Fail(Pipeline.Storage))
      case BalanceBefore(before) => if pick.None? then Fail(Pipeline.NotFound) else Found(pick.value, before)
      case BalanceAfter(before) => (
        match AccountById(t, account)
        case Ok(row) =>
          if before == (if row.Some? then Some(row.value.balance) else None) then Done(Succeeded)
          else Fail(Pipeline.Storage)
        case Err(_) => Fail(Pipeline.Storage))
      case _ => p.pc)
    case Credit(account, _, _) => (
      match p.pc
      case Start => if ReadNonce(p.req) in t.receipts then Replayed else Unsettled
      case Replayed => (
        match BalanceOf(t, account)
        case Ok(balance) => Done(Credited(balance))
        case Err(e) => Fail(StoreErrorToApp(e)))
      case Committed(nonce, attempt) => ReportBalance(t, account, nonce, attempt)
      case CreditRefused(nonce, attempt) =>
        if nonce in t.receipts then AlreadyCredited(nonce, attempt) else Fail(Pipeline.NotFound)
      case AlreadyCredited(nonce, attempt) => ReportBalance(t, account, nonce, attempt)
      case _ => p.pc)
  }

  function AfterReadFault(p: Proc): Pc {
    match p.pc
    case Committed(nonce, attempt) => Retry(nonce, attempt)
    case CreditRefused(nonce, attempt) => Retry(nonce, attempt)
    case AlreadyCredited(nonce, attempt) => Retry(nonce, attempt)
    case _ => Fail(Pipeline.Storage)
  }

  /** What the key index may return: the hash of a row of `t` with this account and key id, if there is one. */
  predicate IndexOffers(p: Proc, t: Tables, pick: Option<SecretHash>) {
    p.req.Revoke? && p.pc.BalanceBefore? ==>
      match pick
      case Some(h) => h in t.keys && t.keys[h].accountId == p.req.account && t.keys[h].keyId == p.req.keyId
      case None => forall h <- t.keys :: !(t.keys[h].accountId == p.req.account && t.keys[h].keyId == p.req.keyId)
  }

  // ----- Writes ----------------------------------------------------------------------------

  predicate Writes(p: Proc) {
    match p.pc
    case Start => p.req.Create?
    case Admitted(_) => p.req.Invoke?
    case Refunding(_, _) => p.req.Invoke?
    case Authorized => p.req.IssueKey?
    case Found(_, _) => p.req.Revoke?
    case Settled(_, _) => p.req.Credit?
    case _ => false
  }

  /** The tables after the conditional write of `p`, `None` when a condition fails. */
  function Attempt(p: Proc, t: Tables): Option<Tables>
    requires Writes(p)
  {
    match p.req
    case Invoke(hash, cost) =>
      if p.pc.Admitted? then DebitTx(t, p.pc.key.accountId, hash, cost, p.pc.key.capped)
      else RefundTx(t, p.pc.receipt)
    case Create(account, hash, keyId) => CreateTx(t, Account(account, 0), NewKey(hash, account, keyId, None))
    case IssueKey(account, _, hash, keyId, spendCap) => PutKeyTx(t, NewKey(hash, account, keyId, spendCap))
    case Revoke(account, _, _) => RevokeTx(t, account, p.pc.hash)
    case Credit(account, invokes, _) => CreditTx(t, account, invokes, p.pc.nonce)
  }

  function ReceiptFor(p: Proc): DebitReceipt
    requires p.req.Invoke? && p.pc.Admitted?
  {
    DebitReceipt(p.req.hash, p.pc.key.accountId, p.req.cost, p.pc.key.capped)
  }

  function AfterWrite(p: Proc, fate: Fate): Pc
    requires Writes(p)
  {
    match p.pc
    case Admitted(_) =>
      if fate.Commits? then Charged(ReceiptFor(p)) else if fate.Refused? then DebitRefused else Fail(Pipeline.Storage)
    case Refunding(_, cause) => Fail(if fate.Commits? then cause else Pipeline.Storage)
    case Found(_, before) => if fate.Commits? then BalanceAfter(before) else Fail(Pipeline.Storage)
    case Settled(nonce, attempt) =>
      if fate.Commits? then Committed(nonce, attempt)
      else if fate.Refused? then CreditRefused(nonce, attempt)
      else Retry(nonce, attempt)
    case _ => if fate.Commits? then Done(Succeeded) else Fail(Pipeline.Storage)
  }

  predicate Applies(fate: Fate) { fate.Commits? || (fate.Lost? && fate.applied) }

  function RecordedDebits(s: State, id: ReqId, p: Proc): map<ReqId, Debit>
    requires Writes(p)
  {
    if p.req.Invoke? && p.pc.Admitted? then
      s.debits[id := Debit(p.req.hash, p.pc.key.accountId, p.req.cost, p.pc.key.capped, 0, false)]
    else if p.req.Invoke? && id in s.debits then s.debits[id := s.debits[id].(refunds := s.debits[id].refunds + 1)]
    else s.debits
  }

  function RecordedCaps(s: State, p: Proc): map<SecretHash, nat> {
    if p.req.IssueKey? && p.req.spendCap.Some? then s.issued[p.req.hash := p.req.spendCap.value] else s.issued
  }

  // ----- Running the guest and settling ------------------------------------------------------

  function AfterRun(p: Proc, script: Pipeline.Script): Pc {
    match Pipeline.Execute(script)
    case Ok(_) => Done(Succeeded)
    case Err(e) =>
      if p.pc.Charged? && Pipeline.FailedBeforeGuest(e) then Refunding(p.pc.receipt, e) else Fail(e)
  }

  function AfterSettle(s: Settler, p: Proc, now: u64, facilitator: Result<(), PaymentError>): Pc
    requires p.req.Credit? && p.req.header.Header?
  {
    match SettlePayment(s, p.req.invokes, p.req.header.decoded, now, facilitator)
    case Ok(nonce) => Settled(nonce, 1)
    case Err(e) => Fail(PaymentToApp(e))
  }

  // ----- Steps and runs ------------------------------------------------------------------------

  predicate Enabled(s: State, e: Event)
    requires s.history != []
  {
    match e
    case Begin(id, _, _) => id !in s.procs
    case Read(id, version, pick) =>
      id in s.procs && Reads(s.procs[id]) && version < |s.history| && IndexOffers(s.procs[id], s.history[version], pick)
    case ReadFault(id) => id in s.procs && Reads(s.procs[id])
    case Write(id, fate) =>
      id in s.procs && Writes(s.procs[id]) && (Applies(fate) ==> Attempt(s.procs[id], Now(s)).Some?)
    case Run(id, _) => id in s.procs && (s.procs[id].pc.Charged? || s.procs[id].pc.Uncharged?)
    case Settle(id, _, _) =>
      id in s.procs && s.procs[id].pc.Unsettled? && s.procs[id].req.Credit? && s.procs[id].req.header.Header?
  }

  function Move(s: State, id: ReqId, pc: Pc): (later: State)
    requires id in s.procs
    ensures later.history == s.history
  {
    s.(procs := s.procs[id := s.procs[id].(pc := pc)])
  }

  function ApplyWrite(s: State, id: ReqId): (later: State)
    requires s.history != [] && id in s.procs && Writes(s.procs[id]) && Attempt(s.procs[id], Now(s)).Some?
    ensures later.procs == s.procs && later.settler == s.settler && later.history != []
  {
    var p := s.procs[id];
    State(s.settler, s.history + [Attempt(p, Now(s)).value], s.procs, RecordedDebits(s, id, p), s.settled,
          RecordedCaps(s, p), s.entered)
  }

  function RecordRun(s: State, id: ReqId, script: Pipeline.Script): (later: State)
    ensures later.procs == s.procs && later.settler == s.settler && later.history == s.history
  {
    if !Pipeline.EnteredGuest(script) then s
    else
      var debits := if id in s.debits then s.debits[id := s.debits[id].(ranGuest := true)] else s.debits;
      s.(debits := debits, entered := s.entered + {id})
  }

  function RecordSettlement(s: State, id: ReqId, pc: Pc): (later: State)
    requires id in s.procs && s.procs[id].req.Credit?
    ensures later.procs == s.procs && later.settler == s.settler && later.history == s.history
  {
    if !pc.Settled? then s
    else
      var req := s.procs[id].req;
      var value := if req.header.Header? && req.header.decoded.Ok? then req.header.decoded.value.value else 0;
      s.(settled := s.settled[id := Settlement(req.account, pc.nonce, req.invokes, value)])
  }

  function Step(s: State, e: Event): (later: State)
    requires s.history != [] && Enabled(s, e)
    ensures later.settler == s.settler && later.history != []
  {
    match e
    case Begin(id, req, now) => s.(procs := s.procs[id := Proc(req, FirstPc(s.settler, req, now))])
    case Read(id, version, pick) => Move(s, id, AfterRead(s.procs[id], s.history[version], pick))
    case ReadFault(id) => Move(s, id, AfterReadFault(s.procs[id]))
    case Write(id, fate) =>
      Move(if Applies(fate) then ApplyWrite(s, id) else s, id, AfterWrite(s.procs[id], fate))
    case Run(id, script) => Move(RecordRun(s, id, script), id, AfterRun(s.procs[id], script))
    case Settle(id, now, facilitator) =>
      var pc := AfterSettle(s.settler, s.procs[id], now, facilitator);
      Move(RecordSettlement(s, id, pc), id, pc)
  }

  function Initial(settler: Settler): State {
    State(settler, [EMPTY], map[], map[], map[], map[], {})
  }

  /** The state behind a sequence of events from empty tables, `None` if some event is not enabled. */
  ghost function Play(settler: Settler, run: seq<Event>): (s: Option<State>)
    ensures s.Some? ==> s.value.history != []
  {
    if run == [] then Some(Initial(settler))
    else
      var before :- Play(settler, run[..|run| - 1]);
      var e := run[|run| - 1];
      if Enabled(before, e) then Some(Step(before, e)) else None
  }
}

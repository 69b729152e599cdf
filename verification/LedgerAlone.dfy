/** What the steps of a request do when nothing is in its way: the reads that admit it, the answers to its writes and
    the errors it ends in, step by step. */
module LedgerAlone {
  import opened Wrappers
  import opened Results
  import opened Ledger
  import opened LedgerProtocol
  import opened LedgerAnswers
  import opened Payments
  import Pipeline = InvokePipeline

  /** The answer to a debit that the atomic ledger denies. */
  predicate IsDenial(pc: Pc, e: StoreError) {
    match e
    case Unauthorized => pc == Done(Failed(Pipeline.Unauthorized))
    case Insufficient(_, balance, cost, cap) => pc == Done(Failed(Pipeline.InsufficientCredits(cost, balance, cap)))
    case _ => false
  }

  /** The two reads of a debit, of the same tables. */
  function AfterDebitReads(p: Proc, t: Tables): Pc {
    var first := AfterRead(p, t, None);
    if first.HasKey? || first.DebitRefusedKey? then AfterRead(p.(pc := first), t, None) else first
  }

  /** On tables without orphans and unreadable numbers the two reads admit a debit exactly if the atomic ledger grants
      it, and answer with its error otherwise; after a refused transaction they turn a debit that they admit into a
      storage error. */
  lemma DebitReadsExactly(t: Tables, p: Proc)
    requires RowsOk(t) && Readable(t) && p.req.Invoke? && (p.pc.Start? || p.pc.DebitRefused?)
    ensures var pc, r := AfterDebitReads(p, t), MemDebit(View(t), p.req.hash, p.req.cost).1;
            if r.Err? then IsDenial(pc, r.error)
            else if p.pc.Start? then pc == Admitted(t.keys[p.req.hash])
            else pc == Done(Failed(Pipeline.Storage))
  {
  }

  /** A key without its account, and an unreadable balance, are storage errors. */
  lemma BrokenRowsAreStorageErrors(t: Tables, p: Proc)
    requires p.req.Invoke? && (p.pc.Start? || p.pc.DebitRefused?) && IsUsable(t, p.req.hash)
    requires var a := t.keys[p.req.hash].accountId; a in t.accounts ==> t.accounts[a] > U64_MAX
    ensures AfterDebitReads(p, t) == Done(Failed(Pipeline.Storage))
  {
  }

  /** A cap that cannot be read covers no debit. */
  lemma UnreadableCapCoversNothing(t: Tables, p: Proc)
    requires p.req.Invoke? && (p.pc.Start? || p.pc.DebitRefused?) && IsUsable(t, p.req.hash) && p.req.cost > 0
    requires var key := t.keys[p.req.hash];
             key.capped && (key.capRemaining.None? || key.capRemaining.value > U64_MAX)
             && key.accountId in t.accounts && t.accounts[key.accountId] <= U64_MAX
    ensures AfterDebitReads(p, t) == Done(Failed(
      Pipeline.InsufficientCredits(p.req.cost, t.accounts[t.keys[p.req.hash].accountId], Some(0))))
  {
  }

  /** How a request begins: a free invoke goes straight to the guest, a credit is checked before the first store call,
      and everything else starts with a store call. */
  lemma BeginsExactly(s: Settler, req: Request, now: u64)
    ensures var pc := FirstPc(s, req, now);
            match req
            case Invoke(_, cost) => pc == if cost == 0 then Uncharged else Start
            case Credit(_, invokes, header) =>
              if invokes == 0 then pc == Done(Failed(Pipeline.BadRequest))
              else if header.NoHeader? then
                pc == if invokes * s.usdcPerInvoke <= U64_MAX
                      then Done(Failed(Pipeline.PaymentChallenge(invokes * s.usdcPerInvoke)))
                      else Done(Failed(Pipeline.BadRequest))
              else
                var checked := PaymentNonce(s, invokes, header.decoded, now);
                if checked.Ok? then pc == Start
                else pc == Done(Failed(if checked.error.Settle? then Pipeline.Storage else Pipeline.BadRequest))
            case _ => pc == Start
  {
  }

  /** The reads of a credit: a known nonce is answered with the balance, a new one goes on to the facilitator. */
  lemma CreditReadsExactly(t: Tables, p: Proc, pick: Option<SecretHash>)
    requires p.req.Credit? && p.req.header.Header? && p.req.header.decoded.Ok?
    ensures var account, nonce := p.req.account, p.req.header.decoded.value.nonce; var pc := AfterRead(p, t, pick);
            match p.pc
            case Start => pc == if nonce in t.receipts then Replayed else Unsettled
            case Replayed => IsBalanceAnswer(t, account, pc)
            case CreditRefused(n, k) =>
              pc == if n in t.receipts then AlreadyCredited(n, k) else Done(Failed(Pipeline.NotFound))
            case Committed(n, k) =>
              if Unreadable(t, account) then IsRetry(n, k, pc) else IsBalanceAnswer(t, account, pc)
            case AlreadyCredited(n, k) =>
              if Unreadable(t, account) then IsRetry(n, k, pc) else IsBalanceAnswer(t, account, pc)
            case _ => true
  {
  }

  predicate Unreadable(t: Tables, account: AccountId) { account in t.accounts && t.accounts[account] > U64_MAX }

  predicate IsBalanceAnswer(t: Tables, account: AccountId, pc: Pc) {
    if account !in t.accounts then pc == Done(Failed(Pipeline.NotFound))
    else if t.accounts[account] > U64_MAX then pc == Done(Failed(Pipeline.Storage))
    else pc == Done(Credited(t.accounts[account]))
  }

  /** Two attempts may follow the first. */
  predicate IsRetry(nonce: Nonce, attempt: nat, pc: Pc) {
    pc == if attempt < 3 then Settled(nonce, attempt + 1) else Done(Failed(Pipeline.Storage))
  }

  /** After settling: the first attempt, with the nonce of the payment, exactly if the payment settles. */
  lemma SettlesExactly(s: Settler, p: Proc, now: u64, facilitator: Result<(), PaymentError>)
    requires p.req.Credit? && p.req.header.Header?
    ensures var r := SettlePayment(s, p.req.invokes, p.req.header.decoded, now, facilitator);
            AfterSettle(s, p, now, facilitator)
            == if r.Ok? then Settled(r.value, 1)
               else Done(Failed(if r.error.Settle? then Pipeline.Storage else Pipeline.BadRequest))
  {
    hide SettlePayment;
  }

  /** The reads of a revocation behind the first: the key that the index offers is revoked, none is "not found", and the
      balance must be the same before and after. */
  lemma RevokeReadsExactly(t: Tables, p: Proc, pick: Option<SecretHash>)
    requires p.req.Revoke?
    ensures var account := p.req.account; var pc := AfterRead(p, t, pick);
            var balance := if account in t.accounts then Some(t.accounts[account]) else None;
            match p.pc
            case Authorized =>
              pc == if Unreadable(t, account) then Done(Failed(Pipeline.Storage)) else BalanceBefore(balance)
            case BalanceBefore(before) =>
              pc == if pick.Some? then Found(pick.value, before) else Done(Failed(Pipeline.NotFound))
            case BalanceAfter(before) =>
              pc == if !Unreadable(t, account) && before == balance then Done(Succeeded)
                    else Done(Failed(Pipeline.Storage))
            case _ => true
  {
  }

  /** A failed read is a storage error, except behind a credit transaction, where it is one more attempt while there is
      one. */
  lemma ReadFaultsExactly(p: Proc)
    requires Reads(p)
    ensures var pc := AfterReadFault(p);
            match p.pc
            case Committed(n, k) => IsRetry(n, k, pc)
            case CreditRefused(n, k) => IsRetry(n, k, pc)
            case AlreadyCredited(n, k) => IsRetry(n, k, pc)
            case _ => pc == Done(Failed(Pipeline.Storage))
  {
  }

  /** The answers to writes: a commit goes on or succeeds; a refused debit reads again, a refused credit looks for its
      receipt, a lost credit is retried, and everything else is a storage error. */
  lemma WritesAnswerExactly(p: Proc, fate: Fate)
    requires Writes(p)
    ensures var pc := AfterWrite(p, fate);
            match p.pc
            case Admitted(key) =>
              if fate.Commits? then pc == Charged(DebitReceipt(p.req.hash, key.accountId, p.req.cost, key.capped))
              else if fate.Refused? then pc == DebitRefused
              else pc == Done(Failed(Pipeline.Storage))
            case Refunding(_, cause) => pc == Done(Failed(if fate.Commits? then cause else Pipeline.Storage))
            case Found(_, before) =>
              pc == if fate.Commits? then BalanceAfter(before) else Done(Failed(Pipeline.Storage))
            case Settled(n, k) =>
              if fate.Commits? then pc == Committed(n, k)
              else if fate.Refused? then pc == CreditRefused(n, k)
              else IsRetry(n, k, pc)
            case _ => pc == if fate.Commits? then Done(Succeeded) else Done(Failed(Pipeline.Storage))
  {
  }

  /** Nothing is ruled out: any version may be read, any read may fail, any write may be refused or lose its answer, and
      it may go through exactly if its conditions hold. */
  lemma NothingIsRuledOut(s: State, id: ReqId, k: nat)
    requires s.history != [] && id in s.procs && k < |s.history|
    ensures Reads(s.procs[id]) ==>
      Enabled(s, ReadFault(id)) && (!s.procs[id].req.Revoke? ==> Enabled(s, Read(id, k, None)))
    ensures Writes(s.procs[id]) ==>
      && Enabled(s, Write(id, Refused)) && Enabled(s, Write(id, Lost(false)))
      && (Enabled(s, Write(id, Commits)) <==> Attempt(s.procs[id], Now(s)).Some?)
      && (Enabled(s, Write(id, Lost(true))) <==> Attempt(s.procs[id], Now(s)).Some?)
  {
    hide Attempt;
  }
}

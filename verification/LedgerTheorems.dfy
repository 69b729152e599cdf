/** What the ledger protocol guarantees, in every run. */
module LedgerTheorems {
  import opened Wrappers
  import opened Results
  import opened Ledger
  import opened LedgerProtocol
  import opened LedgerInvariant
  import opened LedgerPreservation
  import opened Payments
  import opened Sums
  import opened Text

  // ----- Conservation ----------------------------------------------------------------------------

  /** No credit appears or vanishes: what an account holds plus what was debited from it is what was refunded to it
      plus the invokes on the receipts that name it. */
  lemma Conservation(settler: Settler, run: seq<Event>, a: AccountId)
    requires Play(settler, run).Some?
    ensures var s := Play(settler, run).value;
            Balance(Now(s), a) + Sum(s.debits, DebitedFrom(a))
            == Sum(s.debits, RefundedTo(a)) + Sum(Now(s).receipts, CreditedTo(a))
  {
    Reachable(settler, run);
    var s := Play(settler, run).value;
    assert MoneyBalances(Now(s), s.debits, a);
  }

  /** What is left of a spend cap plus what was debited through the key is what came back plus the cap it was issued
      with, so the net spend never exceeds the cap; no credit refills it. */
  lemma CapConservation(settler: Settler, run: seq<Event>, h: SecretHash)
    requires Play(settler, run).Some?
    requires h in Now(Play(settler, run).value).keys && Now(Play(settler, run).value).keys[h].capped
    ensures var s := Play(settler, run).value; var row := Now(s).keys[h];
            && row.capRemaining.Some? && h in s.issued
            && row.capRemaining.value + Sum(s.debits, SpentOn(h)) == Sum(s.debits, ReturnedTo(h)) + s.issued[h]
            && Sum(s.debits, SpentOn(h)) <= Sum(s.debits, ReturnedTo(h)) + s.issued[h]
  {
    Reachable(settler, run);
    var s := Play(settler, run).value;
    assert CapBalances(Now(s), s.debits, s.issued, h);
  }

  // ----- Charge follows execution ------------------------------------------------------------------

  /** An applied debit is refunded at most once, and only if its request never entered the guest. */
  lemma RefundedOnceAndNeverRun(settler: Settler, run: seq<Event>, id: ReqId)
    requires Play(settler, run).Some? && id in Play(settler, run).value.debits
    ensures var s := Play(settler, run).value;
            s.debits[id].refunds <= 1 && (s.debits[id].refunds == 1 ==> id !in s.entered && !s.debits[id].ranGuest)
  {
    Reachable(settler, run);
    assert DebitOk(Play(settler, run).value, id);
  }

  /** A paid request that entered the guest has paid: its debit is applied, through its key, at its cost, and kept. */
  lemma GuestRunsArePaid(settler: Settler, run: seq<Event>, id: ReqId)
    requires Play(settler, run).Some? && id in Play(settler, run).value.entered
    ensures var s := Play(settler, run).value;
            && id in s.procs && s.procs[id].req.Invoke?
            && (s.procs[id].req.cost > 0 ==>
                id in s.debits && s.debits[id].refunds == 0 && s.debits[id].ranGuest
                && s.debits[id].hash == s.procs[id].req.hash && s.debits[id].cost == s.procs[id].req.cost)
  {
    Reachable(settler, run);
    var s := Play(settler, run).value;
    if s.procs[id].req.cost > 0 { assert DebitOk(s, id); }
  }

  /** For every account, the cost of its billed guest runs plus its balance never exceeds its credits. */
  lemma BilledRunsAreCovered(settler: Settler, run: seq<Event>, a: AccountId)
    requires Play(settler, run).Some?
    ensures var s := Play(settler, run).value;
            Sum(s.debits, BilledTo(a)) + Balance(Now(s), a) <= Sum(Now(s).receipts, CreditedTo(a))
  {
    hide Play;
    Conservation(settler, run, a);
    var s := Play(settler, run).value;
    forall id <- s.debits
      ensures BilledTo(a)(s.debits[id]) + RefundedTo(a)(s.debits[id]) <= DebitedFrom(a)(s.debits[id])
    {
      RefundedOnceAndNeverRun(settler, run, id);
    }
    SumOrder(s.debits, BilledTo(a), RefundedTo(a), DebitedFrom(a));
  }

  /** A request that is told "unauthorized" or "insufficient credits" was not debited, and its guest did not run. */
  lemma DeniedDebitsAreNotApplied(settler: Settler, run: seq<Event>, id: ReqId)
    requires Play(settler, run).Some? && id in Play(settler, run).value.procs
    requires var p := Play(settler, run).value.procs[id];
             p.req.Invoke? && p.pc.Done? && p.pc.outcome.Failed?
             && (p.pc.outcome.error.Unauthorized? || p.pc.outcome.error.InsufficientCredits?)
    ensures id !in Play(settler, run).value.debits
    ensures Play(settler, run).value.procs[id].req.cost > 0 ==> id !in Play(settler, run).value.entered
  {
    Reachable(settler, run);
    var s := Play(settler, run).value;
    assert PcOk(s, id, s.procs[id]);
    if id in s.entered { GuestRunsArePaid(settler, run, id); }
  }

  // ----- The atomic ledger -----------------------------------------------------------------------------

  /** Only an applied write changes the tables. */
  lemma OnlyWritesChangeTables(s: State, e: Event)
    requires s.history != [] && Enabled(s, e) && !(e.Write? && Applies(e.fate))
    ensures Now(Step(s, e)) == Now(s)
  {
  }

  /** Whatever else is going on, a debit that is applied, even one whose answer is lost, changes the tables exactly as
      the atomic ledger's debit would at that moment, and the receipt of a committed one is the atomic one. */
  lemma AppliedDebitRefinesAtomicDebit(settler: Settler, run: seq<Event>, id: ReqId, fate: Fate)
    requires Play(settler, run).Some? && Enabled(Play(settler, run).value, Write(id, fate)) && Applies(fate)
    requires Play(settler, run).value.procs[id].pc.Admitted?
    ensures var s := Play(settler, run).value; var p := s.procs[id]; var later := Step(s, Write(id, fate));
            && p.req.Invoke?
            && MemDebit(View(Now(s)), p.req.hash, p.req.cost) == (View(Now(later)), Ok(ReceiptFor(p)))
            && (fate.Commits? ==> later.procs[id].pc == Charged(ReceiptFor(p)))
  {
    hide MoneyOk, CapsOk, ReceiptsOk, SettlementsOk, EnteredOk, DebitsOk, MemDebit, DebitTx;
    Reachable(settler, run);
    var s := Play(settler, run).value;
    var p := s.procs[id];
    assert PcOk(s, id, p);
    CommittedDebitIsAtomic(Now(s), p.req.hash, p.req.cost, p.pc.key.accountId, p.pc.key.capped);
  }

  /** A refund of a receipt that is still out is always admissible, in every reachable state: no revocation and no
      other request can have made its conditions fail. And it is the refund of the atomic ledger. */
  lemma GenuineRefundIsAdmissible(settler: Settler, run: seq<Event>, id: ReqId, r: DebitReceipt)
    requires Play(settler, run).Some? && Outstanding(Play(settler, run).value, id, r)
    ensures var t := Now(Play(settler, run).value);
            RefundTx(t, r).Some? && MemRefund(View(t), r) == (View(RefundTx(t, r).value), Ok(()))
  {
    hide MoneyOk, CapsOk, ReceiptsOk, SettlementsOk, EnteredOk, ProcsOk, MemRefund;
    Reachable(settler, run);
    var s := Play(settler, run).value;
    assert DebitOk(s, id);
    RefundIsAtomicExactly(Now(s), r);
  }

  /** In every reachable state each request that holds a receipt holds a genuine one. */
  lemma ReceiptsInHandAreOutstanding(settler: Settler, run: seq<Event>, id: ReqId)
    requires Play(settler, run).Some? && id in Play(settler, run).value.procs
    ensures var s := Play(settler, run).value;
            && (s.procs[id].pc.Charged? ==> Outstanding(s, id, s.procs[id].pc.receipt))
            && (s.procs[id].pc.Refunding? ==> Outstanding(s, id, s.procs[id].pc.receipt))
  {
    Reachable(settler, run);
    assert PcOk(Play(settler, run).value, id, Play(settler, run).value.procs[id]);
  }

  /** Rows are never lost: keys keep their account, kind and revocation, receipts never change, and every key has its
      account, between any two versions of the tables. */
  lemma RowsAreStable(settler: Settler, run: seq<Event>, k: nat)
    requires Play(settler, run).Some? && k < |Play(settler, run).value.history|
    ensures var s := Play(settler, run).value; Grows(s.history[k], Now(s)) && RowsOk(s.history[k])
  {
    hide Play, Grows, RowsOk, MoneyOk, CapsOk, ProcsOk, DebitsOk, EnteredOk, ReceiptsOk, SettlementsOk;
    Reachable(settler, run);
  }

  // ----- Credits --------------------------------------------------------------------------------------------

  /** Every receipt was paid for: the facilitator settled a payment for the same account, nonce and invokes, and its
      authorised value is their price, without overflow. */
  lemma ReceiptsArePaidFor(settler: Settler, run: seq<Event>, n: Nonce)
    requires Play(settler, run).Some? && n in Now(Play(settler, run).value).receipts
    ensures var s := Play(settler, run).value; var r := Now(s).receipts[n];
            r.invokes * settler.usdcPerInvoke <= U64_MAX &&
            exists id :: id in s.settled
              && s.settled[id] == Settlement(r.accountId, n, r.invokes, r.invokes * settler.usdcPerInvoke)
  {
    Reachable(settler, run);
    SettlerIsFixed(settler, run);
    var s := Play(settler, run).value;
    assert Paid(s.settled, s.settler.usdcPerInvoke, n, Now(s).receipts[n]);
  }

  lemma {:induction false} SettlerIsFixed(settler: Settler, run: seq<Event>)
    requires Play(settler, run).Some?
    ensures Play(settler, run).value.settler == settler
    decreases |run|
  {
    hide Step, Enabled;
    if run != [] { SettlerIsFixed(settler, run[..|run| - 1]); }
  }

  /** A credit request reports a balance only when a receipt for its nonce is in the tables. */
  lemma CreditedMeansReceipt(settler: Settler, run: seq<Event>, id: ReqId)
    requires Play(settler, run).Some? && id in Play(settler, run).value.procs
    requires Play(settler, run).value.procs[id].pc.Done? && Play(settler, run).value.procs[id].pc.outcome.Credited?
    ensures ReadNonce(Play(settler, run).value.procs[id].req) in Now(Play(settler, run).value).receipts
  {
    Reachable(settler, run);
    assert PcOk(Play(settler, run).value, id, Play(settler, run).value.procs[id]);
  }

  lemma Extend(settler: Settler, run: seq<Event>, e: Event) returns (longer: seq<Event>)
    requires Play(settler, run).Some? && Enabled(Play(settler, run).value, e)
    ensures longer == run + [e] && Play(settler, longer) == Some(Step(Play(settler, run).value, e))
  {
    longer := run + [e];
    assert longer[..|run|] == run;
  }

  lemma PlayNothing(settler: Settler)
    ensures Play(settler, []) == Some(Initial(settler))
  {
  }

  /** The payment of one invoke that every settler takes. */
  function OneInvoke(settler: Settler): ExactAuthorization {
    ExactAuthorization(settler.usdcPerInvoke, settler.asset, settler.payTo, 1, "n")
  }

  lemma OneInvokeIsPayable(settler: Settler)
    ensures PaymentNonce(settler, 1, Ok(OneInvoke(settler)), 0) == Ok("n")
    ensures SettlePayment(settler, 1, Ok(OneInvoke(settler)), 0, Ok(())) == Ok("n")
  {
    assert !IsWhitespace("n"[0]);
    assert Trim("n") == "n";
  }

  /** Requests 0 and 1 open accounts 1 and 2. */
  lemma TwoAccounts(settler: Settler) returns (run: seq<Event>)
    ensures Play(settler, run).Some?
    ensures var s := Play(settler, run).value;
            && s.settler == settler && s.entered == {} && s.debits == map[]
            && s.procs.Keys == {0, 1} && |s.history| == 3
            && Now(s).accounts == map[1 := 0, 2 := 0] && Now(s).receipts == map[]
            && 10 in Now(s).keys && Now(s).keys[10] == NewKey(10, 1, 0, None)
  {
    hide Play;
    run := [];
    PlayNothing(settler);
    run := Extend(settler, run, Begin(0, Create(1, 10, 0), 0));
    run := Extend(settler, run, Write(0, Commits));
    run := Extend(settler, run, Begin(1, Create(2, 20, 0), 0));
    run := Extend(settler, run, Write(1, Commits));
  }

  /** Request 2 settles the payment of one invoke for account 1. */
  lemma OneSettlement(settler: Settler) returns (run: seq<Event>)
    ensures Play(settler, run).Some?
    ensures var s := Play(settler, run).value;
            && s.settler == settler && s.entered == {} && s.debits == map[]
            && s.procs.Keys == {0, 1, 2} && |s.history| == 3
            && s.procs[2] == Proc(Request.Credit(1, 1, Header(Ok(OneInvoke(settler)))), Settled("n", 1))
            && Now(s).accounts == map[1 := 0, 2 := 0] && Now(s).receipts == map[]
            && 10 in Now(s).keys && Now(s).keys[10] == NewKey(10, 1, 0, None)
  {
    hide Play, PaymentNonce, SettlePayment;
    OneInvokeIsPayable(settler);
    run := TwoAccounts(settler);
    run := Extend(settler, run, Begin(2, Request.Credit(1, 1, Header(Ok(OneInvoke(settler)))), 0));
    run := Extend(settler, run, Read(2, 2, None));
    run := Extend(settler, run, Event.Settle(2, 0, Ok(())));
  }

  /** And credits it. */
  lemma OnePayment(settler: Settler) returns (run: seq<Event>)
    ensures Play(settler, run).Some?
    ensures var s := Play(settler, run).value;
            && s.settler == settler && s.entered == {} && s.debits == map[]
            && s.procs.Keys == {0, 1, 2} && |s.history| == 4
            && Now(s).accounts == map[1 := 1, 2 := 0] && Now(s).receipts == map["n" := Receipt(1, 1)]
            && 10 in Now(s).keys && Now(s).keys[10] == NewKey(10, 1, 0, None)
  {
    hide Play;
    run := OneSettlement(settler);
    run := Extend(settler, run, Write(2, Commits));
  }

  /** The account behind a receipt is not checked: account 1 pays, and a request of account 2 with the same payment is
      told that it has been credited, although the receipt names account 1 and the balance of account 2 is zero. */
  lemma CreditAnswersForAnotherAccount(settler: Settler) returns (run: seq<Event>)
    ensures Play(settler, run).Some?
    ensures var s := Play(settler, run).value;
            && 3 in s.procs && s.procs[3].req.Credit? && s.procs[3].req.account == 2
            && s.procs[3].pc == Done(Credited(0)) && ReadNonce(s.procs[3].req) == "n"
            && Now(s).receipts == map["n" := Receipt(1, 1)] && Now(s).accounts == map[1 := 1, 2 := 0]
  {
    hide Play, PaymentNonce, SettlePayment;
    OneInvokeIsPayable(settler);
    run := OnePayment(settler);
    run := Extend(settler, run, Begin(3, Request.Credit(2, 1, Header(Ok(OneInvoke(settler)))), 0));
    run := Extend(settler, run, Read(3, 3, None));
    run := Extend(settler, run, Read(3, 3, None));
  }

  /** Does event `e` raise a balance on behalf of nonce `n`? */
  ghost predicate AppliesCredit(s: State, e: Event, n: Nonce)
    requires s.history != [] && Enabled(s, e)
  {
    e.Write? && Applies(e.fate) && s.procs[e.id].req.Credit? && s.procs[e.id].pc.nonce == n
  }

  /** How many writes of a run raise a balance on behalf of `n`. */
  ghost function CreditsApplied(settler: Settler, run: seq<Event>, n: Nonce): nat
    requires Play(settler, run).Some?
  {
    if run == [] then 0
    else
      var before := run[..|run| - 1];
      var raises := AppliesCredit(Play(settler, before).value, run[|run| - 1], n);
      CreditsApplied(settler, before, n) + if raises then 1 else 0
  }

  /** Across any requests, retries and lost answers a nonce raises a balance at most once: exactly once if its
      receipt is there, and never otherwise. */
  lemma {:induction false} OneCreditPerNonce(settler: Settler, run: seq<Event>, n: Nonce)
    requires Play(settler, run).Some?
    ensures CreditsApplied(settler, run, n) == if n in Now(Play(settler, run).value).receipts then 1 else 0
    decreases |run|
  {
    if run != [] {
      var before := run[..|run| - 1];
      OneCreditPerNonce(settler, before, n);
      ReceiptsChange(Play(settler, before).value, run[|run| - 1], n);
    }
  }

  lemma ReceiptsChange(s: State, e: Event, n: Nonce)
    requires s.history != [] && Enabled(s, e)
    ensures n in Now(Step(s, e)).receipts <==> n in Now(s).receipts || AppliesCredit(s, e, n)
    ensures AppliesCredit(s, e, n) ==> n !in Now(s).receipts
  {
    if !(e.Write? && Applies(e.fate)) { OnlyWritesChangeTables(s, e); }
  }

  /** How many credit transactions request `id` has sent. */
  ghost function CreditCalls(settler: Settler, run: seq<Event>, id: ReqId): nat
    requires Play(settler, run).Some?
  {
    if run == [] then 0
    else
      var before, e := run[..|run| - 1], run[|run| - 1];
      CreditCalls(settler, before, id) +
      if e.Write? && e.id == id && Play(settler, before).value.procs[id].req.Credit? then 1 else 0
  }

  /** The attempts a program counter stands for. */
  function AttemptsSoFar(pc: Pc): nat {
    match pc
    case Settled(_, k) => if k == 0 then 0 else k - 1
    case Committed(_, k) => k
    case CreditRefused(_, k) => k
    case AlreadyCredited(_, k) => k
    case _ => 0
  }

  /** The retry loop sends at most three transactions, and its counter counts them. */
  lemma {:induction false} AtMostThreeAttempts(settler: Settler, run: seq<Event>, id: ReqId)
    requires Play(settler, run).Some?
    ensures CreditCalls(settler, run, id) <= CREDIT_ATTEMPTS
    ensures var s := Play(settler, run).value;
            if id in s.procs && s.procs[id].req.Credit? then
              s.procs[id].pc.Done? || CreditCalls(settler, run, id) == AttemptsSoFar(s.procs[id].pc)
            else CreditCalls(settler, run, id) == 0
    decreases |run|
  {
    if run != [] {
      var before := run[..|run| - 1];
      AtMostThreeAttempts(settler, before, id);
      Reachable(settler, before);
      var s := Play(settler, before).value;
      AttemptsStep(s, run[|run| - 1], id);
    }
  }

  /** `sent` tells whether the step is a credit transaction of `id`. */
  ghost predicate CountsAttempts(before: Pc, after: Pc, sent: bool) {
    && (before.Done? ==> after.Done? && !sent)
    && (sent ==> AttemptsSoFar(before) < CREDIT_ATTEMPTS)
    && (after.Done? || AttemptsSoFar(after) == AttemptsSoFar(before) + if sent then 1 else 0)
  }

  lemma AttemptsStep(s: State, e: Event, id: ReqId)
    requires Inv(s) && Enabled(s, e)
    ensures var later := Step(s, e); var sent := e.Write? && e.id == id && s.procs[id].req.Credit?;
            && (id in s.procs ==> id in later.procs && later.procs[id].req == s.procs[id].req)
            && (id !in s.procs && id in later.procs && later.procs[id].req.Credit? ==>
                  later.procs[id].pc.Done? || AttemptsSoFar(later.procs[id].pc) == 0)
            && (id in s.procs && s.procs[id].req.Credit? ==> CountsAttempts(s.procs[id].pc, later.procs[id].pc, sent))
  {
    hide Inv, Attempt, PcOk, AfterRead, AfterReadFault, AfterRun, AfterSettle, AfterWrite, ApplyWrite;
    if id in s.procs && s.procs[id].req.Credit? {
      HoldsBefore(s, id);
      AttemptsOfPc(s, id, s.procs[id]);
      if !s.procs[id].pc.Done? { ReadAttempts(s.procs[id]); }
    }
  }

  /** A credit request only stands at counters of the credit protocol, with a legal attempt number. */
  ghost predicate CreditPc(p: Proc) {
    p.req.Credit? &&
    match p.pc
    case Start => true
    case Replayed => true
    case Unsettled => p.req.header.Header?
    case Settled(_, k) => 1 <= k <= CREDIT_ATTEMPTS
    case Committed(_, k) => 1 <= k <= CREDIT_ATTEMPTS
    case CreditRefused(_, k) => 1 <= k <= CREDIT_ATTEMPTS
    case AlreadyCredited(_, k) => 1 <= k <= CREDIT_ATTEMPTS
    case _ => false
  }

  lemma AttemptsOfPc(s: State, id: ReqId, p: Proc)
    requires s.history != [] && PcOk(s, id, p) && p.req.Credit?
    ensures p.pc.Done? || CreditPc(p)
  {
  }

  lemma ReadAttempts(p: Proc)
    requires CreditPc(p)
    ensures forall t, pick :: Reads(p) ==> CountsAttempts(p.pc, AfterRead(p, t, pick), false)
    ensures Reads(p) ==> CountsAttempts(p.pc, AfterReadFault(p), false)
    ensures forall fate :: Writes(p) ==> CountsAttempts(p.pc, AfterWrite(p, fate), true)
    ensures forall settler, now, facilitator :: p.pc.Unsettled? ==>
      CountsAttempts(p.pc, AfterSettle(settler, p, now, facilitator), false)
  {
    hide SettlePayment;
  }
}

/** Every enabled step keeps the invariant. */
module LedgerPreservation {
  import opened Wrappers
  import opened Results
  import opened Ledger
  import opened LedgerProtocol
  import opened LedgerInvariant
  import opened Payments
  import opened Sums

  // ----- Tables ------------------------------------------------------------------------------

  /** What the writer has to know for its write to keep the rows in order. */
  ghost predicate WriterOk(p: Proc, t: Tables) {
    Writes(p) && (p.req.IssueKey? ==> p.req.account in t.accounts)
  }

  lemma DebitGrows(t: Tables, account: AccountId, hash: SecretHash, cost: u64, capped: bool)
    requires RowsOk(t) && DebitTx(t, account, hash, cost, capped).Some?
    ensures RowsOk(DebitTx(t, account, hash, cost, capped).value)
    ensures Grows(t, DebitTx(t, account, hash, cost, capped).value)
  {
  }

  lemma RefundGrows(t: Tables, r: DebitReceipt)
    requires RowsOk(t) && RefundTx(t, r).Some?
    ensures RowsOk(RefundTx(t, r).value) && Grows(t, RefundTx(t, r).value)
  {
  }

  lemma WriteGrows(p: Proc, t: Tables)
    requires WriterOk(p, t) && RowsOk(t) && Attempt(p, t).Some?
    ensures RowsOk(Attempt(p, t).value) && Grows(t, Attempt(p, t).value)
  {
    hide DebitTx, RefundTx;
    if p.req.Invoke? {
      if p.pc.Admitted? {
        DebitGrows(t, p.pc.key.accountId, p.req.hash, p.req.cost, p.pc.key.capped);
      } else {
        RefundGrows(t, p.pc.receipt);
      }
    }
  }

  lemma HistoryExtends(s: State, later: State, t: Tables)
    requires HistoryOk(s) && RowsOk(t) && Grows(Now(s), t) && later.history == s.history + [t]
    ensures HistoryOk(later) && Now(later) == t
  {
    forall k | 0 <= k < |s.history| ensures Grows(s.history[k], t) { GrowsTransitively(s.history[k], Now(s), t); }
  }

  lemma GrowsTransitively(a: Tables, b: Tables, c: Tables)
    requires Grows(a, b) && Grows(b, c)
    ensures Grows(a, c)
  {
  }

  // ----- Money and caps ------------------------------------------------------------------------

  lemma DebitMoney(t: Tables, debits: map<ReqId, Debit>, id: ReqId, d: Debit, a: AccountId)
    requires MoneyBalances(t, debits, a) && id !in debits && d.refunds == 0
    requires DebitTx(t, d.account, d.hash, d.cost, d.capped).Some?
    ensures MoneyBalances(DebitTx(t, d.account, d.hash, d.cost, d.capped).value, debits[id := d], a)
  {
    SumInsert(debits, DebitedFrom(a), id, d);
    SumInsert(debits, RefundedTo(a), id, d);
  }

  lemma DebitCap(t: Tables, debits: map<ReqId, Debit>, issued: map<SecretHash, nat>, id: ReqId, d: Debit, h: SecretHash)
    requires CapBalances(t, debits, issued, h) && id !in debits && d.refunds == 0
    requires DebitTx(t, d.account, d.hash, d.cost, d.capped).Some?
    ensures CapBalances(DebitTx(t, d.account, d.hash, d.cost, d.capped).value, debits[id := d], issued, h)
  {
    SumInsert(debits, SpentOn(h), id, d);
    SumInsert(debits, ReturnedTo(h), id, d);
  }

  function ReceiptOf(d: Debit): DebitReceipt { DebitReceipt(d.hash, d.account, d.cost, d.capped) }

  lemma RefundMoney(t: Tables, debits: map<ReqId, Debit>, id: ReqId, a: AccountId)
    requires MoneyBalances(t, debits, a) && id in debits && debits[id].refunds == 0
    requires RefundTx(t, ReceiptOf(debits[id])).Some?
    ensures MoneyBalances(RefundTx(t, ReceiptOf(debits[id])).value, debits[id := debits[id].(refunds := 1)], a)
  {
    SumUpdate(debits, DebitedFrom(a), id, debits[id].(refunds := 1));
    SumUpdate(debits, RefundedTo(a), id, debits[id].(refunds := 1));
  }

  lemma RefundCap(t: Tables, debits: map<ReqId, Debit>, issued: map<SecretHash, nat>, id: ReqId, h: SecretHash)
    requires CapBalances(t, debits, issued, h) && id in debits && debits[id].refunds == 0
    requires RefundTx(t, ReceiptOf(debits[id])).Some?
    ensures CapBalances(RefundTx(t, ReceiptOf(debits[id])).value, debits[id := debits[id].(refunds := 1)], issued, h)
  {
    SumUpdate(debits, SpentOn(h), id, debits[id].(refunds := 1));
    SumUpdate(debits, ReturnedTo(h), id, debits[id].(refunds := 1));
  }

  lemma CreditMoney(t: Tables, debits: map<ReqId, Debit>, account: AccountId, invokes: nat, nonce: Nonce, a: AccountId)
    requires MoneyBalances(t, debits, a) && CreditTx(t, account, invokes, nonce).Some?
    ensures MoneyBalances(CreditTx(t, account, invokes, nonce).value, debits, a)
  {
    SumInsert(t.receipts, CreditedTo(a), nonce, Receipt(account, invokes));
  }

  /** Marking that the guest ran changes neither side. */
  lemma RunMoney(t: Tables, debits: map<ReqId, Debit>, id: ReqId, a: AccountId)
    requires MoneyBalances(t, debits, a) && id in debits
    ensures MoneyBalances(t, debits[id := debits[id].(ranGuest := true)], a)
  {
    SumUpdate(debits, DebitedFrom(a), id, debits[id].(ranGuest := true));
    SumUpdate(debits, RefundedTo(a), id, debits[id].(ranGuest := true));
  }

  lemma RunCap(t: Tables, debits: map<ReqId, Debit>, issued: map<SecretHash, nat>, id: ReqId, h: SecretHash)
    requires CapBalances(t, debits, issued, h) && id in debits
    ensures CapBalances(t, debits[id := debits[id].(ranGuest := true)], issued, h)
  {
    SumUpdate(debits, SpentOn(h), id, debits[id].(ranGuest := true));
    SumUpdate(debits, ReturnedTo(h), id, debits[id].(ranGuest := true));
  }

  /** No debit goes through a key that is not in the tables yet. */
  lemma {:induction false} UnusedKey(debits: map<ReqId, Debit>, h: SecretHash)
    requires forall id <- debits :: debits[id].hash != h
    ensures Sum(debits, SpentOn(h)) == 0 && Sum(debits, ReturnedTo(h)) == 0
    decreases |debits|
  {
    if debits != map[] {
      var id :| id in debits;
      SumSplit(debits, SpentOn(h), id);
      SumSplit(debits, ReturnedTo(h), id);
      UnusedKey(debits - {id}, h);
    }
  }

  // ----- Steps that move one program counter ------------------------------------------------------

  lemma MoveKeeps(s: State, id: ReqId, pc: Pc)
    requires Inv(s) && id in s.procs && PcOk(s, id, s.procs[id].(pc := pc))
    ensures Inv(Move(s, id, pc))
  {
    hide MoneyOk, CapsOk, Grows, RowsOk, ReceiptsOk, SettlementsOk, PcOk;
    var later := Move(s, id, pc);
    forall o <- later.procs ensures PcOk(later, o, later.procs[o]) { PcOkAgrees(s, later, o, later.procs[o]); }
    forall o <- later.debits ensures DebitOk(later, o) { assert DebitOk(s, o); }
  }

  /** `PcOk` does not depend on the other program counters. */
  lemma PcOkAgrees(s: State, later: State, o: ReqId, p: Proc)
    requires s.history != [] && PcOk(s, o, p)
    requires later.history == s.history && later.debits == s.debits && later.settled == s.settled
    requires later.settler == s.settler && later.entered == s.entered
    ensures PcOk(later, o, p)
  {
  }

  lemma BeginsWithoutDebit(s: State, id: ReqId)
    requires Inv(s) && id !in s.procs
    ensures id !in s.debits
  {
  }

  lemma FirstPcOk(s: State, id: ReqId, req: Request, now: u64)
    requires s.history != [] && id !in s.debits && id !in s.settled
    ensures PcOk(s, id, Proc(req, FirstPc(s.settler, req, now)))
  {
  }

  lemma BeginKeeps(s: State, id: ReqId, req: Request, now: u64)
    requires Inv(s) && Enabled(s, Begin(id, req, now))
    ensures Inv(Step(s, Begin(id, req, now)))
  {
    hide MoneyOk, CapsOk, Grows, RowsOk, ReceiptsOk, SettlementsOk, PcOk, FirstPc;
    var later := Step(s, Begin(id, req, now));
    BeginsWithoutDebit(s, id);
    FirstPcOk(s, id, req, now);
    forall o <- later.procs ensures PcOk(later, o, later.procs[o]) { PcOkAgrees(s, later, o, later.procs[o]); }
    forall o <- later.debits ensures DebitOk(later, o) { assert DebitOk(s, o); }
  }

  lemma ReadKeeps(s: State, id: ReqId, version: nat, pick: Option<SecretHash>)
    requires Inv(s) && Enabled(s, Read(id, version, pick))
    ensures Inv(Step(s, Read(id, version, pick)))
  {
    var p, t := s.procs[id], s.history[version];
    assert PcOk(s, id, p.(pc := AfterRead(p, t, pick))) by { ReadPcOk(s, id, version, pick); }
    MoveKeeps(s, id, AfterRead(p, t, pick));
  }

  lemma ReadInvokePcOk(s: State, id: ReqId, version: nat, pick: Option<SecretHash>)
    requires HistoryOk(s) && id in s.procs && PcOk(s, id, s.procs[id]) && Reads(s.procs[id]) && version < |s.history|
    requires s.procs[id].req.Invoke?
    ensures PcOk(s, id, s.procs[id].(pc := AfterRead(s.procs[id], s.history[version], pick)))
  {
    assert Grows(s.history[version], Now(s)) && RowsOk(s.history[version]);
  }

  lemma ReadIssuePcOk(s: State, id: ReqId, version: nat, pick: Option<SecretHash>)
    requires HistoryOk(s) && id in s.procs && PcOk(s, id, s.procs[id]) && Reads(s.procs[id]) && version < |s.history|
    requires s.procs[id].req.IssueKey?
    ensures PcOk(s, id, s.procs[id].(pc := AfterRead(s.procs[id], s.history[version], pick)))
  {
    assert Grows(s.history[version], Now(s)) && RowsOk(s.history[version]);
  }

  lemma ReadRevokePcOk(s: State, id: ReqId, version: nat, pick: Option<SecretHash>)
    requires HistoryOk(s) && id in s.procs && PcOk(s, id, s.procs[id]) && Reads(s.procs[id]) && version < |s.history|
    requires s.procs[id].req.Revoke?
    ensures PcOk(s, id, s.procs[id].(pc := AfterRead(s.procs[id], s.history[version], pick)))
  {
    assert Grows(s.history[version], Now(s)) && RowsOk(s.history[version]);
  }

  lemma ReadCreditPcOk(s: State, id: ReqId, version: nat, pick: Option<SecretHash>)
    requires HistoryOk(s) && id in s.procs && PcOk(s, id, s.procs[id]) && Reads(s.procs[id]) && version < |s.history|
    requires s.procs[id].req.Credit?
    ensures PcOk(s, id, s.procs[id].(pc := AfterRead(s.procs[id], s.history[version], pick)))
  {
    hide RowsOk, BalanceOf, AccountById, KeyByHash, AuthorizeAdditionalKey, AdmitDebit, ReadDebitKey, Known;
    assert Grows(s.history[version], Now(s));
  }

  lemma CreateReadsNothing(p: Proc, t: Tables, pick: Option<SecretHash>)
    requires p.req.Create?
    ensures AfterRead(p, t, pick) == p.pc
  {
  }

  lemma ReadPcOk(s: State, id: ReqId, version: nat, pick: Option<SecretHash>)
    requires HistoryOk(s) && id in s.procs && PcOk(s, id, s.procs[id]) && Reads(s.procs[id]) && version < |s.history|
    ensures PcOk(s, id, s.procs[id].(pc := AfterRead(s.procs[id], s.history[version], pick)))
  {
    hide PcOk, HistoryOk, AfterRead;
    match s.procs[id].req {
      case Invoke(_, _) => ReadInvokePcOk(s, id, version, pick);
      case Create(_, _, _) => CreateReadsNothing(s.procs[id], s.history[version], pick);
      case IssueKey(_, _, _, _, _) => ReadIssuePcOk(s, id, version, pick);
      case Revoke(_, _, _) => ReadRevokePcOk(s, id, version, pick);
      case Credit(_, _, _) => ReadCreditPcOk(s, id, version, pick);
    }
  }

  lemma ReadFaultKeeps(s: State, id: ReqId)
    requires Inv(s) && Enabled(s, ReadFault(id))
    ensures Inv(Step(s, ReadFault(id)))
  {
    hide PcOk, MoneyOk, CapsOk, ReceiptsOk, SettlementsOk, DebitsOk, EnteredOk, HistoryOk;
    ReadFaultPcOk(s, id);
    MoveKeeps(s, id, AfterReadFault(s.procs[id]));
  }

  lemma ReadFaultPcOk(s: State, id: ReqId)
    requires s.history != [] && id in s.procs && PcOk(s, id, s.procs[id]) && Reads(s.procs[id])
    ensures PcOk(s, id, s.procs[id].(pc := AfterReadFault(s.procs[id])))
  {
  }

  // ----- Running the guest and settling a payment ---------------------------------------------------

  /** Whatever happens to other requests leaves a program counter in order, as long as tables only grow. */
  lemma PcOkIsStable(s: State, later: State, o: ReqId, p: Proc)
    requires s.history != [] && later.history != [] && Grows(Now(s), Now(later)) && later.settler == s.settler
    requires o in s.debits <==> o in later.debits
    requires o in s.debits ==> later.debits[o] == s.debits[o]
    requires o in s.settled <==> o in later.settled
    requires o in s.settled ==> later.settled[o] == s.settled[o]
    requires o in later.entered <==> o in s.entered
    requires PcOk(s, o, p)
    ensures PcOk(later, o, p)
  {
  }

  /** A step of request `id`: tables only grow, and nothing about other requests changes. */
  ghost predicate Frame(s: State, later: State, id: ReqId) {
    && s.history != [] && later.history != [] && Grows(Now(s), Now(later)) && later.settler == s.settler
    && id in s.procs && later.procs.Keys == s.procs.Keys && later.procs[id].req == s.procs[id].req
    && later.debits.Keys + {id} == s.debits.Keys + {id} && later.settled.Keys + {id} == s.settled.Keys + {id}
    && later.entered + {id} == s.entered + {id}
    && (forall o <- s.procs :: o != id ==> later.procs[o] == s.procs[o])
    && (forall o <- s.debits :: o != id ==> later.debits[o] == s.debits[o])
    && (forall o <- s.settled :: o != id ==> later.settled[o] == s.settled[o])
  }

  /** What `id` itself must have after the step. */
  ghost predicate OwnOk(later: State, id: ReqId)
    requires later.history != [] && id in later.procs
  {
    && PcOk(later, id, later.procs[id])
    && (id in later.debits ==> DebitOk(later, id))
    && (id in later.entered ==> later.procs[id].req.Invoke?)
    && (id in later.entered && later.procs[id].req.cost > 0 ==> id in later.debits && later.debits[id].ranGuest)
  }

  lemma OthersKeep(s: State, later: State, id: ReqId)
    requires Frame(s, later, id) && OwnOk(later, id) && ProcsOk(s) && DebitsOk(s) && EnteredOk(s)
    ensures ProcsOk(later) && DebitsOk(later) && EnteredOk(later)
  {
    hide PcOk;
    forall o <- later.procs ensures PcOk(later, o, later.procs[o]) {
      if o != id {
        assert o in s.debits.Keys + {id} <==> o in later.debits.Keys + {id};
        assert o in s.settled.Keys + {id} <==> o in later.settled.Keys + {id};
        assert o in s.entered + {id} <==> o in later.entered + {id};
        PcOkIsStable(s, later, o, s.procs[o]);
      }
    }
    forall o <- later.debits ensures DebitOk(later, o) {
      if o != id {
        assert o in s.debits.Keys + {id};
        assert DebitOk(s, o);
      }
    }
    forall o <- later.entered | o != id ensures o in s.entered { assert o in s.entered + {id}; }
  }

  lemma GrowsFromItself(s: State)
    requires HistoryOk(s)
    ensures Grows(Now(s), Now(s))
  {
  }

  lemma RunKeeps(s: State, id: ReqId, script: Pipeline.Script)
    requires Inv(s) && Enabled(s, Run(id, script))
    ensures Inv(Step(s, Run(id, script)))
  {
    hide MoneyOk, CapsOk, Grows, RowsOk, ReceiptsOk, SettlementsOk, PcOk, DebitOk, EnteredOk,
         Pipeline.Execute, Pipeline.EnteredGuest;
    var later := Step(s, Run(id, script));
    HoldsBefore(s, id);
    OnlyInvokesRun(s, id);
    RunOwnOk(s, id, script);
    GrowsFromItself(s);
    OthersKeep(s, later, id);
    if id in s.debits { RunMoneyAndCaps(s, id); }
  }

  lemma OnlyInvokesRun(s: State, id: ReqId)
    requires Before(s, id) && (s.procs[id].pc.Charged? || s.procs[id].pc.Uncharged?)
    ensures s.procs[id].req.Invoke?
  {
  }

  lemma RunMoneyAndCaps(s: State, id: ReqId)
    requires Inv(s) && id in s.debits
    ensures MoneyOk(Now(s), s.debits[id := s.debits[id].(ranGuest := true)])
    ensures CapsOk(Now(s), s.debits[id := s.debits[id].(ranGuest := true)], s.issued)
  {
    hide MoneyBalances, CapBalances, ProcsOk, DebitsOk, ReceiptsOk, HistoryOk;
    var debits := s.debits[id := s.debits[id].(ranGuest := true)];
    forall a ensures MoneyBalances(Now(s), debits, a) { RunMoney(Now(s), s.debits, id, a); }
    forall h <- Now(s).keys | Now(s).keys[h].capped ensures CapBalances(Now(s), debits, s.issued, h) {
      RunCap(Now(s), s.debits, s.issued, id, h);
    }
  }

  lemma RunOwnOk(s: State, id: ReqId, script: Pipeline.Script)
    requires Before(s, id) && Enabled(s, Run(id, script)) && s.procs[id].req.Invoke?
    ensures OwnOk(Step(s, Run(id, script)), id)
  {
    hide Pipeline.Execute, Grows;
    ExecuteNeverDenies(script);
    if Pipeline.Execute(script).Err? && Pipeline.FailedBeforeGuest(Pipeline.Execute(script).error) {
      Pipeline.RefundableErrorsPrecedeTheGuest(script);
    }
  }

  lemma ExecuteNeverDenies(script: Pipeline.Script)
    ensures Pipeline.Execute(script).Err? ==>
      !Pipeline.Execute(script).error.Unauthorized? && !Pipeline.Execute(script).error.InsufficientCredits?
  {
  }

  lemma SettleKeeps(s: State, id: ReqId, now: u64, facilitator: Result<(), PaymentError>)
    requires Inv(s) && Enabled(s, Event.Settle(id, now, facilitator))
    ensures Inv(Step(s, Event.Settle(id, now, facilitator)))
  {
    hide MoneyOk, CapsOk, Grows, RowsOk, ReceiptsOk, SettlementsOk, PcOk, DebitOk, EnteredOk, OwnOk, Before,
         SettlePayment;
    var later := Step(s, Event.Settle(id, now, facilitator));
    HoldsBefore(s, id);
    SettleOwnOk(s, id, now, facilitator);
    GrowsFromItself(s);
    OthersKeep(s, later, id);
    SettledReceipts(Now(s), s.settled, later.settled, s.settler.usdcPerInvoke);
  }

  /** Receipts stay paid when settlements are only added. */
  lemma SettledReceipts(t: Tables, settled: map<ReqId, Settlement>, later: map<ReqId, Settlement>, price: nat)
    requires ReceiptsOk(t, settled, price)
    requires forall o <- settled :: o in later && later[o] == settled[o]
    ensures ReceiptsOk(t, later, price)
  {
    forall n <- t.receipts ensures Paid(later, price, n, t.receipts[n]) {
      assert Paid(settled, price, n, t.receipts[n]);
    }
  }

  lemma SettleOwnOk(s: State, id: ReqId, now: u64, facilitator: Result<(), PaymentError>)
    requires Before(s, id) && Enabled(s, Event.Settle(id, now, facilitator)) && id !in s.debits && id !in s.entered
    requires SettlementsOk(s.settled, s.settler.usdcPerInvoke)
    ensures OwnOk(Step(s, Event.Settle(id, now, facilitator)), id) && id !in s.settled
    ensures SettlementsOk(Step(s, Event.Settle(id, now, facilitator)).settled, s.settler.usdcPerInvoke)
  {
    hide SettlePayment;
    var req := s.procs[id].req;
    if SettlePayment(s.settler, req.invokes, req.header.decoded, now, facilitator).Ok? {
      SettledPaysThePrice(s.settler, req.invokes, req.header.decoded, now, facilitator);
    }
  }

  // ----- Writes ---------------------------------------------------------------------------------------

  lemma IdleWriteKeeps(s: State, id: ReqId, fate: Fate)
    requires Inv(s) && Enabled(s, Write(id, fate)) && !Applies(fate)
    ensures Inv(Step(s, Write(id, fate)))
  {
    hide MoneyOk, CapsOk, Grows, RowsOk, ReceiptsOk, SettlementsOk, HistoryOk, Known;
    var p := s.procs[id];
    assert PcOk(s, id, p);
    assert PcOk(s, id, p.(pc := AfterWrite(p, fate)));
    MoveKeeps(s, id, AfterWrite(p, fate));
  }

  lemma AppliedWriteKeeps(s: State, id: ReqId, fate: Fate)
    requires Inv(s) && Enabled(s, Write(id, fate)) && Applies(fate)
    ensures Inv(Step(s, Write(id, fate)))
  {
    hide MoneyOk, CapsOk, Grows, RowsOk, ReceiptsOk, SettlementsOk, PcOk, DebitOk, EnteredOk, Attempt, AfterWrite;
    var p, later := s.procs[id], Step(s, Write(id, fate));
    var t := Attempt(p, Now(s)).value;
    WriterIsOk(s, id);
    WriteGrows(p, Now(s));
    HistoryExtends(s, later, t);
    WriteMoneyAndCaps(s, id);
    WriteOwnOk(s, id, fate);
    WriteReceipts(s, id);
    OthersKeep(s, later, id);
  }

  lemma WriterIsOk(s: State, id: ReqId)
    requires Inv(s) && id in s.procs && Writes(s.procs[id])
    ensures WriterOk(s.procs[id], Now(s))
  {
    assert PcOk(s, id, s.procs[id]);
  }

  lemma WriteReceipts(s: State, id: ReqId)
    requires Inv(s) && id in s.procs && Writes(s.procs[id]) && Attempt(s.procs[id], Now(s)).Some?
    ensures ReceiptsOk(Attempt(s.procs[id], Now(s)).value, s.settled, s.settler.usdcPerInvoke)
  {
    hide MoneyOk, CapsOk, Grows, RowsOk, SettlementsOk, HistoryOk, Known, EnteredOk, DebitsOk;
    var p, t := s.procs[id], Attempt(s.procs[id], Now(s)).value;
    assert PcOk(s, id, p);
    forall n <- t.receipts ensures Paid(s.settled, s.settler.usdcPerInvoke, n, t.receipts[n]) {
      if n in Now(s).receipts {
        assert Paid(s.settled, s.settler.usdcPerInvoke, n, Now(s).receipts[n]);
      }
    }
  }

  lemma DebitKeeps(t: Tables, debits: map<ReqId, Debit>, issued: map<SecretHash, nat>, id: ReqId, d: Debit)
    requires MoneyOk(t, debits) && CapsOk(t, debits, issued) && id !in debits && d.refunds == 0
    requires DebitTx(t, d.account, d.hash, d.cost, d.capped).Some?
    ensures var after := DebitTx(t, d.account, d.hash, d.cost, d.capped).value;
            MoneyOk(after, debits[id := d]) && CapsOk(after, debits[id := d], issued)
  {
    hide MoneyBalances, CapBalances;
    var after, more := DebitTx(t, d.account, d.hash, d.cost, d.capped).value, debits[id := d];
    forall a ensures MoneyBalances(after, more, a) { DebitMoney(t, debits, id, d, a); }
    forall h <- after.keys | after.keys[h].capped ensures CapBalances(after, more, issued, h) {
      DebitCap(t, debits, issued, id, d, h);
    }
  }

  lemma RefundKeeps(t: Tables, debits: map<ReqId, Debit>, issued: map<SecretHash, nat>, id: ReqId)
    requires MoneyOk(t, debits) && CapsOk(t, debits, issued) && id in debits && debits[id].refunds == 0
    requires RefundTx(t, ReceiptOf(debits[id])).Some?
    ensures var after, refunded := RefundTx(t, ReceiptOf(debits[id])).value, debits[id := debits[id].(refunds := 1)];
            MoneyOk(after, refunded) && CapsOk(after, refunded, issued)
  {
    hide MoneyBalances, CapBalances;
    var after, refunded := RefundTx(t, ReceiptOf(debits[id])).value, debits[id := debits[id].(refunds := 1)];
    forall a ensures MoneyBalances(after, refunded, a) { RefundMoney(t, debits, id, a); }
    forall h <- after.keys | after.keys[h].capped ensures CapBalances(after, refunded, issued, h) {
      RefundCap(t, debits, issued, id, h);
    }
  }

  lemma CreditKeeps(t: Tables, debits: map<ReqId, Debit>, issued: map<SecretHash, nat>, account: AccountId,
                    invokes: nat, nonce: Nonce)
    requires MoneyOk(t, debits) && CapsOk(t, debits, issued) && CreditTx(t, account, invokes, nonce).Some?
    ensures var after := CreditTx(t, account, invokes, nonce).value;
            MoneyOk(after, debits) && CapsOk(after, debits, issued)
  {
    var after := CreditTx(t, account, invokes, nonce).value;
    forall a ensures MoneyBalances(after, debits, a) {
      assert MoneyBalances(t, debits, a);
      CreditMoney(t, debits, account, invokes, nonce, a);
    }
    SameKeysKeepCaps(t, after, debits, issued);
  }

  lemma SameKeysKeepCaps(t: Tables, after: Tables, debits: map<ReqId, Debit>, issued: map<SecretHash, nat>)
    requires CapsOk(t, debits, issued) && after.keys == t.keys
    ensures CapsOk(after, debits, issued)
  {
    forall h <- after.keys | after.keys[h].capped ensures CapBalances(after, debits, issued, h) {
      assert CapBalances(t, debits, issued, h);
    }
  }

  lemma SameMoneyKeepsMoney(t: Tables, after: Tables, debits: map<ReqId, Debit>)
    requires MoneyOk(t, debits) && after.receipts == t.receipts
    requires forall a: AccountId :: Balance(after, a) == Balance(t, a)
    ensures MoneyOk(after, debits)
  {
    forall a ensures MoneyBalances(after, debits, a) { assert MoneyBalances(t, debits, a); }
  }

  /** A new key row: its cap is what it was issued with, and nothing has been spent through it. */
  lemma NewKeyKeepsCaps(t: Tables, after: Tables, debits: map<ReqId, Debit>, issued: map<SecretHash, nat>,
                        key: KeyRecord, later: map<SecretHash, nat>)
    requires CapsOk(t, debits, issued) && key.secretHash !in t.keys && after.keys == t.keys[key.secretHash := key]
    requires forall id :: id in debits ==> debits[id].hash in t.keys
    requires key.capped <==> key.capRemaining.Some?
    requires later == if key.capped then issued[key.secretHash := key.capRemaining.value] else issued
    ensures CapsOk(after, debits, later)
  {
    UnusedKey(debits, key.secretHash);
    forall h <- after.keys | after.keys[h].capped ensures CapBalances(after, debits, later, h) {
      if h != key.secretHash { assert CapBalances(t, debits, issued, h); }
    }
  }

  lemma RevokeKeepsCaps(t: Tables, account: AccountId, hash: SecretHash, debits: map<ReqId, Debit>,
                        issued: map<SecretHash, nat>)
    requires CapsOk(t, debits, issued) && RevokeTx(t, account, hash).Some?
    ensures CapsOk(RevokeTx(t, account, hash).value, debits, issued)
  {
    var after := RevokeTx(t, account, hash).value;
    forall h <- after.keys | after.keys[h].capped ensures CapBalances(after, debits, issued, h) {
      assert CapBalances(t, debits, issued, h);
    }
  }

  ghost predicate MoneyAfter(later: State) {
    later.history != [] && MoneyOk(Now(later), later.debits) && CapsOk(Now(later), later.debits, later.issued)
  }

  lemma InvokeWriteMoney(s: State, id: ReqId)
    requires Inv(s) && id in s.procs && Writes(s.procs[id]) && Attempt(s.procs[id], Now(s)).Some?
    requires s.procs[id].req.Invoke?
    ensures MoneyAfter(ApplyWrite(s, id))
  {
    hide MoneyOk, CapsOk, DebitTx, RefundTx, Grows, RowsOk, ReceiptsOk, SettlementsOk, HistoryOk;
    var p := s.procs[id];
    assert PcOk(s, id, p);
    if p.pc.Admitted? {
      var debit := Debit(p.req.hash, p.pc.key.accountId, p.req.cost, p.pc.key.capped, 0, false);
      DebitKeeps(Now(s), s.debits, s.issued, id, debit);
    } else {
      RefundKeeps(Now(s), s.debits, s.issued, id);
    }
  }

  lemma OtherWriteMoney(s: State, id: ReqId)
    requires Inv(s) && id in s.procs && Writes(s.procs[id]) && Attempt(s.procs[id], Now(s)).Some?
    requires !s.procs[id].req.Invoke?
    ensures MoneyAfter(ApplyWrite(s, id))
  {
    hide MoneyOk, CapsOk, Grows, RowsOk, ReceiptsOk, SettlementsOk, HistoryOk, ProcsOk;
    var t, req := Now(s), s.procs[id].req;
    var after := Attempt(s.procs[id], t).value;
    assert forall o <- s.debits :: DebitOk(s, o);
    match req {
      case Create(account, hash, keyId) =>
        SameMoneyKeepsMoney(t, after, s.debits);
        NewKeyKeepsCaps(t, after, s.debits, s.issued, NewKey(hash, account, keyId, None), s.issued);
      case IssueKey(account, _, hash, keyId, spendCap) =>
        SameMoneyKeepsMoney(t, after, s.debits);
        var key := NewKey(hash, account, keyId, spendCap);
        NewKeyKeepsCaps(t, after, s.debits, s.issued, key, RecordedCaps(s, s.procs[id]));
      case Revoke(account, _, _) =>
        SameMoneyKeepsMoney(t, after, s.debits);
        RevokeKeepsCaps(t, account, s.procs[id].pc.hash, s.debits, s.issued);
      case Credit(account, invokes, _) =>
        CreditKeeps(t, s.debits, s.issued, account, invokes, s.procs[id].pc.nonce);
    }
  }

  lemma WriteMoneyAndCaps(s: State, id: ReqId)
    requires Inv(s) && id in s.procs && Writes(s.procs[id]) && Attempt(s.procs[id], Now(s)).Some?
    ensures MoneyAfter(ApplyWrite(s, id))
  {
    if s.procs[id].req.Invoke? { InvokeWriteMoney(s, id); } else { OtherWriteMoney(s, id); }
  }

  /** All that the step of `id` needs to know about `id`. */
  ghost predicate Before(s: State, id: ReqId) {
    s.history != [] && id in s.procs && PcOk(s, id, s.procs[id]) && (id in s.debits ==> DebitOk(s, id))
  }

  lemma DebitWriteOwnOk(s: State, id: ReqId, fate: Fate)
    requires Before(s, id) && Enabled(s, Write(id, fate)) && Applies(fate)
    requires s.procs[id].req.Invoke? && s.procs[id].pc.Admitted? && id !in s.entered
    requires Grows(Now(s), Attempt(s.procs[id], Now(s)).value)
    ensures OwnOk(Step(s, Write(id, fate)), id)
  {
  }

  lemma RefundWriteOwnOk(s: State, id: ReqId, fate: Fate)
    requires Before(s, id) && Enabled(s, Write(id, fate)) && Applies(fate)
    requires s.procs[id].req.Invoke? && s.procs[id].pc.Refunding?
    requires Grows(Now(s), Attempt(s.procs[id], Now(s)).value)
    ensures OwnOk(Step(s, Write(id, fate)), id)
  {
    hide RefundTx;
  }

  lemma CreditWriteOwnOk(s: State, id: ReqId, fate: Fate)
    requires Before(s, id) && Enabled(s, Write(id, fate)) && Applies(fate) && s.procs[id].req.Credit?
    requires id !in s.debits && id !in s.entered
    ensures OwnOk(Step(s, Write(id, fate)), id)
  {
    hide Known;
  }

  lemma KeyWriteOwnOk(s: State, id: ReqId, fate: Fate)
    requires Before(s, id) && Enabled(s, Write(id, fate)) && Applies(fate)
    requires !s.procs[id].req.Credit? && !s.procs[id].req.Invoke? && id !in s.debits && id !in s.entered
    ensures OwnOk(Step(s, Write(id, fate)), id)
  {
    hide CreateTx, PutKeyTx, RevokeTx;
  }

  lemma HoldsBefore(s: State, id: ReqId)
    requires Inv(s) && id in s.procs
    ensures Before(s, id)
    ensures !s.procs[id].req.Invoke? ==> id !in s.debits && id !in s.entered
    ensures s.procs[id].pc.Admitted? ==> id !in s.entered
  {
    hide MoneyOk, CapsOk, RowsOk, ReceiptsOk, SettlementsOk, HistoryOk, Grows, Known;
    assert PcOk(s, id, s.procs[id]);
    assert id in s.debits ==> DebitOk(s, id);
  }

  lemma WriteOwnOk(s: State, id: ReqId, fate: Fate)
    requires Inv(s) && Enabled(s, Write(id, fate)) && Applies(fate)
    requires Grows(Now(s), Attempt(s.procs[id], Now(s)).value)
    ensures OwnOk(Step(s, Write(id, fate)), id)
  {
    hide Inv, Before, OwnOk, Step, Attempt, Grows;
    HoldsBefore(s, id);
    match s.procs[id].req {
      case Invoke(_, _) =>
        if s.procs[id].pc.Admitted? { DebitWriteOwnOk(s, id, fate); } else { RefundWriteOwnOk(s, id, fate); }
      case Create(_, _, _) => KeyWriteOwnOk(s, id, fate);
      case IssueKey(_, _, _, _, _) => KeyWriteOwnOk(s, id, fate);
      case Revoke(_, _, _) => KeyWriteOwnOk(s, id, fate);
      case Credit(_, _, _) => CreditWriteOwnOk(s, id, fate);
    }
  }

  lemma WriteKeeps(s: State, id: ReqId, fate: Fate)
    requires Inv(s) && Enabled(s, Write(id, fate))
    ensures Inv(Step(s, Write(id, fate)))
  {
    if Applies(fate) { AppliedWriteKeeps(s, id, fate); } else { IdleWriteKeeps(s, id, fate); }
  }

  // ----- Any step, any run ------------------------------------------------------------------------------

  lemma StepKeeps(s: State, e: Event)
    requires Inv(s) && Enabled(s, e)
    ensures Inv(Step(s, e))
  {
    hide Inv, Step, Enabled;
    match e {
      case Begin(id, req, now) => BeginKeeps(s, id, req, now);
      case Read(id, version, pick) => ReadKeeps(s, id, version, pick);
      case ReadFault(id) => ReadFaultKeeps(s, id);
      case Write(id, fate) => WriteKeeps(s, id, fate);
      case Run(id, script) => RunKeeps(s, id, script);
      case Settle(id, now, facilitator) => SettleKeeps(s, id, now, facilitator);
    }
  }

  /** Every reachable state satisfies the invariant. */
  lemma {:induction false} Reachable(settler: Settler, run: seq<Event>)
    requires Play(settler, run).Some?
    ensures Inv(Play(settler, run).value)
    decreases |run|
  {
    hide Inv, Step, Enabled;
    if run == [] {
      InitialOk(settler);
    } else {
      Reachable(settler, run[..|run| - 1]);
      StepKeeps(Play(settler, run[..|run| - 1]).value, run[|run| - 1]);
    }
  }

  lemma InitialOk(settler: Settler)
    ensures Inv(Initial(settler))
  {
  }
}

/** What requests are told, and why: every answer is backed by some version of the tables that was read or by a write
    that is in the tables, in every run. */
module LedgerAnswers {
  import opened Wrappers
  import opened Results
  import opened Ledger
  import opened LedgerProtocol
  import opened LedgerInvariant
  import opened LedgerPreservation
  import opened Payments
  import Pipeline = InvokePipeline

  // ----- What some version of the tables said -------------------------------------------------------

  /** A row of an unrevoked, uncapped key of the account. */
  predicate IsHolder(t: Tables, account: AccountId, presented: SecretHash) {
    presented in t.keys && t.keys[presented].accountId == account
    && !t.keys[presented].revoked && !t.keys[presented].capped
  }

  ghost predicate Held(history: seq<Tables>, account: AccountId, presented: SecretHash) {
    exists k :: 0 <= k < |history| && IsHolder(history[k], account, presented)
  }

  ghost predicate SawNotHeld(history: seq<Tables>, account: AccountId, presented: SecretHash) {
    exists k :: 0 <= k < |history| && !IsHolder(history[k], account, presented)
  }

  predicate IsUsable(t: Tables, hash: SecretHash) { hash in t.keys && !t.keys[hash].revoked }

  ghost predicate SawNoUsableKey(history: seq<Tables>, hash: SecretHash) {
    exists k :: 0 <= k < |history| && !IsUsable(history[k], hash)
  }

  /** What is left of a cap that is stored; one that cannot be read counts as used up. */
  function CapLeft(row: KeyRecord): nat {
    if row.capRemaining.Some? && row.capRemaining.value <= U64_MAX then row.capRemaining.value else 0
  }

  predicate ReadAs(t: Tables, hash: SecretHash, key: KeyRecord) {
    IsUsable(t, hash) && key.accountId == t.keys[hash].accountId && key.capped == t.keys[hash].capped
    && key.capRemaining == if key.capped then Some(CapLeft(t.keys[hash])) else None
  }

  ghost predicate SawKey(history: seq<Tables>, hash: SecretHash, key: KeyRecord) {
    exists k :: 0 <= k < |history| && ReadAs(history[k], hash, key)
  }

  predicate HasBalance(t: Tables, account: AccountId, balance: nat) {
    account in t.accounts && t.accounts[account] == balance <= U64_MAX
  }

  ghost predicate SawBalance(history: seq<Tables>, account: AccountId, balance: nat) {
    exists k :: 0 <= k < |history| && HasBalance(history[k], account, balance)
  }

  predicate IsNamed(t: Tables, h: SecretHash, account: AccountId, keyId: KeyId) {
    h in t.keys && t.keys[h].accountId == account && t.keys[h].keyId == keyId
  }

  ghost predicate SawNamed(history: seq<Tables>, h: SecretHash, account: AccountId, keyId: KeyId) {
    exists k :: 0 <= k < |history| && IsNamed(history[k], h, account, keyId)
  }

  ghost predicate NoneNamed(t: Tables, account: AccountId, keyId: KeyId) {
    forall h :: !IsNamed(t, h, account, keyId)
  }

  ghost predicate SawNoneNamed(history: seq<Tables>, account: AccountId, keyId: KeyId) {
    exists k :: 0 <= k < |history| && NoneNamed(history[k], account, keyId)
  }

  /** A key and a balance that do not cover the cost. */
  predicate Falls(key: KeyRecord, balance: nat, cost: nat) {
    balance < cost || (key.capped && key.capRemaining.GetOr(0) < cost)
  }

  ghost predicate SawTooLittle(history: seq<Tables>, hash: SecretHash, cost: nat, balance: nat, cap: Option<nat>) {
    exists key :: SawKey(history, hash, key) && SawBalance(history, key.accountId, balance)
      && Falls(key, balance, cost) && cap == key.capRemaining
  }

  // ----- The evidence behind a program counter -------------------------------------------------------

  ghost predicate InvokeEvidence(history: seq<Tables>, hash: SecretHash, cost: nat, pc: Pc) {
    match pc
    case HasKey(key) => SawKey(history, hash, key)
    case Admitted(key) => SawKey(history, hash, key)
    case DebitRefusedKey(key) => SawKey(history, hash, key)
    case Refunding(_, cause) => !cause.Unauthorized? && !cause.InsufficientCredits?
    case Done(Failed(Unauthorized)) => SawNoUsableKey(history, hash)
    case Done(Failed(InsufficientCredits(c, balance, cap))) =>
      c == cost && SawTooLittle(history, hash, cost, balance, cap)
    case Done(Credited(_)) => false
    case _ => true
  }

  ghost predicate KeyEvidence(history: seq<Tables>, account: AccountId, presented: SecretHash, pc: Pc) {
    match pc
    case Authorized => Held(history, account, presented)
    case BalanceBefore(_) => Held(history, account, presented)
    case Found(_, _) => Held(history, account, presented)
    case BalanceAfter(_) => Held(history, account, presented)
    case Done(Succeeded) => Held(history, account, presented)
    case Done(Failed(NotFound)) => Held(history, account, presented)
    case Done(Failed(Unauthorized)) => SawNotHeld(history, account, presented)
    case Done(Failed(e)) => e.Storage?
    case Done(Credited(_)) => false
    case _ => true
  }

  ghost predicate NameEvidence(history: seq<Tables>, account: AccountId, keyId: KeyId, pc: Pc) {
    match pc
    case Found(h, _) => SawNamed(history, h, account, keyId)
    case Done(Failed(NotFound)) => SawNoneNamed(history, account, keyId)
    case _ => true
  }

  ghost predicate CreditEvidence(history: seq<Tables>, account: AccountId, pc: Pc) {
    match pc
    case Done(Credited(balance)) => SawBalance(history, account, balance)
    case Done(Failed(e)) => e.BadRequest? || e.PaymentChallenge? || e.NotFound? || e.Storage?
    case Done(Succeeded) => false
    case _ => true
  }

  ghost predicate Evidence(history: seq<Tables>, p: Proc) {
    match p.req
    case Invoke(hash, cost) => InvokeEvidence(history, hash, cost, p.pc)
    case Create(_, _, _) => p.pc.Done? ==> p.pc.outcome.Succeeded? || p.pc.outcome == Failed(Pipeline.Storage)
    case IssueKey(account, presented, _, _, _) =>
      KeyEvidence(history, account, presented, p.pc) && p.pc != Fail(Pipeline.NotFound)
    case Revoke(account, presented, keyId) =>
      KeyEvidence(history, account, presented, p.pc) && NameEvidence(history, account, keyId, p.pc)
    case Credit(account, _, _) => CreditEvidence(history, account, p.pc)
  }

  // ----- What a success has left in the tables ---------------------------------------------------------

  predicate IsMinted(t: Tables, h: SecretHash, account: AccountId, keyId: KeyId, capped: bool) {
    IsNamed(t, h, account, keyId) && t.keys[h].capped == capped
  }

  ghost predicate SomeRevoked(t: Tables, account: AccountId, keyId: KeyId) {
    exists h :: IsNamed(t, h, account, keyId) && t.keys[h].revoked
  }

  ghost predicate Effects(t: Tables, p: Proc) {
    match p.req
    case Create(account, h, keyId) =>
      p.pc == Done(Succeeded) ==> account in t.accounts && IsMinted(t, h, account, keyId, false)
    case IssueKey(account, _, h, keyId, spendCap) =>
      p.pc == Done(Succeeded) ==> IsMinted(t, h, account, keyId, spendCap.Some?)
    case Revoke(account, _, keyId) => p.pc.BalanceAfter? || p.pc == Done(Succeeded) ==> SomeRevoked(t, account, keyId)
    case _ => true
  }

  ghost predicate AnswersOk(s: State)
    requires s.history != []
  {
    forall id <- s.procs :: Evidence(s.history, s.procs[id]) && Effects(Now(s), s.procs[id])
  }

  // ----- Evidence lasts ------------------------------------------------------------------------------------

  lemma SawLasts(history: seq<Tables>, later: seq<Tables>)
    requires history <= later
    ensures forall k :: 0 <= k < |history| ==> later[k] == history[k]
  {
  }

  lemma EvidenceLasts(history: seq<Tables>, later: seq<Tables>, p: Proc)
    requires history <= later && Evidence(history, p)
    ensures Evidence(later, p)
  {
    hide IsHolder, IsUsable, ReadAs, HasBalance, IsNamed, NoneNamed, Falls;
    SawLasts(history, later);
    if p.req.Invoke? { InvokeEvidenceLasts(history, later, p); }
  }

  lemma InvokeEvidenceLasts(history: seq<Tables>, later: seq<Tables>, p: Proc)
    requires history <= later && p.req.Invoke? && Evidence(history, p)
    ensures Evidence(later, p)
  {
    hide IsUsable, ReadAs, HasBalance, Falls, SawKey, SawBalance;
    SawLasts(history, later);
    forall hash, key | SawKey(history, hash, key) ensures SawKey(later, hash, key) {
      SawKeyLasts(history, later, hash, key);
    }
    forall account, b | SawBalance(history, account, b) ensures SawBalance(later, account, b) {
      SawBalanceLasts(history, later, account, b);
    }
  }

  lemma SawKeyLasts(history: seq<Tables>, later: seq<Tables>, hash: SecretHash, key: KeyRecord)
    requires history <= later && SawKey(history, hash, key)
    ensures SawKey(later, hash, key)
  {
    hide ReadAs;
    SawLasts(history, later);
  }

  lemma SawBalanceLasts(history: seq<Tables>, later: seq<Tables>, account: AccountId, b: nat)
    requires history <= later && SawBalance(history, account, b)
    ensures SawBalance(later, account, b)
  {
    hide HasBalance;
    SawLasts(history, later);
  }

  lemma EffectsLast(t: Tables, later: Tables, p: Proc)
    requires Grows(t, later) && Effects(t, p)
    ensures Effects(later, p)
  {
    if p.req.Revoke? && SomeRevoked(t, p.req.account, p.req.keyId) {
      var h :| IsNamed(t, h, p.req.account, p.req.keyId) && t.keys[h].revoked;
      assert IsNamed(later, h, p.req.account, p.req.keyId) && later.keys[h].revoked;
    }
  }

  // ----- Every step provides it ------------------------------------------------------------------------------

  lemma ReadEvidence(s: State, id: ReqId, version: nat, pick: Option<SecretHash>)
    requires Before(s, id) && Enabled(s, Read(id, version, pick)) && Evidence(s.history, s.procs[id])
    ensures Evidence(s.history, s.procs[id].(pc := AfterRead(s.procs[id], s.history[version], pick)))
  {
    hide AfterRead, Evidence, Before, IndexOffers;
    match s.procs[id].req
    case Invoke(_, _) => ReadInvokeEvidence(s, id, version, pick);
    case Create(_, _, _) => CreateReadsNothing(s.procs[id], s.history[version], pick);
    case IssueKey(_, _, _, _, _) => ReadIssueEvidence(s, id, version, pick);
    case Revoke(_, _, _) => ReadRevokeEvidence(s, id, version, pick);
    case Credit(_, _, _) => ReadCreditEvidence(s, id, version, pick);
  }

  lemma ReadInvokeEvidence(s: State, id: ReqId, version: nat, pick: Option<SecretHash>)
    requires s.history != [] && Enabled(s, Read(id, version, pick)) && Evidence(s.history, s.procs[id])
    requires s.procs[id].req.Invoke?
    ensures Evidence(s.history, s.procs[id].(pc := AfterRead(s.procs[id], s.history[version], pick)))
  {
    hide IndexOffers, SawKey, SawBalance, ReadAs, HasBalance;
    var t, p := s.history[version], s.procs[id];
    var hash := p.req.hash;
    if ReadDebitKey(t, hash).Some? { ReadKeyWasSeen(s.history, version, hash); }
    if p.pc.HasKey? || p.pc.DebitRefusedKey? {
      if AccountById(t, p.pc.key.accountId).Ok? && AccountById(t, p.pc.key.accountId).value.Some? {
        BalanceWasSeen(s.history, version, p.pc.key.accountId);
        CapOfSeenKey(s.history, hash, p.pc.key);
      }
    }
  }

  lemma CapOfSeenKey(history: seq<Tables>, hash: SecretHash, key: KeyRecord)
    requires SawKey(history, hash, key)
    ensures key.capped <==> key.capRemaining.Some?
  {
  }

  lemma ReadKeyWasSeen(history: seq<Tables>, version: nat, hash: SecretHash)
    requires version < |history| && ReadDebitKey(history[version], hash).Some?
    ensures SawKey(history, hash, ReadDebitKey(history[version], hash).value)
  {
    assert ReadAs(history[version], hash, ReadDebitKey(history[version], hash).value);
  }

  lemma BalanceWasSeen(history: seq<Tables>, version: nat, account: AccountId)
    requires version < |history| && AccountById(history[version], account).Ok?
    requires AccountById(history[version], account).value.Some?
    ensures AccountById(history[version], account).value.value.id == account
    ensures SawBalance(history, account, AccountById(history[version], account).value.value.balance)
  {
    assert HasBalance(history[version], account, AccountById(history[version], account).value.value.balance);
  }

  /** The first read of a request that manages keys: it goes on exactly when the row it reads is there, is of the
      account, is not revoked and is not capped, and is refused otherwise. */
  lemma FirstReadExactly(p: Proc, t: Tables, pick: Option<SecretHash>)
    requires (p.req.IssueKey? || p.req.Revoke?) && p.pc.Start?
    ensures var h := p.req.presented;
            AfterRead(p, t, pick) ==
            if h in t.keys && t.keys[h].accountId == p.req.account && !t.keys[h].revoked && !t.keys[h].capped
            then Authorized else Done(Failed(Pipeline.Unauthorized))
  {
  }

  lemma ReadIssueEvidence(s: State, id: ReqId, version: nat, pick: Option<SecretHash>)
    requires s.history != [] && Enabled(s, Read(id, version, pick)) && Evidence(s.history, s.procs[id])
    requires s.procs[id].req.IssueKey?
    ensures Evidence(s.history, s.procs[id].(pc := AfterRead(s.procs[id], s.history[version], pick)))
  {
    hide IndexOffers;
    if s.procs[id].pc.Start? { FirstReadExactly(s.procs[id], s.history[version], pick); }
  }

  lemma ReadRevokeEvidence(s: State, id: ReqId, version: nat, pick: Option<SecretHash>)
    requires s.history != [] && Enabled(s, Read(id, version, pick)) && Evidence(s.history, s.procs[id])
    requires s.procs[id].req.Revoke?
    ensures Evidence(s.history, s.procs[id].(pc := AfterRead(s.procs[id], s.history[version], pick)))
  {
    hide AccountById, KeyByHash, AuthorizeAdditionalKey;
    var p, t := s.procs[id], s.history[version];
    if p.pc.Start? { FirstReadExactly(p, t, pick); }
    if p.pc.BalanceBefore? {
      if pick.Some? {
        assert IsNamed(t, pick.value, p.req.account, p.req.keyId);
      } else {
        assert NoneNamed(t, p.req.account, p.req.keyId);
      }
    }
  }

  lemma ReadCreditEvidence(s: State, id: ReqId, version: nat, pick: Option<SecretHash>)
    requires s.history != [] && Enabled(s, Read(id, version, pick)) && Evidence(s.history, s.procs[id])
    requires s.procs[id].req.Credit?
    ensures Evidence(s.history, s.procs[id].(pc := AfterRead(s.procs[id], s.history[version], pick)))
  {
    hide IndexOffers, SawBalance;
    var account, t := s.procs[id].req.account, s.history[version];
    if BalanceOf(t, account).Ok? { BalanceWasSeen(s.history, version, account); }
  }

  lemma FaultEvidence(s: State, id: ReqId)
    requires s.history != [] && Enabled(s, ReadFault(id)) && Evidence(s.history, s.procs[id])
    ensures Evidence(s.history, s.procs[id].(pc := AfterReadFault(s.procs[id])))
  {
  }

  lemma RunEvidence(s: State, id: ReqId, script: Pipeline.Script)
    requires Before(s, id) && Enabled(s, Run(id, script)) && Evidence(s.history, s.procs[id])
    ensures Evidence(s.history, s.procs[id].(pc := AfterRun(s.procs[id], script)))
  {
    hide Pipeline.Execute, Known, Grows;
    ExecuteNeverDenies(script);
    OnlyInvokesRun(s, id);
  }

  lemma SettleEvidence(s: State, id: ReqId, now: u64, facilitator: Result<(), PaymentError>)
    requires s.history != [] && Enabled(s, Event.Settle(id, now, facilitator)) && Evidence(s.history, s.procs[id])
    ensures Evidence(s.history, s.procs[id].(pc := AfterSettle(s.settler, s.procs[id], now, facilitator)))
  {
    hide SettlePayment;
  }

  lemma WriteEvidence(s: State, id: ReqId, fate: Fate)
    requires Before(s, id) && Enabled(s, Write(id, fate)) && Evidence(s.history, s.procs[id])
    ensures Evidence(s.history, s.procs[id].(pc := AfterWrite(s.procs[id], fate)))
  {
    hide Attempt, Known, Grows, SawKey, SawTooLittle, SawNoUsableKey;
  }

  lemma BeginEvidence(s: State, req: Request, now: u64)
    requires s.history != []
    ensures Evidence(s.history, Proc(req, FirstPc(s.settler, req, now)))
    ensures Effects(Now(s), Proc(req, FirstPc(s.settler, req, now)))
  {
    hide PaymentNonce, Requirements;
  }

  /** A write that commits leaves in the tables what its success promises. */
  lemma WriteEffects(s: State, id: ReqId, fate: Fate)
    requires Before(s, id) && Enabled(s, Write(id, fate)) && Evidence(s.history, s.procs[id])
    requires HistoryOk(s) && Effects(Now(s), s.procs[id])
    ensures var t := if Applies(fate) then Attempt(s.procs[id], Now(s)).value else Now(s);
            Effects(t, s.procs[id].(pc := AfterWrite(s.procs[id], fate)))
  {
    var p, t := s.procs[id], Now(s);
    hide DebitTx, RefundTx, CreditTx, HistoryOk, RowsOk, Known, SawKey, SawTooLittle;
    if p.req.Revoke? && fate.Commits? {
      FoundIsNamed(s, id);
      assert IsNamed(Attempt(p, t).value, p.pc.hash, p.req.account, p.req.keyId);
    }
  }

  /** The key that a request found is still there, with its name. */
  lemma FoundIsNamed(s: State, id: ReqId)
    requires HistoryOk(s) && id in s.procs && Evidence(s.history, s.procs[id])
    requires s.procs[id].req.Revoke? && s.procs[id].pc.Found?
    ensures IsNamed(Now(s), s.procs[id].pc.hash, s.procs[id].req.account, s.procs[id].req.keyId)
  {
    hide RowsOk, Held;
    var p := s.procs[id];
    var k :| 0 <= k < |s.history| && IsNamed(s.history[k], p.pc.hash, p.req.account, p.req.keyId);
    assert Grows(s.history[k], Now(s));
  }

  /** Reads that answer a success keep what was left before. */
  lemma ReadEffects(s: State, id: ReqId, version: nat, pick: Option<SecretHash>)
    requires s.history != [] && Enabled(s, Read(id, version, pick)) && Effects(Now(s), s.procs[id])
    ensures Effects(Now(s), s.procs[id].(pc := AfterRead(s.procs[id], s.history[version], pick)))
  {
    hide IndexOffers, SomeRevoked, IsMinted, AccountById, KeyByHash, AuthorizeAdditionalKey;
  }

  lemma QuietEffects(s: State, e: Event)
    requires Before(s, e.id) && Enabled(s, e) && Effects(Now(s), s.procs[e.id])
    requires e.ReadFault? || e.Run? || e.Settle?
    ensures Effects(Now(s), Step(s, e).procs[e.id])
  {
    hide SomeRevoked, IsMinted, SettlePayment, Pipeline.Execute, Known, Grows;
    if e.Run? { OnlyInvokesRun(s, e.id); }
  }

  lemma OwnAnswer(s: State, e: Event)
    requires Inv(s) && AnswersOk(s) && Enabled(s, e)
    ensures var later := Step(s, e);
            e.id in later.procs && Evidence(s.history, later.procs[e.id]) && Effects(Now(later), later.procs[e.id])
  {
    hide Inv, Evidence, Effects, AfterRead, AfterReadFault, AfterRun, AfterSettle, AfterWrite, FirstPc, Attempt;
    assert s.history != [] by { HasHistory(s); }
    if e.Begin? {
      BeginEvidence(s, e.req, e.now);
    } else {
      assert e.id in s.procs;
      HoldsBefore(s, e.id);
      match e
      case Read(id, version, pick) =>
        ReadEvidence(s, id, version, pick);
        ReadEffects(s, id, version, pick);
      case ReadFault(id) =>
        FaultEvidence(s, id);
        QuietEffects(s, e);
      case Write(id, fate) =>
        WriteEvidence(s, id, fate);
        WriteEffects(s, id, fate) by { HasHistory(s); }
      case Run(id, script) =>
        RunEvidence(s, id, script);
        QuietEffects(s, e);
      case Settle(id, now, facilitator) =>
        SettleEvidence(s, id, now, facilitator);
        QuietEffects(s, e);
    }
  }

  lemma HasHistory(s: State)
    requires Inv(s)
    ensures s.history != [] && HistoryOk(s)
  {
    hide HistoryOk, MoneyOk, CapsOk, ProcsOk, DebitsOk, EnteredOk, ReceiptsOk, SettlementsOk;
  }

  lemma AnswersStep(s: State, e: Event)
    requires Inv(s) && AnswersOk(s) && Enabled(s, e)
    ensures AnswersOk(Step(s, e))
  {
    hide Inv, Evidence, Effects, Enabled, Step;
    HasHistory(s);
    var later := Step(s, e);
    OwnAnswer(s, e);
    StepFrame(s, e);
    assert Grows(Now(s), Now(later)) by { StepGrows(s, e); }
    forall o <- later.procs
      ensures Evidence(later.history, later.procs[o]) && Effects(Now(later), later.procs[o])
    {
      EvidenceLasts(s.history, later.history, later.procs[o]);
      if o != e.id { EffectsLast(Now(s), Now(later), later.procs[o]); }
    }
  }

  lemma StepFrame(s: State, e: Event)
    requires s.history != [] && Enabled(s, e)
    ensures var later := Step(s, e);
            && s.history <= later.history
            && forall o <- later.procs :: o != e.id ==> o in s.procs && later.procs[o] == s.procs[o]
  {
    hide Attempt, AfterRead, AfterReadFault, AfterRun, AfterSettle, AfterWrite, FirstPc, IndexOffers;
  }

  lemma StepGrows(s: State, e: Event)
    requires Inv(s) && Enabled(s, e)
    ensures Grows(Now(s), Now(Step(s, e)))
  {
    hide Inv, Step, Enabled, Grows, RowsOk;
    StepKeeps(s, e);
    HasHistory(s);
    HasHistory(Step(s, e));
    StepFrame(s, e);
    assert Step(s, e).history[|s.history| - 1] == Now(s);
  }

  lemma {:induction false} AnswersReachable(settler: Settler, run: seq<Event>)
    requires Play(settler, run).Some?
    ensures AnswersOk(Play(settler, run).value)
    decreases |run|
  {
    hide Inv, Step, Enabled, AnswersOk;
    if run == [] {
      assert AnswersOk(Initial(settler)) by { NobodyWasAnswered(settler); }
    } else {
      var before := run[..|run| - 1];
      AnswersReachable(settler, before);
      Reachable(settler, before);
      AnswersStep(Play(settler, before).value, run[|run| - 1]);
    }
  }

  lemma NobodyWasAnswered(settler: Settler)
    ensures AnswersOk(Initial(settler))
  {
  }

  // ----- The theorems ------------------------------------------------------------------------------------------

  /** A request that manages keys has got past its first read: it stands behind it, or ended in what only lies there. */
  predicate PastFirstRead(pc: Pc) {
    pc.Authorized? || pc.BalanceBefore? || pc.Found? || pc.BalanceAfter?
    || pc == Done(Succeeded) || pc == Done(Failed(Pipeline.NotFound))
  }

  /** Only holders manage keys: in every run, a request to issue or to revoke a key that has got past its first read
      presented a key that some version of the tables held for that account, not revoked and not capped. */
  lemma OnlyHoldersManageKeys(settler: Settler, run: seq<Event>, id: ReqId)
    requires Play(settler, run).Some? && id in Play(settler, run).value.procs
    requires var p := Play(settler, run).value.procs[id];
             (p.req.IssueKey? || p.req.Revoke?) && PastFirstRead(p.pc)
    ensures var s := Play(settler, run).value; var req := s.procs[id].req;
            exists k :: 0 <= k < |s.history| && req.presented in s.history[k].keys
              && s.history[k].keys[req.presented].accountId == req.account
              && !s.history[k].keys[req.presented].revoked && !s.history[k].keys[req.presented].capped
  {
    hide Play, Effects, NameEvidence, SawNotHeld;
    AnswersReachable(settler, run);
    var s := Play(settler, run).value;
    var req := s.procs[id].req;
    assert Evidence(s.history, s.procs[id]);
    var k :| 0 <= k < |s.history| && IsHolder(s.history[k], req.account, req.presented);
    assert req.presented in s.history[k].keys;
  }

  /** A denied invoke was denied for a reason that was in the tables: no usable key, or a key and a balance that do not
      cover the cost, and these are the figures in the answer. */
  lemma DenialsHaveReasons(settler: Settler, run: seq<Event>, id: ReqId)
    requires Play(settler, run).Some? && id in Play(settler, run).value.procs
    requires var p := Play(settler, run).value.procs[id]; p.req.Invoke? && p.pc.Done? && p.pc.outcome.Failed?
    ensures var s := Play(settler, run).value; var req, e := s.procs[id].req, s.procs[id].pc.outcome.error;
            && (e.Unauthorized? ==> SawNoUsableKey(s.history, req.hash))
            && (e.InsufficientCredits? ==>
                e.creditCost == req.cost && SawTooLittle(s.history, req.hash, req.cost, e.balance, e.spendCapRemaining))
  {
    hide Play, Effects, SawNoUsableKey, SawTooLittle;
    AnswersReachable(settler, run);
    assert Evidence(Play(settler, run).value.history, Play(settler, run).value.procs[id]);
  }

  /** A credit that is answered with a balance names one that some version of the tables held for the account; it is
      never answered with anything else but the listed errors. */
  lemma CreditedBalanceWasThere(settler: Settler, run: seq<Event>, id: ReqId)
    requires Play(settler, run).Some? && id in Play(settler, run).value.procs
    requires var p := Play(settler, run).value.procs[id]; p.req.Credit? && p.pc.Done?
    ensures var s := Play(settler, run).value; var outcome := s.procs[id].pc.outcome;
            match outcome
            case Credited(balance) => SawBalance(s.history, s.procs[id].req.account, balance)
            case Failed(e) => e.BadRequest? || e.PaymentChallenge? || e.NotFound? || e.Storage?
            case Succeeded => false
  {
    hide Play, Effects, SawBalance;
    AnswersReachable(settler, run);
    assert Evidence(Play(settler, run).value.history, Play(settler, run).value.procs[id]);
  }

  /** A success is in the tables: the account with its uncapped key, the issued key, or the revocation. */
  lemma SuccessesAreInTheTables(settler: Settler, run: seq<Event>, id: ReqId)
    requires Play(settler, run).Some? && id in Play(settler, run).value.procs
    requires Play(settler, run).value.procs[id].pc == Done(Succeeded)
    ensures var s := Play(settler, run).value; var t := Now(s);
            match s.procs[id].req
            case Create(account, h, keyId) =>
              account in t.accounts && h in t.keys && t.keys[h].accountId == account && t.keys[h].keyId == keyId
              && !t.keys[h].capped
            case IssueKey(account, _, h, keyId, spendCap) =>
              h in t.keys && t.keys[h].accountId == account && t.keys[h].keyId == keyId
              && (t.keys[h].capped <==> spendCap.Some?)
            case Revoke(account, _, keyId) =>
              exists h :: h in t.keys && t.keys[h].accountId == account && t.keys[h].keyId == keyId && t.keys[h].revoked
            case _ => true
  {
    hide Play, Evidence;
    AnswersReachable(settler, run);
    var s := Play(settler, run).value;
    assert Effects(Now(s), s.procs[id]);
    if s.procs[id].req.Revoke? {
      var h :| IsNamed(Now(s), h, s.procs[id].req.account, s.procs[id].req.keyId) && Now(s).keys[h].revoked;
      assert h in Now(s).keys;
    }
  }
}

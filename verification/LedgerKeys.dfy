/** Where keys come from: over every run, each key row was created with its account or issued by a holder, and each
    revocation was asked for by one. */
module LedgerKeys {
  import opened Wrappers
  import opened Ledger
  import opened LedgerProtocol
  import opened LedgerInvariant
  import opened LedgerPreservation
  import opened LedgerAnswers
  import opened Payments

  /** Request `req` accounts for the row of key `h`: the first key of its account, which is not capped, or a key issued
      to somebody who held an unrevoked, uncapped key of the account. */
  ghost predicate MintedBy(req: Request, history: seq<Tables>, h: SecretHash, row: KeyRecord) {
    match req
    case Create(account, hash, keyId) => hash == h && account == row.accountId && keyId == row.keyId && !row.capped
    case IssueKey(account, presented, hash, keyId, spendCap) =>
      hash == h && account == row.accountId && keyId == row.keyId && spendCap.Some? == row.capped
      && Held(history, account, presented)
    case _ => false
  }

  ghost predicate RevokedBy(req: Request, history: seq<Tables>, row: KeyRecord) {
    req.Revoke? && req.account == row.accountId && req.keyId == row.keyId
    && Held(history, row.accountId, req.presented)
  }

  ghost predicate Minted(procs: map<ReqId, Proc>, history: seq<Tables>, h: SecretHash, row: KeyRecord) {
    exists id :: id in procs && MintedBy(procs[id].req, history, h, row)
  }

  ghost predicate Revoked(procs: map<ReqId, Proc>, history: seq<Tables>, row: KeyRecord) {
    exists id :: id in procs && RevokedBy(procs[id].req, history, row)
  }

  ghost predicate RowAccounted(procs: map<ReqId, Proc>, history: seq<Tables>, h: SecretHash, row: KeyRecord) {
    Minted(procs, history, h, row) && (row.revoked ==> Revoked(procs, history, row))
  }

  ghost predicate KeysAccounted(procs: map<ReqId, Proc>, history: seq<Tables>, t: Tables) {
    forall h <- t.keys :: RowAccounted(procs, history, h, t.keys[h])
  }

  // ----- The theorem -----------------------------------------------------------------------------------

  /** Every key of every reachable state comes from a request that opened its account or was made by a holder, with
      exactly the account, the id and the kind that were asked for; and it is revoked only if a holder asked for
      that. */
  lemma KeysComeFromHolders(settler: Settler, run: seq<Event>, h: SecretHash)
    requires Play(settler, run).Some? && h in Now(Play(settler, run).value).keys
    ensures var s := Play(settler, run).value; var row := Now(s).keys[h];
            && (exists id :: id in s.procs && MintedBy(s.procs[id].req, s.history, h, row))
            && (row.revoked ==> exists id :: id in s.procs && RevokedBy(s.procs[id].req, s.history, row))
  {
    hide Play, MintedBy, RevokedBy;
    AccountedReachable(settler, run);
    var s := Play(settler, run).value;
    assert RowAccounted(s.procs, s.history, h, Now(s).keys[h]);
  }

  // ----- The proof ---------------------------------------------------------------------------------------

  ghost predicate SameRequests(procs: map<ReqId, Proc>, later: map<ReqId, Proc>) {
    forall id <- procs :: id in later && later[id].req == procs[id].req
  }

  /** Two rows of one identity. */
  predicate SameIdentity(row: KeyRecord, other: KeyRecord) {
    row.accountId == other.accountId && row.keyId == other.keyId && row.capped == other.capped
  }

  lemma AccountedLasts(procs: map<ReqId, Proc>, history: seq<Tables>, later: map<ReqId, Proc>, longer: seq<Tables>,
                       h: SecretHash, row: KeyRecord, other: KeyRecord)
    requires RowAccounted(procs, history, h, row) && SameRequests(procs, later) && history <= longer
    requires SameIdentity(row, other) && row.revoked == other.revoked
    ensures RowAccounted(later, longer, h, other)
  {
    MintedLasts(procs, history, later, longer, h, row, other);
    if row.revoked {
      var id :| id in procs && RevokedBy(procs[id].req, history, row);
      HeldLasts(history, longer, row.accountId, procs[id].req.presented);
      assert RevokedBy(later[id].req, longer, other);
    }
  }

  lemma MintedLasts(procs: map<ReqId, Proc>, history: seq<Tables>, later: map<ReqId, Proc>, longer: seq<Tables>,
                    h: SecretHash, row: KeyRecord, other: KeyRecord)
    requires Minted(procs, history, h, row) && SameRequests(procs, later) && history <= longer
    requires SameIdentity(row, other)
    ensures Minted(later, longer, h, other)
  {
    var id :| id in procs && MintedBy(procs[id].req, history, h, row);
    if procs[id].req.IssueKey? { HeldLasts(history, longer, procs[id].req.account, procs[id].req.presented); }
    assert MintedBy(later[id].req, longer, h, other);
  }

  lemma HeldLasts(history: seq<Tables>, longer: seq<Tables>, account: AccountId, presented: SecretHash)
    requires history <= longer && Held(history, account, presented)
    ensures Held(longer, account, presented)
  {
    hide IsHolder;
    SawLasts(history, longer);
  }

  /** The rows that a write leaves as they were, but for what is left of a cap. */
  ghost predicate KeepsKeys(t: Tables, after: Tables) {
    forall h <- after.keys ::
      h in t.keys && SameIdentity(t.keys[h], after.keys[h]) && t.keys[h].revoked == after.keys[h].revoked
  }

  lemma KeptKeysAreAccounted(s: State, later: State)
    requires s.history != [] && later.history != [] && KeysAccounted(s.procs, s.history, Now(s))
    requires SameRequests(s.procs, later.procs) && s.history <= later.history && KeepsKeys(Now(s), Now(later))
    ensures KeysAccounted(later.procs, later.history, Now(later))
  {
    hide RowAccounted, SameIdentity;
    forall h <- Now(later).keys ensures RowAccounted(later.procs, later.history, h, Now(later).keys[h]) {
      assert RowAccounted(s.procs, s.history, h, Now(s).keys[h]);
      AccountedLasts(s.procs, s.history, later.procs, later.history, h, Now(s).keys[h], Now(later).keys[h]);
    }
  }

  lemma MoneyKeepsKeys(p: Proc, t: Tables)
    requires Writes(p) && (p.req.Invoke? || p.req.Credit?) && Attempt(p, t).Some?
    ensures KeepsKeys(t, Attempt(p, t).value)
  {
  }

  /** A write that adds one row, unrevoked, on behalf of its own request. */
  lemma NewKeyIsAccounted(s: State, later: State, id: ReqId, h: SecretHash)
    requires s.history != [] && later.history != [] && KeysAccounted(s.procs, s.history, Now(s))
    requires SameRequests(s.procs, later.procs) && s.history <= later.history && id in later.procs
    requires h !in Now(s).keys && h in Now(later).keys
    requires forall o <- Now(later).keys :: o != h ==> o in Now(s).keys && Now(later).keys[o] == Now(s).keys[o]
    requires MintedBy(later.procs[id].req, later.history, h, Now(later).keys[h]) && !Now(later).keys[h].revoked
    ensures KeysAccounted(later.procs, later.history, Now(later))
  {
    hide RowAccounted, MintedBy;
    forall o <- Now(later).keys ensures RowAccounted(later.procs, later.history, o, Now(later).keys[o]) {
      if o != h {
        assert RowAccounted(s.procs, s.history, o, Now(s).keys[o]);
        AccountedLasts(s.procs, s.history, later.procs, later.history, o, Now(s).keys[o], Now(later).keys[o]);
      } else {
        AccountedNow(later, id, h);
      }
    }
  }

  lemma AccountedNow(later: State, id: ReqId, h: SecretHash)
    requires later.history != [] && id in later.procs && h in Now(later).keys && !Now(later).keys[h].revoked
    requires MintedBy(later.procs[id].req, later.history, h, Now(later).keys[h])
    ensures RowAccounted(later.procs, later.history, h, Now(later).keys[h])
  {
    hide MintedBy;
  }

  /** A write that revokes the row `h` on behalf of its own request. */
  lemma RevokedKeyIsAccounted(s: State, later: State, id: ReqId, h: SecretHash)
    requires s.history != [] && later.history != [] && KeysAccounted(s.procs, s.history, Now(s))
    requires SameRequests(s.procs, later.procs) && s.history <= later.history && id in later.procs
    requires h in Now(s).keys && Now(later).keys == Now(s).keys[h := Now(s).keys[h].(revoked := true)]
    requires RevokedBy(later.procs[id].req, later.history, Now(later).keys[h])
    ensures KeysAccounted(later.procs, later.history, Now(later))
  {
    hide RowAccounted, RevokedBy, Minted;
    forall o <- Now(later).keys ensures RowAccounted(later.procs, later.history, o, Now(later).keys[o]) {
      assert RowAccounted(s.procs, s.history, o, Now(s).keys[o]);
      if o != h {
        AccountedLasts(s.procs, s.history, later.procs, later.history, o, Now(s).keys[o], Now(later).keys[o]);
      } else {
        RevokedNow(s, later, id, h);
      }
    }
  }

  lemma RevokedNow(s: State, later: State, id: ReqId, h: SecretHash)
    requires s.history != [] && later.history != [] && h in Now(s).keys && h in Now(later).keys && id in later.procs
    requires RowAccounted(s.procs, s.history, h, Now(s).keys[h]) && SameIdentity(Now(s).keys[h], Now(later).keys[h])
    requires SameRequests(s.procs, later.procs) && s.history <= later.history
    requires RevokedBy(later.procs[id].req, later.history, Now(later).keys[h])
    ensures RowAccounted(later.procs, later.history, h, Now(later).keys[h])
  {
    hide RevokedBy, MintedBy, SameIdentity;
    MintedLasts(s.procs, s.history, later.procs, later.history, h, Now(s).keys[h], Now(later).keys[h]);
  }

  lemma CreateIsAccounted(s: State, later: State, id: ReqId)
    requires s.history != [] && later.history != [] && KeysAccounted(s.procs, s.history, Now(s))
    requires SameRequests(s.procs, later.procs) && s.history <= later.history
    requires id in s.procs && Writes(s.procs[id]) && Attempt(s.procs[id], Now(s)) == Some(Now(later))
    requires s.procs[id].req.Create?
    ensures KeysAccounted(later.procs, later.history, Now(later))
  {
    hide KeysAccounted;
    NewKeyIsAccounted(s, later, id, s.procs[id].req.hash);
  }

  lemma IssueIsAccounted(s: State, later: State, id: ReqId)
    requires s.history != [] && later.history != [] && KeysAccounted(s.procs, s.history, Now(s))
    requires SameRequests(s.procs, later.procs) && s.history <= later.history
    requires id in s.procs && Writes(s.procs[id]) && Attempt(s.procs[id], Now(s)) == Some(Now(later))
    requires s.procs[id].req.IssueKey? && Evidence(s.history, s.procs[id])
    ensures KeysAccounted(later.procs, later.history, Now(later))
  {
    hide KeysAccounted, Held;
    var req := s.procs[id].req;
    HeldLasts(s.history, later.history, req.account, req.presented);
    NewKeyIsAccounted(s, later, id, req.hash);
  }

  lemma RevokeIsAccounted(s: State, later: State, id: ReqId)
    requires HistoryOk(s) && later.history != [] && KeysAccounted(s.procs, s.history, Now(s))
    requires SameRequests(s.procs, later.procs) && s.history <= later.history
    requires id in s.procs && Writes(s.procs[id]) && Attempt(s.procs[id], Now(s)) == Some(Now(later))
    requires s.procs[id].req.Revoke? && Evidence(s.history, s.procs[id])
    ensures KeysAccounted(later.procs, later.history, Now(later))
  {
    assert s.history != [];
    hide KeysAccounted, Held, HistoryOk;
    var req := s.procs[id].req;
    HeldLasts(s.history, later.history, req.account, req.presented);
    FoundIsNamed(s, id);
    RevokedKeyIsAccounted(s, later, id, s.procs[id].pc.hash);
  }

  lemma AccountedStep(s: State, e: Event)
    requires Inv(s) && AnswersOk(s) && Enabled(s, e) && KeysAccounted(s.procs, s.history, Now(s))
    ensures var later := Step(s, e); KeysAccounted(later.procs, later.history, Now(later))
  {
    hide Inv, KeysAccounted, Evidence, Effects, KeepsKeys, Attempt, AfterRead, AfterReadFault, AfterRun, AfterSettle,
         AfterWrite, FirstPc, IndexOffers;
    HasHistory(s);
    var later := Step(s, e);
    StepFrame(s, e);
    assert SameRequests(s.procs, later.procs);
    if e.Write? && Applies(e.fate) {
      assert Now(later) == Attempt(s.procs[e.id], Now(s)).value;
      if s.procs[e.id].req.Invoke? || s.procs[e.id].req.Credit? {
        MoneyKeepsKeys(s.procs[e.id], Now(s));
        KeptKeysAreAccounted(s, later);
      } else {
        assert later.history == s.history + [Now(later)];
        match s.procs[e.id].req
        case Create(_, _, _) => CreateIsAccounted(s, later, e.id);
        case IssueKey(_, _, _, _, _) => IssueIsAccounted(s, later, e.id);
        case Revoke(_, _, _) => RevokeIsAccounted(s, later, e.id);
      }
    } else {
      assert Now(later) == Now(s);
      assert KeepsKeys(Now(s), Now(later)) by { NothingChanges(Now(s)); }
      KeptKeysAreAccounted(s, later);
    }
  }

  lemma NothingChanges(t: Tables)
    ensures KeepsKeys(t, t)
  {
  }

  lemma {:induction false} AccountedReachable(settler: Settler, run: seq<Event>)
    requires Play(settler, run).Some?
    ensures var s := Play(settler, run).value; KeysAccounted(s.procs, s.history, Now(s))
    decreases |run|
  {
    hide Inv, Step, Enabled, AnswersOk, KeysAccounted;
    if run == [] {
      NoKeysYet(settler);
    } else {
      var before := run[..|run| - 1];
      AccountedReachable(settler, before);
      AnswersReachable(settler, before);
      Reachable(settler, before);
      AccountedStep(Play(settler, before).value, run[|run| - 1]);
    }
  }

  lemma NoKeysYet(settler: Settler)
    ensures KeysAccounted(Initial(settler).procs, Initial(settler).history, Now(Initial(settler)))
  {
  }
}

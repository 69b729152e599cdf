/** One account store used by one request at a time: its calls, read by read and write by write, against the atomic
    ledger. Interleaved requests are the subject of `LedgerProtocol`. */
module DynamoAccountStore {
  import opened Wrappers
  import opened Results
  import opened Ledger
  import opened LedgerProtocol
  import opened MemLedger

  /** What goes wrong with one transaction: nothing, a conflict that cancels it whatever its conditions, or an answer
      that never arrives. */
  datatype Trouble = Fine | Conflict | NoAnswer(applied: bool)

  datatype Answer = Written | Cancelled | Unanswered

  /** What goes wrong with one call of `credit`: its transaction, and its reads of the receipt and the account. */
  datatype Weather = Weather(trouble: Trouble, receiptReadFails: bool, balanceReadFails: bool)

  /** The credit reaches the tables in this call. */
  predicate Lands(w: Weather) { w.trouble.Fine? || (w.trouble.NoAnswer? && w.trouble.applied) }

  /** The credit does not reach the tables, and the caller is told to try again. */
  predicate Retried(w: Weather) {
    (w.trouble.NoAnswer? && !w.trouble.applied) || (w.trouble.Conflict? && w.receiptReadFails)
  }

  /** Some attempt lands, and every attempt before it is retried. */
  predicate Survives(weather: seq<Weather>) {
    weather != [] && (Lands(weather[0]) || (Retried(weather[0]) && Survives(weather[1..])))
  }

  /** `later` is `t` with the key at `h`, of this account and id, revoked. */
  ghost predicate IsRevoked(t: Tables, later: Tables, h: SecretHash, account: AccountId, keyId: KeyId) {
    h in t.keys && IsKey(t.keys[h], account, keyId) && later == t.(keys := t.keys[h := t.keys[h].(revoked := true)])
  }

  /** The debit transaction through the key as it stands, and the receipt it earns. */
  function DebitOf(t: Tables, hash: SecretHash, cost: u64): Option<(Tables, DebitReceipt)> {
    if hash !in t.keys then None
    else
      var row := t.keys[hash];
      var after :- DebitTx(t, row.accountId, hash, cost, row.capped);
      Some((after, DebitReceipt(hash, row.accountId, cost, row.capped)))
  }

  /** The account is there and the nonce is not: the credit is due. */
  predicate IsNew(t: Tables, account: AccountId, invokes: nat, nonce: Nonce) {
    invokes > 0 && nonce != "" && account in t.accounts && nonce !in t.receipts
  }

  predicate IsOrphan(t: Tables, hash: SecretHash) {
    hash in t.keys && !t.keys[hash].revoked && t.keys[hash].accountId !in t.accounts
  }

  /** The answer about a payment, when no read fails. */
  function CreditedBalanceOf(t: Tables, account: AccountId, nonce: Nonce): Result<Option<nat>, StoreError> {
    if nonce !in t.receipts then Ok(None)
    else
      var balance :- BalanceOf(t, account);
      Ok(Some(balance))
  }

  /** The documented answer: the balance if the nonce was already credited to this account, else none. */
  function DocumentedBalance(t: Tables, account: AccountId, nonce: Nonce): Option<nat> {
    if nonce in t.receipts && t.receipts[nonce].accountId == account && account in t.accounts then
      Some(t.accounts[account])
    else None
  }

  /** On readable tables whose receipt names an account that is there, the answer is the documented one exactly when
      the receipt, if there is one, names the account that asks. */
  lemma CreditedBalanceIsDocumentedExactly(t: Tables, account: AccountId, nonce: Nonce)
    requires Readable(t) && (nonce in t.receipts ==> t.receipts[nonce].accountId in t.accounts)
    ensures CreditedBalanceOf(t, account, nonce) == Ok(DocumentedBalance(t, account, nonce))
       <==> (nonce in t.receipts ==> t.receipts[nonce].accountId == account)
  {
    if nonce in t.receipts && account in t.accounts { assert BalanceOf(t, account) == Ok(t.accounts[account]); }
  }

  /** A receipt of account 1 answers for account 2, with the balance of account 2. */
  lemma ReceiptAnswersForAnotherAccount()
    ensures var t := Tables(map[1 := 5, 2 := 7], map[], map["n" := Receipt(1, 5)]);
            CreditedBalanceOf(t, 2, "n") == Ok(Some(7)) && DocumentedBalance(t, 2, "n") == None
  {
  }

  class DynamoAccountStore {
    var tables: Tables

    constructor ()
      ensures tables == EMPTY
    {
      tables := EMPTY;
    }

    method Transact(after: Option<Tables>, trouble: Trouble) returns (answer: Answer)
      modifies this
      ensures answer.Written? <==> trouble.Fine? && after.Some?
      ensures answer.Unanswered? <==> trouble.NoAnswer?
      ensures tables == if after.Some? && (trouble.Fine? || trouble == NoAnswer(true)) then after.value else old(tables)
    {
      if after.Some? && (trouble.Fine? || trouble == NoAnswer(true)) { tables := after.value; }
      return if trouble.NoAnswer? then Unanswered else if trouble.Fine? && after.Some? then Written else Cancelled;
    }

    /** Both rows are new or nothing is written; a key that names the new account is not left without it. */
    method Create(account: Account, key: KeyRecord, trouble: Trouble) returns (r: Result<(), StoreError>)
      modifies this
      ensures old(RowsOk(tables)) && key.accountId == account.id && (key.capped <==> key.capRemaining.Some?) ==>
        RowsOk(tables)
      ensures r.Ok? <==> trouble.Fine? && account.id !in old(tables).accounts && key.secretHash !in old(tables).keys
      ensures r.Err? ==> r.error == Storage(if trouble.NoAnswer? then Fault else AlreadyExists)
      ensures tables == old(tables) || tables == old(tables).(
        accounts := old(tables).accounts[account.id := account.balance],
        keys := old(tables).keys[key.secretHash := key])
      ensures r.Ok? ==> account.id in tables.accounts && key.secretHash in tables.keys
      ensures r.Err? && trouble != NoAnswer(true) ==> tables == old(tables)
    {
      var answer := Transact(CreateTx(tables, account, key), trouble);
      match answer
      case Written => return Ok(());
      case Cancelled => return Err(Storage(AlreadyExists));
      case Unanswered => return Err(Storage(Fault));
    }

    /** A key is never overwritten, and a key of an existing account is not left without it. */
    method PutKey(key: KeyRecord, trouble: Trouble) returns (r: Result<(), StoreError>)
      modifies this
      ensures old(RowsOk(tables)) && key.accountId in old(tables).accounts ==>
        (key.capped <==> key.capRemaining.Some?) ==> RowsOk(tables)
      ensures r.Ok? <==> trouble.Fine? && key.secretHash !in old(tables).keys
      ensures r.Err? ==> r.error == Storage(if trouble.Fine? then AlreadyExists else Fault)
      ensures tables == old(tables) || (key.secretHash !in old(tables).keys
        && tables == old(tables).(keys := old(tables).keys[key.secretHash := key]))
      ensures r.Ok? ==> key.secretHash in tables.keys
      ensures r.Err? && trouble != NoAnswer(true) ==> tables == old(tables)
    {
      var answer := Transact(PutKeyTx(tables, key), trouble);
      match answer
      case Written => return Ok(());
      case Cancelled => return Err(Storage(if trouble.Fine? then AlreadyExists else Fault));
      case Unanswered => return Err(Storage(Fault));
    }

    /** Some key of the account with this id is revoked, and nothing else changes. */
    method Revoke(account: AccountId, keyId: KeyId, indexFails: bool, trouble: Trouble)
      returns (r: Result<(), StoreError>)
      modifies this
      ensures old(RowsOk(tables)) ==> RowsOk(tables)
      ensures r == Err(NotFound) <==>
        !indexFails && forall h <- old(tables).keys :: !IsKey(old(tables).keys[h], account, keyId)
      ensures r.Ok? <==>
        !indexFails && trouble.Fine? && exists h <- old(tables).keys :: IsKey(old(tables).keys[h], account, keyId)
      ensures r.Err? && r.error != NotFound ==> r.error == Storage(Fault)
      ensures tables == old(tables) || exists h <- old(tables).keys :: IsRevoked(old(tables), tables, h, account, keyId)
      ensures r.Ok? ==> exists h <- old(tables).keys :: IsRevoked(old(tables), tables, h, account, keyId)
      ensures r.Err? && trouble != NoAnswer(true) ==> tables == old(tables)
    {
      if indexFails { return Err(Storage(Fault)); }
      if h :| h in tables.keys && IsKey(tables.keys[h], account, keyId) {
        assert RevokeTx(tables, account, h).Some?;
        var answer := Transact(RevokeTx(tables, account, h), trouble);
        assert answer.Written? ==> IsRevoked(old(tables), tables, h, account, keyId);
        return if answer.Written? then Ok(()) else Err(Storage(Fault));
      }
      return Err(NotFound);
    }

    method ReadKey(hash: SecretHash, fails: bool) returns (r: Result<Option<KeyRecord>, StoreError>)
      ensures r == if fails then Err(Storage(Fault)) else Ok(KeyByHash(tables, hash))
    {
      return if fails then Err(Storage(Fault)) else Ok(KeyByHash(tables, hash));
    }

    method ReadAccount(id: AccountId, fails: bool) returns (r: Result<Option<Account>, StoreError>)
      ensures r == if fails then Err(Storage(Fault)) else AccountById(tables, id)
    {
      return if fails then Err(Storage(Fault)) else AccountById(tables, id);
    }

    /** The key must be there and not revoked, its account must be there, and both must cover the cost. */
    method Admit(hash: SecretHash, cost: u64, keyFails: bool, accountFails: bool)
      returns (r: Result<KeyRecord, StoreError>)
      ensures r.Ok? ==> hash in tables.keys && r.value == KeyFromItem(tables.keys[hash])
      ensures RowsOk(tables) && Readable(tables) && !keyFails && !accountFails ==>
        var debit := MemDebit(View(tables), hash, cost).1;
        r == if debit.Ok? then Ok(tables.keys[hash]) else Err(debit.error)
      ensures r.Ok? && cost > 0 ==>
        DebitTx(tables, r.value.accountId, hash, cost, r.value.capped).Some?
      ensures keyFails ==> r == Err(Storage(Fault))
      ensures !keyFails && (hash !in tables.keys || tables.keys[hash].revoked) ==> r == Err(Unauthorized)
      ensures !keyFails && hash in tables.keys && !tables.keys[hash].revoked ==>
        var key := KeyFromItem(tables.keys[hash]);
        var read: Result<Option<Account>, StoreError> :=
          if accountFails then Err(Storage(Fault)) else AccountById(tables, key.accountId);
        match read
        case Err(e) => r == Err(e)
        case Ok(None) => r == Err(Storage(OrphanKey))
        case Ok(Some(account)) =>
          r.Err? <==> account.balance < cost || (key.capped && key.capRemaining.value < cost)
      ensures r.Err? ==> r.error != Storage(NoAdmissionReason)
    {
      var found := ReadKey(hash, keyFails);
      if found.Err? { return Err(found.error); }
      if found.value.None? || found.value.value.revoked { return Err(Unauthorized); }
      var key := found.value.value;
      var account := ReadAccount(key.accountId, accountFails);
      if account.Err? { return Err(account.error); }
      if account.value.None? { return Err(Storage(OrphanKey)); }
      var denied := Denial(account.value.value, key, cost);
      if denied.Some? { return Err(denied.value); }
      return Ok(key);
    }

    /** With no trouble, a positive cost, and tables without orphan keys or unreadable numbers, a debit is the atomic
        ledger's debit, result and all. Whatever happens, it writes the debit transaction or nothing at all, and it
        reports "no admission reason" exactly when a conflict cancels a debit that both readings admit. */
    method Debit(hash: SecretHash, cost: u64, trouble: Trouble, failing: set<nat>)
      returns (r: Result<DebitReceipt, StoreError>)
      modifies this
      ensures cost == 0 ==> r == Err(Storage(ZeroCost)) && tables == old(tables)
      ensures cost > 0 && 0 in failing ==> r == Err(Storage(Fault))
      ensures r.Err? && trouble != NoAnswer(true) ==> tables == old(tables)
      ensures tables != old(tables) ==> DebitOf(old(tables), hash, cost).Some?
      ensures tables != old(tables) ==> tables == DebitOf(old(tables), hash, cost).value.0
      ensures r.Ok? ==> trouble.Fine? && cost > 0 && DebitOf(old(tables), hash, cost) == Some((tables, r.value))
      ensures cost > 0 && 0 !in failing && 1 !in failing && IsOrphan(old(tables), hash) ==> r == Err(Storage(OrphanKey))
      ensures r == Err(Storage(NoAdmissionReason)) ==> trouble.Conflict?
      ensures old(RowsOk(tables)) && (r.Ok? || tables != old(tables)) ==>
        var (after, receipt) := MemDebit(old(View(tables)), hash, cost);
        receipt.Ok? && View(tables) == after && (r.Ok? ==> r == receipt)
      ensures cost > 0 && failing == {} && old(RowsOk(tables) && Readable(tables)) ==>
        var (after, result) := MemDebit(old(View(tables)), hash, cost);
        if trouble.Fine? then View(tables) == after && r == result
        else if result.Err? then r == result
        else r == Err(Storage(if trouble.Conflict? then NoAdmissionReason else Fault))
    {
      hide MemDebit, DebitTx, RowsOk, Readable;
      if cost == 0 { return Err(Storage(ZeroCost)); }
      var admitted := Admit(hash, cost, 0 in failing, 1 in failing);
      if admitted.Err? {
        DeniedDebitWritesNothing(tables, hash, cost);
        return Err(admitted.error);
      }
      var key := admitted.value;
      if RowsOk(tables) { CommittedDebitIsAtomic(tables, hash, cost, key.accountId, key.capped); }
      var answer := Transact(DebitTx(tables, key.accountId, hash, cost, key.capped), trouble);
      if answer.Unanswered? { return Err(Storage(Fault)); }
      if answer.Cancelled? {
        var again := Admit(hash, cost, 2 in failing, 3 in failing);
        return Err(if again.Err? then again.error else Storage(NoAdmissionReason));
      }
      return Ok(DebitReceipt(hash, key.accountId, cost, key.capped));
    }

    /** One transaction, all or nothing; every failure reads as a storage error. */
    method Refund(receipt: DebitReceipt, trouble: Trouble) returns (r: Result<(), StoreError>)
      modifies this
      ensures r.Ok? <==> trouble.Fine? && RefundTx(old(tables), receipt).Some?
      ensures r.Err? ==> r.error == Storage(Fault)
      ensures r.Ok? ==> Some(tables) == RefundTx(old(tables), receipt)
      ensures tables != old(tables) ==> Some(tables) == RefundTx(old(tables), receipt)
      ensures tables != old(tables) ==> r.Ok? || trouble == NoAnswer(true)
    {
      var answer := Transact(RefundTx(tables, receipt), trouble);
      return if answer.Written? then Ok(()) else Err(Storage(Fault));
    }

    method BalanceAt(account: AccountId, fails: bool) returns (r: Result<nat, StoreError>)
      ensures r == if fails then Err(Storage(Fault)) else BalanceOf(tables, account)
    {
      var read := ReadAccount(account, fails);
      if read.Err? { return Err(read.error); }
      return if read.value.None? then Err(NotFound) else Ok(read.value.value.balance);
    }

    /** Only the nonce decides whether there is a balance to report, whoever the receipt names. */
    method CreditedBalance(account: AccountId, nonce: Nonce, receiptFails: bool, balanceFails: bool)
      returns (r: Result<Option<nat>, StoreError>)
      ensures r == if receiptFails || (balanceFails && nonce in tables.receipts) then Err(Storage(Fault))
                   else CreditedBalanceOf(tables, account, nonce)
    {
      if receiptFails { return Err(Storage(Fault)); }
      if nonce !in tables.receipts { return Ok(None); }
      var balance := BalanceAt(account, balanceFails);
      return if balance.Ok? then Ok(Some(balance.value)) else Err(balance.error);
    }

    /** With no trouble and readable numbers a credit is the atomic ledger's credit. Whatever happens, it writes that
        credit or nothing at all, and an answer that is not an error means that the receipt is there. */
    method Credit(account: AccountId, invokes: nat, nonce: Nonce, w: Weather)
      returns (r: Result<CreditOutcome, StoreError>)
      modifies this
      ensures (invokes == 0 || nonce == "") ==> r == Err(Storage(EmptyCredit)) && tables == old(tables)
      ensures invokes > 0 && nonce != "" ==>
        tables == if Lands(w) && CreditTx(old(tables), account, invokes, nonce).Some?
                  then CreditTx(old(tables), account, invokes, nonce).value else old(tables)
      ensures invokes > 0 && nonce != "" && w == Weather(Fine, false, false) && Readable(tables) ==>
        (View(tables), r) == MemCredit(old(View(tables)), account, invokes, nonce)
      ensures r.Ok? ==> nonce in tables.receipts && account in tables.accounts && tables.accounts[account] <= U64_MAX
      ensures r.Ok? ==> r.value == if nonce in old(tables).receipts then Replay(tables.accounts[account])
                                   else Applied(tables.accounts[account])
      ensures IsNew(old(tables), account, invokes, nonce) && Lands(w) ==>
        (w.trouble.NoAnswer? || w.balanceReadFails ==> r == Err(Storage(Fault)))
      ensures IsNew(old(tables), account, invokes, nonce) && !Lands(w) ==>
        (if Retried(w) then r == Err(Storage(Fault)) else r == Err(NotFound))
      ensures r.Err? ==> r.error.Storage? || r.error.NotFound?
      ensures r == Err(NotFound) && account in old(tables).accounts ==> !Lands(w) && !Retried(w)
    {
      if invokes == 0 || nonce == "" { return Err(Storage(EmptyCredit)); }
      CreditIsAtomic(tables, account, invokes, nonce);
      var answer := Transact(CreditTx(tables, account, invokes, nonce), w.trouble);
      match answer
      case Written =>
        var balance := BalanceAt(account, w.balanceReadFails);
        return if balance.Ok? then Ok(Applied(balance.value)) else Err(balance.error);
      case Cancelled =>
        if w.receiptReadFails { return Err(Storage(Fault)); }
        if nonce !in tables.receipts { return Err(NotFound); }
        var balance := BalanceAt(account, w.balanceReadFails);
        return if balance.Ok? then Ok(Replay(balance.value)) else Err(balance.error);
      case Unanswered =>
        return Err(Storage(Fault));
    }

    /** The retry loop behind a settled payment. At most three calls, at most one credit, and a success means that
        the receipt is there. The credit of a new nonce reaches the tables exactly when the weather lets it survive:
        a conflict whose receipt read succeeds is not retried. */
    method CreditSettled(account: AccountId, invokes: nat, nonce: Nonce, weather: seq<Weather>)
      returns (r: Result<nat, StoreError>, calls: nat)
      requires |weather| == CREDIT_ATTEMPTS
      modifies this
      ensures 1 <= calls <= CREDIT_ATTEMPTS
      ensures tables == old(tables) || Some(tables) == CreditTx(old(tables), account, invokes, nonce)
      ensures r.Ok? ==> nonce in tables.receipts && account in tables.accounts && r.value == tables.accounts[account]
      ensures r.Err? ==> r.error.Storage? || r.error.NotFound?
      ensures IsNew(old(tables), account, invokes, nonce) ==> (nonce in tables.receipts <==> Survives(weather))
    {
      var attempt := 0;
      while true
        invariant attempt < CREDIT_ATTEMPTS
        invariant tables == old(tables) || Some(tables) == CreditTx(old(tables), account, invokes, nonce)
        invariant IsNew(old(tables), account, invokes, nonce) && tables == old(tables) ==>
          (Survives(weather) <==> Survives(weather[attempt..]))
        invariant tables != old(tables) ==> Survives(weather)
        decreases CREDIT_ATTEMPTS - attempt
      {
        var w := weather[attempt];
        assert weather[attempt..][1..] == weather[attempt + 1..];
        attempt := attempt + 1;
        var outcome := Credit(account, invokes, nonce, w);
        match outcome
        case Ok(o) => return Ok(o.balance), attempt;
        case Err(e) =>
          if !(e.Storage? && attempt < CREDIT_ATTEMPTS) { return Err(e), attempt; }
      }
    }
  }

  lemma DeniedDebitWritesNothing(t: Tables, hash: SecretHash, cost: u64)
    ensures MemDebit(View(t), hash, cost).1.Err? ==> MemDebit(View(t), hash, cost).0 == View(t)
  {
  }

  /** A settled payment is not always credited: one spurious conflict, and the other two attempts are not made. */
  lemma OneConflictDropsTheCredit()
    ensures !Survives([Weather(Conflict, false, false), Weather(Fine, false, false), Weather(Fine, false, false)])
  {
  }

  /** The credit survives exactly when some attempt lands and every attempt before it is one that is retried. */
  lemma {:induction false} SurvivesExactly(weather: seq<Weather>)
    ensures Survives(weather)
       <==> exists k :: 0 <= k < |weather| && Lands(weather[k]) && forall j :: 0 <= j < k ==> Retried(weather[j])
  {
    if weather != [] && !Lands(weather[0]) {
      var rest := weather[1..];
      SurvivesExactly(rest);
      if Retried(weather[0]) && Survives(rest) {
        var k :| 0 <= k < |rest| && Lands(rest[k]) && forall j :: 0 <= j < k ==> Retried(rest[j]);
        assert Lands(weather[k + 1]) && forall j :: 0 <= j < k + 1 ==> Retried(weather[j]);
      }
      if k :| 0 <= k < |weather| && Lands(weather[k]) && forall j :: 0 <= j < k ==> Retried(weather[j]) {
        assert Lands(rest[k - 1]) && forall j :: 0 <= j < k - 1 ==> rest[j] == weather[j + 1];
      }
    }
  }

  /** On tables without orphans a refund puts back exactly what the debit took, cap included. */
  lemma RefundRestoresTables(t: Tables, account: AccountId, hash: SecretHash, cost: u64, capped: bool)
    requires RowsOk(t) && DebitTx(t, account, hash, cost, capped).Some?
    ensures var receipt := DebitReceipt(hash, account, cost, capped);
            RefundTx(DebitTx(t, account, hash, cost, capped).value, receipt) == Some(t)
  {
    var receipt := DebitReceipt(hash, account, cost, capped);
    var after := RefundTx(DebitTx(t, account, hash, cost, capped).value, receipt).value;
    assert after.accounts == t.accounts && after.keys == t.keys;
  }
}

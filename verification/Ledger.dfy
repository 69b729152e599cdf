/** The invoke-credit ledger: rows, reads and conditional writes of the three tables, and the atomic in-memory
    ledger that the conditional writes have to match. */
module Ledger {
  import opened Wrappers
  import opened Results

  type AccountId = nat
  type SecretHash = nat
  type KeyId = nat
  type Nonce = string

  datatype Account = Account(id: AccountId, balance: u64)

  datatype KeyRecord = KeyRecord(secretHash: SecretHash, accountId: AccountId, keyId: KeyId,
                                 revoked: bool, capped: bool, capRemaining: Option<nat>)

  datatype Receipt = Receipt(accountId: AccountId, invokes: nat)

  datatype DebitReceipt = DebitReceipt(secretHash: SecretHash, accountId: AccountId, cost: u64, capped: bool)

  datatype CreditOutcome = Applied(balance: nat) | Replay(balance: nat)

  datatype Cause = Fault | ZeroCost | OrphanKey | NoAdmissionReason | EmptyCredit | AlreadyExists | NotAnInteger

  datatype StoreError =
    | Unauthorized
    | NotFound
    | Insufficient(accountId: AccountId, balance: nat, cost: nat, spendCapRemaining: Option<nat>)
    | Storage(cause: Cause)

  /** The stored items. A DynamoDB number is unbounded here; whoever reads it back needs it to fit into 64 bits. */
  datatype Tables = Tables(accounts: map<AccountId, nat>, keys: map<SecretHash, KeyRecord>,
                           receipts: map<Nonce, Receipt>)

  const EMPTY := Tables(map[], map[], map[])

  // ----- Reads ---------------------------------------------------------------------------

  /** A key row as `key_from_item` decodes it: an unreadable cap counts as an exhausted one. */
  function KeyFromItem(row: KeyRecord): KeyRecord {
    var cap := if row.capRemaining.Some? && row.capRemaining.value <= U64_MAX then row.capRemaining.value else 0;
    row.(capRemaining := if row.capped then Some(cap) else None)
  }

  function KeyByHash(t: Tables, hash: SecretHash): Option<KeyRecord> {
    if hash in t.keys then Some(KeyFromItem(t.keys[hash])) else None
  }

  function AccountById(t: Tables, id: AccountId): Result<Option<Account>, StoreError> {
    if id !in t.accounts then Ok(None)
    else if t.accounts[id] > U64_MAX then Err(Storage(NotAnInteger))
    else Ok(Some(Account(id, t.accounts[id])))
  }

  function BalanceOf(t: Tables, id: AccountId): Result<nat, StoreError> {
    var account :- AccountById(t, id);
    if account.None? then Err(NotFound) else Ok(account.value.balance)
  }

  function Denial(account: Account, key: KeyRecord, cost: nat): Option<StoreError> {
    var capShort := key.capped && key.capRemaining.GetOr(0) < cost;
    if account.balance < cost || capShort then
      Some(Insufficient(account.id, account.balance, cost,
                        if key.capped then Some(key.capRemaining.GetOr(0)) else None))
    else None
  }

  // ----- Conditional writes: `None` when a condition fails, and then nothing is written ----

  function DebitTx(t: Tables, account: AccountId, hash: SecretHash, cost: u64, capped: bool): Option<Tables> {
    if account !in t.accounts || t.accounts[account] < cost || hash !in t.keys then None
    else
      var row := t.keys[hash];
      var accounts := t.accounts[account := t.accounts[account] - cost];
      if row.revoked || row.capped != capped then None
      else if capped then
        if row.capRemaining.None? || row.capRemaining.value < cost then None
        else
          var spent := row.(capRemaining := Some(row.capRemaining.value - cost));
          Some(t.(accounts := accounts, keys := t.keys[hash := spent]))
      else Some(t.(accounts := accounts, keys := t.keys[hash := row.(revoked := false)]))
  }

  function RefundTx(t: Tables, r: DebitReceipt): Option<Tables> {
    if r.accountId !in t.accounts then None
    else
      var accounts := t.accounts[r.accountId := t.accounts[r.accountId] + r.cost];
      if !r.capped then Some(t.(accounts := accounts))
      else if r.secretHash !in t.keys then None
      else
        var row := t.keys[r.secretHash];
        if !row.capped || row.capRemaining.None? then None
        else Some(t.(accounts := accounts,
                     keys := t.keys[r.secretHash := row.(capRemaining := Some(row.capRemaining.value + r.cost))]))
  }

  function CreditTx(t: Tables, account: AccountId, invokes: nat, nonce: Nonce): Option<Tables> {
    if account !in t.accounts || nonce in t.receipts then None
    else Some(t.(accounts := t.accounts[account := t.accounts[account] + invokes],
                 receipts := t.receipts[nonce := Receipt(account, invokes)]))
  }

  function CreateTx(t: Tables, account: Account, key: KeyRecord): Option<Tables> {
    if account.id in t.accounts || key.secretHash in t.keys then None
    else Some(t.(accounts := t.accounts[account.id := account.balance], keys := t.keys[key.secretHash := key]))
  }

  function PutKeyTx(t: Tables, key: KeyRecord): Option<Tables> {
    if key.secretHash in t.keys then None else Some(t.(keys := t.keys[key.secretHash := key]))
  }

  function RevokeTx(t: Tables, account: AccountId, hash: SecretHash): Option<Tables> {
    if hash !in t.keys || t.keys[hash].accountId != account then None
    else Some(t.(keys := t.keys[hash := t.keys[hash].(revoked := true)]))
  }

  // ----- Issuing and authorising keys ------------------------------------------------------

  function NewKey(hash: SecretHash, account: AccountId, keyId: KeyId, spendCap: Option<u64>): KeyRecord {
    KeyRecord(hash, account, keyId, false, spendCap.Some?, spendCap)
  }

  predicate AuthorizeAdditionalKey(account: AccountId, presented: Option<KeyRecord>) {
    presented.Some? && !presented.value.revoked && !presented.value.capped && presented.value.accountId == account
  }

  // ----- The atomic ledger -----------------------------------------------------------------

  datatype MemTables = MemTables(accounts: map<AccountId, nat>, keys: map<SecretHash, KeyRecord>,
                                 receipts: map<Nonce, nat>)

  function View(t: Tables): MemTables {
    MemTables(t.accounts, t.keys, map n | n in t.receipts :: t.receipts[n].invokes)
  }

  function MemDebit(m: MemTables, hash: SecretHash, cost: u64): (MemTables, Result<DebitReceipt, StoreError>) {
    if hash !in m.keys || m.keys[hash].revoked then (m, Err(Unauthorized))
    else
      var key := m.keys[hash];
      if key.accountId !in m.accounts then (m, Err(NotFound))
      else
        var balance, cap := m.accounts[key.accountId], key.capRemaining.GetOr(0);
        if balance < cost || (key.capped && cap < cost) then
          (m, Err(Insufficient(key.accountId, balance, cost, if key.capped then Some(cap) else None)))
        else
          (m.(accounts := m.accounts[key.accountId := balance - cost],
              keys := if key.capped then m.keys[hash := key.(capRemaining := Some(cap - cost))] else m.keys),
           Ok(DebitReceipt(hash, key.accountId, cost, key.capped)))
  }

  function MemRefund(m: MemTables, r: DebitReceipt): (MemTables, Result<(), StoreError>) {
    if r.accountId !in m.accounts then (m, Err(NotFound))
    else
      var raised := m.(accounts := m.accounts[r.accountId := m.accounts[r.accountId] + r.cost]);
      if !r.capped then (raised, Ok(()))
      else if r.secretHash !in m.keys then (raised, Err(NotFound))
      else
        var key := m.keys[r.secretHash];
        var refilled := key.(capRemaining := Some(key.capRemaining.GetOr(0) + r.cost));
        (raised.(keys := m.keys[r.secretHash := refilled]), Ok(()))
  }

  function MemCredit(m: MemTables, account: AccountId, invokes: nat, nonce: Nonce):
    (MemTables, Result<CreditOutcome, StoreError>)
  {
    if account !in m.accounts then (m, Err(NotFound))
    else if nonce in m.receipts then (m, Ok(Replay(m.accounts[account])))
    else
      var balance := m.accounts[account] + invokes;
      (m.(accounts := m.accounts[account := balance], receipts := m.receipts[nonce := invokes]), Ok(Applied(balance)))
  }

  // ----- Well-formed tables ------------------------------------------------------------------

  /** No key without its account, and a cap is stored for exactly the capped keys. */
  ghost predicate RowsOk(t: Tables) {
    forall h <- t.keys :: var row := t.keys[h];
      row.secretHash == h && row.accountId in t.accounts && (row.capped <==> row.capRemaining.Some?)
  }

  /** Every stored number can be read back. */
  ghost predicate Readable(t: Tables) {
    && (forall a <- t.accounts :: t.accounts[a] <= U64_MAX)
    && forall h <- t.keys :: t.keys[h].capRemaining.Some? ==> t.keys[h].capRemaining.value <= U64_MAX
  }

  /** The atomic debit, case by case: who is turned away and with which figures, and what a grant takes. */
  lemma MemDebitExactly(m: MemTables, hash: SecretHash, cost: u64)
    ensures var (after, r) := MemDebit(m, hash, cost);
            var usable := hash in m.keys && !m.keys[hash].revoked;
            && (r == Err(Unauthorized) <==> !usable)
            && (r == Err(NotFound) <==> usable && m.keys[hash].accountId !in m.accounts)
            && (r.Err? ==> after == m)
            && (usable && m.keys[hash].accountId in m.accounts ==>
                var key := m.keys[hash]; var balance := m.accounts[key.accountId];
                var cap := if key.capRemaining.Some? then key.capRemaining.value else 0;
                var short := balance < cost || (key.capped && cap < cost);
                && (r.Ok? <==> !short)
                && (short ==>
                    r == Err(Insufficient(key.accountId, balance, cost, if key.capped then Some(cap) else None)))
                && (!short ==>
                    && after.accounts[key.accountId] + cost == balance
                    && (forall a <- m.accounts :: a != key.accountId ==>
                          a in after.accounts && after.accounts[a] == m.accounts[a])
                    && after.accounts.Keys == m.accounts.Keys && after.receipts == m.receipts
                    && hash in after.keys && after.keys == m.keys[hash := after.keys[hash]]
                    && (key.capped ==> after.keys[hash] == key.(capRemaining := Some(cap - cost)))
                    && (!key.capped ==> after.keys[hash] == key)
                    && r == Ok(DebitReceipt(hash, key.accountId, cost, key.capped))))
  {
    if hash in m.keys { assert m.keys[hash := m.keys[hash]] == m.keys; }
  }

  /** A debit that commits changes the tables exactly as the atomic debit does, and earns the same receipt. */
  lemma CommittedDebitIsAtomic(t: Tables, hash: SecretHash, cost: u64, account: AccountId, capped: bool)
    requires RowsOk(t) && DebitTx(t, account, hash, cost, capped).Some?
    requires t.keys[hash].accountId == account
    ensures MemDebit(View(t), hash, cost)
         == (View(DebitTx(t, account, hash, cost, capped).value), Ok(DebitReceipt(hash, account, cost, capped)))
  {
    var row := t.keys[hash];
    if !capped { assert t.keys[hash := row.(revoked := false)] == t.keys; }
  }

  /** The transaction commits exactly when the atomic ledger would grant the debit. */
  lemma DebitCommitsWhenAdmitted(t: Tables, hash: SecretHash, cost: u64)
    requires RowsOk(t) && hash in t.keys
    ensures DebitTx(t, t.keys[hash].accountId, hash, cost, t.keys[hash].capped).Some?
       <==> MemDebit(View(t), hash, cost).1.Ok?
  {
  }

  /** Refunding a receipt (its cost is positive) agrees with the atomic ledger exactly when a capped receipt finds
      its capped key: otherwise the transaction writes nothing, while the atomic ledger has already raised the
      balance or gives a cap to an uncapped key. */
  lemma RefundIsAtomicExactly(t: Tables, r: DebitReceipt)
    requires RowsOk(t) && r.cost > 0
    ensures (MemRefund(View(t), r) ==
               match RefundTx(t, r)
               case Some(after) => (View(after), Ok(()))
               case None => (View(t), Err(NotFound)))
       <==> (r.accountId in t.accounts && r.capped ==> r.secretHash in t.keys && t.keys[r.secretHash].capped)
  {
    if r.accountId in t.accounts {
      var raised := t.accounts[r.accountId := t.accounts[r.accountId] + r.cost];
      assert raised[r.accountId] == t.accounts[r.accountId] + r.cost;
    }
  }

  lemma CreditIsAtomic(t: Tables, account: AccountId, invokes: nat, nonce: Nonce)
    ensures MemCredit(View(t), account, invokes, nonce) ==
      match CreditTx(t, account, invokes, nonce)
      case Some(after) => (View(after), Ok(Applied(after.accounts[account])))
      case None =>
        (View(t), if account in t.accounts then Ok(Replay(t.accounts[account])) else Err(NotFound))
  {
    if CreditTx(t, account, invokes, nonce).Some? {
      var after := CreditTx(t, account, invokes, nonce).value;
      assert View(after).receipts == View(t).receipts[nonce := invokes];
    }
  }
}

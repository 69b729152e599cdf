/** The in-memory ledger: three hash maps behind a mutex, updated in place. It is the atomic reference for the
    ledger's conditional writes. */
module MemLedger {
  import opened Wrappers
  import opened Results
  import opened Ledger

  predicate IsKey(row: KeyRecord, account: AccountId, keyId: KeyId) { row.accountId == account && row.keyId == keyId }

  class MemLedger {
    var accounts: map<AccountId, nat>
    var keys: map<SecretHash, KeyRecord>
    var receipts: map<Nonce, nat>

    ghost function Contents(): MemTables
      reads this
    {
      MemTables(accounts, keys, receipts)
    }

    constructor ()
      ensures Contents() == View(EMPTY)
    {
      accounts, keys, receipts := map[], map[], map[];
    }

    /** Unlike the store's `create` this overwrites rows that are already there. */
    method Create(account: Account, key: KeyRecord)
      modifies this
      ensures accounts == old(accounts)[account.id := account.balance]
      ensures keys == old(keys)[key.secretHash := key]
      ensures receipts == old(receipts)
    {
      accounts := accounts[account.id := account.balance];
      keys := keys[key.secretHash := key];
    }

    method PutKey(key: KeyRecord)
      modifies this`keys
      ensures keys == old(keys)[key.secretHash := key]
    {
      keys := keys[key.secretHash := key];
    }

    /** Some key with this account and id is revoked, whichever the hash map yields first. */
    method Revoke(account: AccountId, keyId: KeyId) returns (r: Result<(), StoreError>)
      modifies this`keys
      ensures r.Err? <==> forall h <- old(keys) :: !IsKey(old(keys)[h], account, keyId)
      ensures r.Err? ==> r.error == NotFound && keys == old(keys)
      ensures r.Ok? ==> exists h <- old(keys) ::
        IsKey(old(keys)[h], account, keyId) && keys == old(keys)[h := old(keys)[h].(revoked := true)]
    {
      if h :| h in keys && IsKey(keys[h], account, keyId) {
        keys := keys[h := keys[h].(revoked := true)];
        return Ok(());
      }
      return Err(NotFound);
    }

    method Debit(hash: SecretHash, cost: u64) returns (r: Result<DebitReceipt, StoreError>)
      modifies this
      ensures (Contents(), r) == MemDebit(old(Contents()), hash, cost)
    {
      if hash !in keys { return Err(Unauthorized); }
      var key := keys[hash];
      if key.revoked { return Err(Unauthorized); }
      if key.accountId !in accounts { return Err(NotFound); }
      var balance := accounts[key.accountId];
      var capShort := key.capped && key.capRemaining.GetOr(0) < cost;
      if balance < cost || capShort {
        return Err(Insufficient(key.accountId, balance, cost,
                                if key.capped then Some(key.capRemaining.GetOr(0)) else None));
      }
      accounts := accounts[key.accountId := balance - cost];
      if key.capped {
        keys := keys[hash := keys[hash].(capRemaining := Some(keys[hash].capRemaining.GetOr(0) - cost))];
      }
      return Ok(DebitReceipt(hash, key.accountId, cost, key.capped));
    }

    method Refund(receipt: DebitReceipt) returns (r: Result<(), StoreError>)
      modifies this
      ensures (Contents(), r) == MemRefund(old(Contents()), receipt)
    {
      if receipt.accountId !in accounts { return Err(NotFound); }
      accounts := accounts[receipt.accountId := accounts[receipt.accountId] + receipt.cost];
      if receipt.capped {
        if receipt.secretHash !in keys { return Err(NotFound); }
        var key := keys[receipt.secretHash];
        keys := keys[receipt.secretHash := key.(capRemaining := Some(key.capRemaining.GetOr(0) + receipt.cost))];
      }
      return Ok(());
    }

    /** The nonce decides; an account that is not there reads as a nonce that is not there. */
    method CreditedBalance(account: AccountId, nonce: Nonce) returns (balance: Option<nat>)
      ensures balance.Some? <==> nonce in receipts && account in accounts
      ensures balance.Some? ==> balance.value == accounts[account]
    {
      if nonce !in receipts { return None; }
      return if account in accounts then Some(accounts[account]) else None;
    }

    method Credit(account: AccountId, invokes: nat, nonce: Nonce) returns (r: Result<CreditOutcome, StoreError>)
      modifies this
      ensures (Contents(), r) == MemCredit(old(Contents()), account, invokes, nonce)
    {
      if nonce in receipts {
        return if account in accounts then Ok(Replay(accounts[account])) else Err(NotFound);
      }
      if account !in accounts { return Err(NotFound); }
      accounts := accounts[account := accounts[account] + invokes];
      receipts := receipts[nonce := invokes];
      return Ok(Applied(accounts[account]));
    }
  }

  /** A refund undoes the debit that earned the receipt exactly when the key does not lack the cap it is
      marked as having. */
  lemma RefundUndoesDebit(m: MemTables, hash: SecretHash, cost: u64)
    requires MemDebit(m, hash, cost).1.Ok?
    ensures MemRefund(MemDebit(m, hash, cost).0, MemDebit(m, hash, cost).1.value) == (m, Ok(()))
       <==> !(m.keys[hash].capped && m.keys[hash].capRemaining.None?)
  {
    var key := m.keys[hash];
    var after := MemRefund(MemDebit(m, hash, cost).0, MemDebit(m, hash, cost).1.value).0;
    assert after.accounts == m.accounts;
    if key.capped {
      assert after.keys[hash].capRemaining.Some?;
      if key.capRemaining.Some? { assert after.keys == m.keys; }
    }
  }

  /** Crediting the same nonce again, for any account and amount, changes nothing. */
  lemma CreditIsIdempotent(m: MemTables, account: AccountId, invokes: nat, nonce: Nonce,
                           account': AccountId, invokes': nat)
    requires MemCredit(m, account, invokes, nonce).1.Ok?
    ensures var once := MemCredit(m, account, invokes, nonce).0;
            var again := MemCredit(once, account', invokes', nonce);
            again.0 == once && (again.1.Ok? ==> again.1.value == Replay(once.accounts[account']))
  {
  }
}

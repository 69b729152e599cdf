# Verified model of nitrum-fn

nitrum-fn publishes WebAssembly functions, runs them inside Nitro enclaves, charges invoke credits for the runs, and lets
a contract trust an attested price. This project models the parts where the order of steps, the bytes or the sums
matter, and proves what they keep. `dafny verify dfyconfig.toml` checks everything.

**Canonical price document.** `CanonicalPriceJson` holds the contract's parser and printer as loops, each proved to
compute a reference function; `CanonicalPriceJsonLaws` proves that parser and printer are inverse to each other, and
exactly where that stops: the checked step `value * 10 + c - 48` forms `value + 48` first, so the last 48 values of
`uint256` are printed but not read. `OracleGuest` is the enclave's own printer, which writes the same bytes.
`NitrumOracle` is the contract, with a history theorem over every sequence of calls.

**Invoke-credit ledger.** `Ledger` has the rows, the conditional transactions and the atomic functions that the in-memory
ledger (`MemLedger`) implements. `LedgerProtocol` interleaves any number of requests: a request is a program counter, a
read may see any earlier version of the tables, and a write commits, is refused (for its conditions or for a spurious
conflict), or loses its answer, applied or not. `LedgerInvariant` and `LedgerPreservation` carry the invariant through
every step. What follows in every run is in `LedgerTheorems` (money, caps and receipts), `LedgerCharges` (who pays),
`LedgerOutcomes` (what an invoke is told), `LedgerAnswers` (what every answer rests on) and `LedgerKeys` (where keys and
revocations come from); `LedgerAlone` has the steps of a request that nothing disturbs. `DynamoAccountStore` is the same store as a class,
used by one request at a time, against the atomic ledger; its `CreditSettled` is the retry loop. `InvokePipeline`
classifies the failures of an invoke, `GuestCall` is the copy into and out of guest memory, `Payments` the local check
of a payment.

**Publish and invoke.** `PublishProtocol` interleaves publishes over the lock table, the bucket and the catalog, with
time, expiry, takeover and lost answers; `PublishTheorems` states what survives and when the lock excludes.
`PublishFunction` is the use case as the code runs it, proved to take the protocol's steps. `ModuleCache` goes from a
catalog row to the module that runs.

**ABI and egress.** `WasmAbi` has both ABI checkers and proves that they agree on every valid binary; the function index
space is that of section 2.5.1, and the layout of sections that of section 5.5, of the WebAssembly Core Specification.
`Egress` has the origin normaliser, the allow list, its way through the catalog, and the check at fetch time;
`FunctionCatalog` is the whole catalog item.

Reference functions and loops are separate on purpose: a method's contract equates it with the reference function, and
the lemmas about that function say what the source promises.

## Where code and documentation disagree

The model follows the code.

- `credit_settled` is documented to keep a settled payment's credit through a transient store failure
  (crates/application/src/usecases/accounts.rs:162-164). A conflict that cancels the transaction while the receipt is not
  there reads as "not found", which is not retried: `OneConflictDropsTheCredit` is such a case, and `CreditSettled`
  with `SurvivesExactly` says exactly which sequences of failures are survived.
- `docs/architecture.md:208` promises that an artifact or compile failure refunds the debit, and
  crates/application/src/ports/account_store.rs:58 describes a refund as following a failure before the guest runs. That
  fails in three ways, and in every run in no other: `ChargedWithoutARunExactly` says that a finished invoke with an
  applied debit is charged without its guest having run if and only if the debit was applied but its answer lost, or the
  failure was not sent to the refund, or the refund did not go through. `RefusedRefundKeepsTheCharge` is a run of the
  last kind, for a module that does not compile. `SentToRefundExactly` says which failures are not sent (`ChargedUnrun`):
  an oversized object, a poisoned module cache, a task lost early, an oversized input, a linker failure, an
  instantiation that fails outside the start function (on a memory limit, for example), and, without a start function,
  memory with no room for the input or a missing export. The other direction always holds: nothing refunded has run.
- `credited_balance` is documented as "already credited to `account_id`"
  (crates/application/src/ports/account_store.rs:61-62); the store looks the nonce up alone.
  `CreditedBalanceIsDocumentedExactly` says when the answer is the documented one, and `CreditAnswersForAnotherAccount`
  is a whole run in which a request for an account is told "credited" on the receipt of another.
- `normalize_egress_allow` checks the cap before it looks for a duplicate, so eight origins and a repetition are refused
  (`RepeatAfterEightIsRejected`); `Normalized` gives the exact condition.
- The lock has a TTL so that a crashed publish cannot block a name forever (crates/catalog/src/publish_lock.rs:13), and a
  release compares only the content hash. `LockWorksExactly` says for every run when that is enough: every publish that
  is between acquire and release and in time holds the lock at every moment if and only if no release finds another
  such publish of the same name and bytes. `SameHashBreaksExclusion` is a run where one does.

## Model

| member | source | states |
|---|---|---|
| CanonicalPriceJson.ExpectBytes | examples/oracle/contracts/src/CanonicalPriceJson.sol:151-157 | advances past the needle exactly when it stands at the position, and rejects otherwise |
| CanonicalPriceJson.ParseQuotedString | examples/oracle/contracts/src/CanonicalPriceJson.sol:119-135 | reads the longest run of id characters between quotes, and rejects an empty, unclosed or foreign one |
| CanonicalPriceJson.CheckedStep | examples/oracle/contracts/src/CanonicalPriceJson.sol:145 | the checked arithmetic succeeds exactly while the number stays 48 below the maximum of `uint256`, and then adds the digit |
| CanonicalPriceJson.ParseUint | examples/oracle/contracts/src/CanonicalPriceJson.sol:137-149 | reads the value of the whole run of digits; no leading zero, and a panic above the readable maximum |
| CanonicalPriceJson.PreScan | examples/oracle/contracts/src/CanonicalPriceJson.sol:72-78 | stops at the first `]` and counts one more than the commas before it |
| CanonicalPriceJson.FillStrings | examples/oracle/contracts/src/CanonicalPriceJson.sol:80-87 | fills the array in place with exactly as many ids as it has room for, separated by single commas |
| CanonicalPriceJson.ParseStringArray | examples/oracle/contracts/src/CanonicalPriceJson.sol:61-88 | equals the reference array reader for quoted ids |
| CanonicalPriceJson.FillUints | examples/oracle/contracts/src/CanonicalPriceJson.sol:109-116 | fills the array in place with exactly as many prices as it has room for |
| CanonicalPriceJson.ParseUintArray | examples/oracle/contracts/src/CanonicalPriceJson.sol:90-117 | equals the reference array reader for numbers |
| CanonicalPriceJson.ParseBody | examples/oracle/contracts/src/CanonicalPriceJson.sol:15-25 | equals the reference parser, error cases included |
| CanonicalPriceJson.CountDigits | examples/oracle/contracts/src/CanonicalPriceJson.sol:46-51 | counts the digits of the decimal numeral |
| CanonicalPriceJson.FillDigits | examples/oracle/contracts/src/CanonicalPriceJson.sol:52-57 | fills the buffer from the back with exactly the numeral |
| CanonicalPriceJson.UintToString | examples/oracle/contracts/src/CanonicalPriceJson.sol:44-59 | prints the canonical numeral, zero included |
| CanonicalPriceJson.Encode | examples/oracle/contracts/src/CanonicalPriceJson.sol:27-42 | prints the document of the ids and prices, or reverts on unequal lengths and on no ids |
| Decimal.NumeralReadsBack | examples/oracle/contracts/src/CanonicalPriceJson.sol:44-59 | a printed numeral has no leading zero and reads back as the number |
| Decimal.NumeralIsCanonical | examples/oracle/contracts/src/CanonicalPriceJson.sol:137-149 | a digit string without leading zero is the numeral of its value |
| Text.TrimIsTheCore | crates/payments/src/lib.rs:156-158 | trimming gives the one core of a string without outer white space |
| Text.EqIgnoresExactlyCase | crates/domain/src/function.rs:96 | the comparison ignores the case of ASCII letters and nothing else |
| CanonicalPriceJsonLaws.ReadArrayIsComplete | examples/oracle/contracts/src/CanonicalPriceJson.sol:61-117 | for every printed array the comma count equals the number of elements, and exactly those elements are read |
| CanonicalPriceJsonLaws.ParseIsSound | examples/oracle/contracts/src/CanonicalPriceJson.sol:15-42 | whatever the parser accepts is byte for byte the document of the payload it returns |
| CanonicalPriceJsonLaws.ParseOfDocument | examples/oracle/contracts/src/CanonicalPriceJson.sol:15-42 | the verdict on every document of valid ids: the payload, a length error, an empty list, or a panic on a price above the bound |
| CanonicalPriceJsonLaws.ParseAcceptsExactlyDocuments | examples/oracle/contracts/src/CanonicalPriceJson.sol:15-42 | the accepted bytes are exactly the documents of equally many prices below the bound and non-empty ids over the literal alphabet |
| CanonicalPriceJsonLaws.RoundTrip | examples/oracle/contracts/src/CanonicalPriceJson.sol:15-158 | parsing undoes printing exactly when the ids are valid and every price is at most 2^256 - 49 |
| CanonicalPriceJsonLaws.IdsArePlain | examples/oracle/contracts/src/CanonicalPriceJson.sol:124-126 | the characters an id may have are exactly those of a literal alphabet |
| CanonicalPriceJsonLaws.SingleIdExactly | examples/oracle/contracts/src/CanonicalPriceJson.sol:15-135 | whatever bytes are printed as one id, the document is accepted exactly if they are a non-empty string over the alphabet |
| CanonicalPriceJsonLaws.UpperCaseIdIsRefused | examples/oracle/contracts/src/CanonicalPriceJson.sol:124-126 | an upper-case id is refused |
| CanonicalPriceJsonLaws.ExampleDocument | examples/oracle/contracts/src/CanonicalPriceJson.sol:27-42 | the document of two ids and prices, byte for byte |
| CanonicalPriceJsonLaws.SinglePrice | examples/oracle/contracts/src/CanonicalPriceJson.sol:145 | a document of one price is accepted exactly up to the maximum of `uint256` less 48 |
| CanonicalPriceJsonLaws.DocumentsAreUnambiguous | examples/oracle/contracts/src/CanonicalPriceJson.sol:27-42 | two well-formed payloads never share a document |
| CanonicalPriceJsonLaws.LargestPriceDoesNotRoundTrip | examples/oracle/contracts/src/CanonicalPriceJson.sol:145 | the largest `uint256` is printed, and the parser panics on it |
| OracleGuest.EncodeCanonical | examples/oracle/enclave/src/lib.rs:70-90 | the guest prints the same document as the contract |
| OracleGuest.Handler | examples/oracle/enclave/src/lib.rs:29-67 | succeeds exactly when every id is over the alphabet and quoted, `btc` as `bitcoin`, `eth` as `ethereum` and any other by its own name; then the contract's parser gives back the requested ids and those prices |
| OracleGuest.MapIdExactly | examples/oracle/enclave/src/lib.rs:113-119 | the alias of an id names the quote that the response must carry |
| OracleGuest.SafeIdsArePlain | examples/oracle/enclave/src/lib.rs:96-101 | the guest's ids are the non-empty strings over the literal alphabet |
| OracleGuest.GuestAndContractAgreeOnIds | examples/oracle/enclave/src/lib.rs:96-101 | the contract accepts the document of a single id exactly if the guest would print it |
| OracleGuest.GuestDocumentIsRead | examples/oracle/enclave/src/lib.rs:70-101 | every document the guest can print is parsed back to its ids and prices |
| NitrumOracle.Contract.constructor | examples/oracle/contracts/src/NitrumOracle.sol:63-70 | a fresh contract has no pins, no prices and the sender as owner |
| NitrumOracle.Contract.SetEnclave | examples/oracle/contracts/src/NitrumOracle.sol:75-81 | the whole new state and the reason of a revert; only the owner sets pins, and never to zero |
| NitrumOracle.Contract.TransferOwnership | examples/oracle/contracts/src/NitrumOracle.sol:83-87 | the whole new state and the reason of a revert |
| NitrumOracle.Contract.UpdatePrice | examples/oracle/contracts/src/NitrumOracle.sol:90-118 | the first check that fails is the reason and then nothing changes; otherwise the timestamp and every entry of the body in order are stored |
| NitrumOracle.Contract.Write | examples/oracle/contracts/src/NitrumOracle.sol:112-117 | the loop stores all prices and stamps, the last entry of an id winning |
| NitrumOracle.Contract.GetPrice | examples/oracle/contracts/src/NitrumOracle.sol:121-125 | the stored price, or failure for an id never written |
| NitrumOracle.Contract.GetPriceData | examples/oracle/contracts/src/NitrumOracle.sol:128-132 | the stored price and stamp, or failure |
| NitrumOracle.Contract.HasPrice | examples/oracle/contracts/src/NitrumOracle.sol:135-137 | agrees with `getPriceData` on which ids were written |
| NitrumOracle.UpdateIsAcceptedExactly | examples/oracle/contracts/src/NitrumOracle.sol:96-110 | the exact condition of an accepted update, and that `CanonicalBodyMismatch` is never the reason of a refusal |
| NitrumOracle.RefusalExactly | examples/oracle/contracts/src/NitrumOracle.sol:96-166 | the exact condition of every reason for which an update is refused before its body is parsed |
| NitrumOracle.OwnerCallsExactly | examples/oracle/contracts/src/NitrumOracle.sol:58-87 | pins and owner change exactly by the owner's calls with proper arguments, to those arguments, and updates leave them |
| NitrumOracle.PinsAndOwnerComeFromOwners | examples/oracle/contracts/src/NitrumOracle.sol:58-87 | over every history the pins are unset or were set together by the owner of that moment, and the owner was named by the owner of that moment |
| NitrumOracle.UpdateIsFaithful | examples/oracle/contracts/src/NitrumOracle.sol:112-117 | one accepted update keeps state and log of updates in agreement for every id |
| NitrumOracle.History | examples/oracle/contracts/src/NitrumOracle.sol:90-137 | over every sequence of calls accepted timestamps strictly increase, and both getters answer with the latest accepted update that names the id, or fail exactly when there was none |
| MemLedger.MemLedger.Create | crates/api/src/testutil.rs:29-34 | both rows are written, over whatever was there |
| MemLedger.MemLedger.PutKey | crates/api/src/testutil.rs:36-43 | the key row is written, over whatever was there |
| MemLedger.MemLedger.Revoke | crates/api/src/testutil.rs:45-54 | one key with this account and id is revoked, or none exists and nothing changes |
| MemLedger.MemLedger.Debit | crates/api/src/testutil.rs:82-117 | in place exactly the atomic debit, every error case included |
| MemLedger.MemLedger.Refund | crates/api/src/testutil.rs:119-134 | in place exactly the atomic refund, also where it fails half way |
| MemLedger.MemLedger.CreditedBalance | crates/api/src/testutil.rs:136-146 | answers exactly when the nonce and the account are there, with the balance |
| MemLedger.MemLedger.Credit | crates/api/src/testutil.rs:148-172 | in place exactly the atomic credit, replays included |
| MemLedger.RefundUndoesDebit | crates/api/src/testutil.rs:82-134 | a refund restores the ledger exactly unless the key is marked as capped without having a cap |
| MemLedger.CreditIsIdempotent | crates/api/src/testutil.rs:148-172 | a nonce that was credited never changes the ledger again, whatever account and amount |
| Ledger.CommittedDebitIsAtomic | crates/accounts/src/store.rs:182-252 | a debit transaction that commits changes the tables, and earns the receipt, as the atomic debit does |
| Ledger.MemDebitExactly | crates/api/src/testutil.rs:82-117 | the atomic debit case by case: who is denied, with which figures, and what a grant takes |
| Ledger.DebitCommitsWhenAdmitted | crates/accounts/src/store.rs:182-215 | the transaction's conditions hold exactly when the atomic ledger would grant the debit |
| Ledger.RefundIsAtomicExactly | crates/accounts/src/store.rs:254-287 | the refund agrees with the atomic one exactly when a capped receipt finds its capped key |
| Ledger.CreditIsAtomic | crates/accounts/src/store.rs:300-350 | the credit transaction is the atomic credit, and fails exactly on a replay or a missing account |
| LedgerPreservation.StepKeeps | crates/accounts/src/store.rs:164-350 | every step of every request keeps the whole ledger invariant |
| LedgerPreservation.Reachable | crates/accounts/src/store.rs:164-350 | the invariant holds after every run from empty tables |
| LedgerTheorems.Conservation | crates/accounts/src/store.rs:164-350 | in every run balance plus applied debits equals refunds plus the invokes on the account's receipts |
| LedgerTheorems.CapConservation | crates/accounts/src/store.rs:191-287 | in every run what is left of a cap plus debits through the key equals refunds plus the cap it was issued with |
| LedgerTheorems.RefundedOnceAndNeverRun | crates/application/src/usecases/paid_invoke.rs:60-70 | an applied debit is refunded at most once, and only if its request never entered the guest |
| LedgerTheorems.GuestRunsArePaid | crates/application/src/usecases/paid_invoke.rs:41-71 | a paid request that entered the guest holds an applied, unrefunded debit of its key and cost |
| LedgerTheorems.BilledRunsAreCovered | crates/application/src/usecases/paid_invoke.rs:41-71 | the cost of an account's billed guest runs plus its balance never exceeds its credits |
| LedgerTheorems.DeniedDebitsAreNotApplied | crates/accounts/src/store.rs:164-244 | a request told "unauthorized" or "insufficient credits" was not debited and, if it costs anything, did not run |
| LedgerTheorems.OnlyWritesChangeTables | crates/accounts/src/store.rs:353-363 | no step but an applied write changes the tables |
| LedgerTheorems.AppliedDebitRefinesAtomicDebit | crates/accounts/src/store.rs:164-252 | under any interleaving an applied debit changes the tables as the atomic debit would at that moment, with the same receipt |
| LedgerTheorems.GenuineRefundIsAdmissible | crates/accounts/src/store.rs:254-287 | in every reachable state the refund of a receipt that is still out meets its conditions and is the atomic refund |
| LedgerTheorems.ReceiptsInHandAreOutstanding | crates/application/src/usecases/paid_invoke.rs:54-68 | every receipt that a request holds is genuine, unrefunded and not yet run on |
| LedgerTheorems.RowsAreStable | crates/accounts/src/store.rs:96-114 | rows never disappear, keys keep account and kind, revocation is final although a debit writes `revoked = false`, receipts never change |
| LedgerTheorems.ReceiptsArePaidFor | crates/application/src/usecases/accounts.rs:154-160 | behind every receipt is a settled payment of the same account and nonce, worth exactly its price, without overflow |
| LedgerTheorems.CreditedMeansReceipt | crates/application/src/usecases/accounts.rs:130-160 | a credit request reports a balance only when a receipt for its nonce is there |
| LedgerTheorems.CreditAnswersForAnotherAccount | crates/application/src/usecases/accounts.rs:152-158 | for every settler a run in which account 2 is told "credited" on the receipt of account 1 |
| LedgerTheorems.OneCreditPerNonce | crates/accounts/src/store.rs:300-350 | over any requests, retries and lost answers a nonce raises a balance exactly once if its receipt is there, and else never |
| LedgerTheorems.ReceiptsChange | crates/accounts/src/store.rs:319-341 | a receipt appears with exactly one applied credit, and not if it was there |
| LedgerTheorems.AtMostThreeAttempts | crates/application/src/usecases/accounts.rs:165-188 | a credit request sends at most three transactions, and its counter counts them |
| LedgerCharges.ChargedWithoutARunExactly | crates/application/src/usecases/paid_invoke.rs:54-70 | in every run, a finished invoke with an applied debit is charged without its guest having run if and only if the debit's answer was lost, the failure was not sent to the refund, or the refund did not go through; and it is refunded if and only if neither that nor a guest run happened |
| LedgerCharges.StoryStep | crates/application/src/usecases/paid_invoke.rs:54-70 | every step of every request keeps the account of what became of a debit |
| LedgerCharges.RefusedRefundKeepsTheCharge | crates/application/src/usecases/paid_invoke.rs:62-66 | for every settler a run in which a compile failure is charged because its refund is refused |
| LedgerOutcomes.InvokeSucceedsExactly | crates/application/src/usecases/paid_invoke.rs:41-71 | in every run a finished invoke has succeeded if and only if it ran with a script whose loaded guest answered |
| LedgerOutcomes.FailedInvokeNamesItsStage | crates/application/src/usecases/paid_invoke.rs:60-70 | a finished invoke that ran and failed carries the error of the stage where it ended, also after a refund that went through, and a storage error after one that did not |
| LedgerOutcomes.UnrunInvokeWasDenied | crates/application/src/usecases/paid_invoke.rs:54-59 | an invoke that ended without a run was denied or met a storage error |
| LedgerAnswers.FirstReadExactly | crates/domain/src/account.rs:213-221 | the first read of an issue or a revocation goes on exactly for an unrevoked, uncapped key of the account, and else ends unauthorized |
| LedgerAnswers.OnlyHoldersManageKeys | crates/application/src/usecases/accounts.rs:68-105 | in every run a request that got past its first read presented a key that some version of the tables held for the account, unrevoked and uncapped |
| LedgerAnswers.DenialsHaveReasons | crates/accounts/src/store.rs:170-181 | a denied invoke was denied by rows that some version held, and the figures in the answer are theirs |
| LedgerAnswers.CreditedBalanceWasThere | crates/application/src/usecases/accounts.rs:130-188 | a credit reports a balance that some version held for the account, or one of the listed errors |
| LedgerAnswers.SuccessesAreInTheTables | crates/application/src/usecases/accounts.rs:55-105 | a successful create, issue or revocation is in the tables, with the account, id and kind that were asked for |
| LedgerKeys.KeysComeFromHolders | crates/application/src/usecases/accounts.rs:55-105 | in every run every key row was created with its account or issued to a holder, and every revocation was asked for by a holder |
| LedgerAlone.DebitReadsExactly | crates/accounts/src/store.rs:170-181 | the reads of a debit admit exactly what the atomic ledger grants, and answer with its error |
| LedgerAlone.BrokenRowsAreStorageErrors | crates/accounts/src/store.rs:176-178 | an orphan key and an unreadable balance are storage errors |
| LedgerAlone.UnreadableCapCoversNothing | crates/accounts/src/store.rs:464-482 | a cap that cannot be read covers no debit |
| LedgerAlone.BeginsExactly | crates/application/src/usecases/accounts.rs:130-154 | which requests start with a store call, which end before it, and in which error or challenge |
| LedgerAlone.CreditReadsExactly | crates/accounts/src/store.rs:289-350 | what each read of a credit leads to |
| LedgerAlone.SettlesExactly | crates/application/src/usecases/accounts.rs:159-160 | a credit goes on exactly if its payment settles, and else ends in the class of the payment error |
| LedgerAlone.RevokeReadsExactly | crates/application/src/usecases/accounts.rs:95-102 | what each read of a revocation leads to, the balance check included |
| LedgerAlone.ReadFaultsExactly | crates/application/src/usecases/accounts.rs:173-187 | a failed read is a storage error, or one more attempt of a settled credit |
| LedgerAlone.WritesAnswerExactly | crates/accounts/src/store.rs:217-252 | what each answer of a write leads to |
| Payments.CheckPassesExactly | crates/payments/src/lib.rs:59-83 | the local check passes exactly for a nonce that is not blank, before the expiry, in the platform's asset, to its address and at the price, and else names the first of these that is wrong |
| Payments.PlainAddressesAgreeExactly | crates/payments/src/lib.rs:156-158 | addresses without outer white space are the same exactly if they agree up to the case of ASCII letters |
| Payments.OuterSpaceIsIgnored | crates/payments/src/lib.rs:156-158 | white space around an address changes nothing |
| Payments.ForeignPaymentsAreRefused | crates/payments/src/lib.rs:70-75 | a payment in another asset or to another recipient is refused as such |
| Payments.SettledExactly | crates/payments/src/settler.rs:202-226 | what settling demands, and which error it ends in |
| Payments.SettledPaysThePrice | crates/payments/src/settler.rs:202-226 | a settled payment authorises exactly the price of the invokes, in the platform's asset and to its address up to case and outer white space, unexpired, without overflow |
| InvokePipeline.RefundableErrorsPrecedeTheGuest | crates/application/src/usecases/paid_invoke.rs:74-84 | an error classed as "before the guest" comes neither from a guest that ran nor from an attempted instantiation |
| InvokePipeline.ExecuteAnswersExactly | crates/executor/src/wasmtime_runner.rs:88-334 | an invoke succeeds exactly if its loaded guest answers, and each error stands for exactly the listed stages |
| InvokePipeline.RefundableErrorsExactly | crates/application/src/usecases/paid_invoke.rs:74-84 | the six error classes that are sent to the refund |
| InvokePipeline.GuestRanMeansEntered | crates/executor/src/wasmtime_runner.rs:139-211 | what the ledger records as entered covers every invoke in which an instruction of the guest ran |
| InvokePipeline.SentToRefundExactly | crates/application/src/usecases/paid_invoke.rs:60-84 | a failed invoke is sent to the refund exactly when its guest did not run, except precisely in the listed cases; whether the refund goes through is `ChargedWithoutARunExactly` |
| InvokePipeline.UnrunIsSentToRefundExactly | crates/application/src/usecases/paid_invoke.rs:74-84 | an invoke whose guest did not run has failed, and is sent to the refund except exactly in the listed cases |
| InvokePipeline.ChargedThoughNothingRan | crates/executor/src/wasmtime_runner.rs:189-197 | refused growth, a refused memory limit and a cancelled task are charged although nothing of the guest ran |
| GuestCall.GuestMemory.Reserve | crates/executor/src/wasmtime_runner.rs:190-197 | grows by whole pages, no more than needed, zero filled, exactly when the maximum allows it |
| GuestCall.GuestMemory.Write | crates/executor/src/wasmtime_runner.rs:199-201 | replaces the bytes at the offset and no others |
| GuestCall.PlaceInput | crates/executor/src/wasmtime_runner.rs:188-201 | the input lies at the offset and nothing else changed, exactly when the memory may have room for it |
| GuestCall.TakeOutput | crates/executor/src/wasmtime_runner.rs:203-240 | the bytes the guest left at the offset, of the length it returned, or the class of the failure |
| GuestCall.InvokeSync | crates/executor/src/wasmtime_runner.rs:164-241 | exactly when the guest is called, what it finds, what is returned, and at which stage of the pipeline each failure ends |
| GuestCall.UncalledGuestRanExactly | crates/executor/src/wasmtime_runner.rs:139-197 | if `invoke` is not called, guest code ran exactly when a start function was reached, and else the charge stays |
| GuestCall.OnePageRefusesLargeInput | crates/executor/src/wasmtime_runner.rs:189-197 | one page refuses 70000 bytes of input, within the limit; nothing runs and the charge stays |
| GuestCall.SeventeenPagesAreEnough | crates/executor/src/wasmtime_runner.rs:186-235 | with seventeen pages every input and output within the limits fits, with sixteen not |
| GuestCall.AnswerExactly | crates/executor/src/wasmtime_runner.rs:203-240 | the exact condition of each answer, with the limits spelled out, and the bytes of a success one by one |
| GuestCall.UncalledStageExactly | crates/executor/src/wasmtime_runner.rs:164-186 | the limit on the input, and where a call ends that does not reach `invoke` |
| GuestCall.EchoReturnsTheInput | crates/executor/src/wasmtime_runner.rs:601-613 | an echo guest returns its input, whatever was in memory |
| DynamoAccountStore.DynamoAccountStore.Create | crates/accounts/src/store.rs:49-71 | both rows are new or nothing is written, each failure has its error, and a key that names the new account is not left without it |
| DynamoAccountStore.DynamoAccountStore.PutKey | crates/accounts/src/store.rs:73-94 | a key row is never overwritten; one key is added or nothing changes |
| DynamoAccountStore.DynamoAccountStore.Revoke | crates/accounts/src/store.rs:96-114 | one matching key is revoked and nothing else changes; not found exactly when none matches |
| DynamoAccountStore.DynamoAccountStore.Admit | crates/accounts/src/store.rs:170-181 | two undisturbed reads admit a debit exactly when the atomic ledger grants it, with its error otherwise |
| DynamoAccountStore.DynamoAccountStore.Debit | crates/accounts/src/store.rs:164-252 | alone and undisturbed the atomic debit, result and all; on any tables that transaction or no change; an orphan key and each trouble have their error, and "no admission reason" is exactly a conflict on an admitted debit |
| DynamoAccountStore.DynamoAccountStore.Refund | crates/accounts/src/store.rs:254-287 | all or nothing, and succeeds exactly when its conditions hold and nothing goes wrong |
| DynamoAccountStore.DynamoAccountStore.CreditedBalance | crates/accounts/src/store.rs:289-298 | the nonce alone decides whether there is a balance to report; a fault of either read is a storage error |
| DynamoAccountStore.CreditedBalanceIsDocumentedExactly | crates/application/src/ports/account_store.rs:61-67 | the answer is the documented one exactly when the receipt, if any, names the account that asks |
| DynamoAccountStore.ReceiptAnswersForAnotherAccount | crates/accounts/src/store.rs:289-298 | a receipt of one account answers for another, with the other's balance |
| DynamoAccountStore.DynamoAccountStore.Credit | crates/accounts/src/store.rs:300-350 | undisturbed the atomic credit, for a missing account too; otherwise that credit or no change; an answer means that the receipt is there |
| DynamoAccountStore.DynamoAccountStore.CreditSettled | crates/application/src/usecases/accounts.rs:165-188 | at most three calls, at most one credit, success means a receipt and returns the account's balance, and a new nonce is credited exactly when the failures are of the survivable kind |
| DynamoAccountStore.SurvivesExactly | crates/application/src/usecases/accounts.rs:171-187 | the credit survives exactly when some attempt lands and every earlier one is retried |
| DynamoAccountStore.OneConflictDropsTheCredit | crates/application/src/usecases/accounts.rs:162-164 | one spurious conflict, and the settled credit is dropped with two attempts left |
| DynamoAccountStore.RefundRestoresTables | crates/accounts/src/store.rs:254-287 | a refund puts back exactly what the debit took, cap included |
| PublishTheorems.StepKeeps | crates/application/src/usecases/publish.rs:51-77 | every step of every publish keeps the invariant of lock, bucket, catalog and publishes |
| PublishTheorems.Reachable | crates/application/src/usecases/publish.rs:51-77 | the invariant holds after every run |
| PublishTheorems.ArriveKeepsCatalog | crates/catalog/src/function_catalog.rs:33-74 | the conditional upsert keeps the last of the newest rows of every name |
| PublishTheorems.CatalogStoresLatest | crates/catalog/src/function_catalog.rs:33-74 | in every run the stored row is, as a whole, the last row carrying the greatest generation that reached the table |
| PublishTheorems.SupersededExactly | crates/application/src/usecases/publish.rs:59-98 | a finished publish is "superseded" exactly when a strictly newer row had arrived before its own, and else "ready" |
| PublishTheorems.RowsAreBacked | crates/application/src/usecases/publish.rs:33-77 | every row that ever reached the catalog names an object that is there, hashes to its key, is within the limits and passed validation |
| PublishTheorems.LockWorksExactly | crates/catalog/src/publish_lock.rs:33-97 | in every run, crashes, overruns and lost answers included: each publish that is critical and in time holds its lock at every moment if and only if no release finds another such publish of the same name and bytes |
| PublishTheorems.ActivePublishesExclude | crates/catalog/src/publish_lock.rs:33-97 | in such runs two publishes of a name are never both critical and in time, whatever other publishes overrun |
| PublishTheorems.DistinctRunsAreUndisturbed | crates/catalog/src/publish_lock.rs:72-97 | if overlapping publishes of a name differ in their bytes, no late release frees a newer holder's lock |
| PublishTheorems.TimelyRunsAreUndisturbed | crates/application/src/usecases/publish.rs:47-77 | if every publish finishes in time, no release frees the lock of another |
| PublishTheorems.CriticalPublishesHoldTheLock | crates/catalog/src/publish_lock.rs:33-70 | in a timely run whoever is between acquire and release holds the lock row |
| PublishTheorems.MutualExclusion | crates/application/src/usecases/publish.rs:47-77 | if every publish finishes before its lock expires, at most one publish of a name is between acquire and release |
| PublishTheorems.LockLastsExactly | crates/catalog/src/publish_lock.rs:33-70 | the row of an acquire makes every other one a conflict for exactly 900 seconds by its clock |
| PublishTheorems.FirstChecksExactly | crates/application/src/usecases/publish.rs:33-43 | which bytes get as far as the lock, and in which error the others end |
| PublishTheorems.LockIsLeftOnlyByLostCalls | crates/application/src/usecases/publish.rs:47-77 | no exit leaves the lock held unless its acquire or its release lost its answer |
| PublishTheorems.LockIsLostOnlyTo | crates/catalog/src/publish_lock.rs:72-97 | an unexpired lock is lost exactly to a release of the same name and hash |
| PublishTheorems.SameHashBreaksExclusion | crates/catalog/src/publish_lock.rs:72-97 | a run in which a late release of the same bytes lets two publishes in at once, both in time |
| PublishFunction.DynamoDbPublishLock.Acquire | crates/catalog/src/publish_lock.rs:33-70 | takes a free or expired row exactly, else a conflict; the whole new table |
| PublishFunction.DynamoDbPublishLock.Release | crates/catalog/src/publish_lock.rs:72-97 | deletes the row exactly when its hash matches, and a mismatch is no error |
| PublishFunction.DynamoDbFunctionCatalog.Upsert | crates/catalog/src/function_catalog.rs:33-74 | replaces a row unless it is strictly newer, and says whether it did |
| PublishFunction.DynamoDbFunctionCatalog.Resolve | crates/catalog/src/function_catalog.rs:76-95 | the stored row exactly when it is there, read and decoded; a missing row, a fault and both kinds of broken item have their error |
| PublishFunction.PublishFunction.Execute | crates/application/src/usecases/publish.rs:32-100 | bytes that fail the checks change nothing; otherwise tables and outcome are those of the protocol's steps |
| PublishFunction.AloneGives | crates/application/src/usecases/publish.rs:47-98 | what a publish that is not disturbed leaves in each table and answers, for every pattern of lost answers |
| PublishFunction.LockAfterwards | crates/application/src/usecases/publish.rs:47-77 | exactly when an undisturbed publish leaves its lock behind |
| ModuleCache.S3ArtifactStore.Put | crates/artifacts/src/s3.rs:97-101 | the object is stored under its hash |
| ModuleCache.S3ArtifactStore.Get | crates/artifacts/src/s3.rs:103-115 | returns the object exactly when it is there, within the limit and hashes to its key; each failure has its error |
| ModuleCache.WasmtimeRunner.Validate | crates/executor/src/wasmtime_runner.rs:134-137 | accepts exactly the valid binaries that pass the section walk, unless its task is lost, which is an invoke error |
| ModuleCache.WasmtimeRunner.CachedModule | crates/executor/src/wasmtime_runner.rs:88-106 | hit or miss, the module is the compilation of the given bytes, if no two byte strings share a hash; the cache stays sound; a lock poisoned before lookup or before insert is an invoke error |
| ModuleCache.Invoke | crates/application/src/usecases/invoke.rs:29-44 | the module that runs is the compilation of the only bytes whose hash the response reports |
| ModuleCache.PublishedBytesLoad | crates/executor/src/wasmtime_runner.rs:88-137 | a valid binary passes publish and is compiled exactly when it loads: the ABI check at invoke never fails on its own |
| ModuleCache.PublishedRowsLoad | crates/application/src/usecases/invoke.rs:29-44 | in every run every catalog row, current or stale, leads to bytes that pass the hash, size and ABI checks |
| WasmAbi.AssertAbi | crates/executor/src/wasmtime_runner.rs:343-409 | accepts exactly the modules that meet the ABI |
| WasmAbi.AssertAbiBytes | crates/executor/src/wasmtime_runner.rs:412-546 | on every valid binary it accepts exactly what the check of the compiled module accepts |
| WasmAbi.Collect | crates/executor/src/wasmtime_runner.rs:413-464 | the loops collect types, functions, exports and imports of all sections in order |
| WasmAbi.CollectTypes | crates/executor/src/wasmtime_runner.rs:421-432 | the nested loops flatten the recursion groups |
| WasmAbi.CollectImports | crates/executor/src/wasmtime_runner.rs:433-449 | every import is kept, and the type indices of the imported functions in order |
| WasmAbi.CheckExports | crates/executor/src/wasmtime_runner.rs:466-512 | passes exactly when `memory` and `invoke` are exported and every export of these names is of the right kind and type |
| WasmAbi.CheckImports | crates/executor/src/wasmtime_runner.rs:514-543 | passes exactly when every import is `nitrum.http_get` of the right type |
| WasmAbi.IsInvokeType | crates/executor/src/wasmtime_runner.rs:492-496 | the comparison of parameters and results one by one is equality with `(i32, i32) -> i32` |
| WasmAbi.IsHttpGetType | crates/executor/src/wasmtime_runner.rs:529-532 | the comparison is equality with `(i32, i32, i32, i32) -> i32` |
| WasmAbi.AbiExactly | crates/executor/src/wasmtime_runner.rs:343-409 | the ABI spelled out |
| WasmAbi.WalkFindsFunctionSpace | crates/executor/src/wasmtime_runner.rs:414-455 | with sections in order, the collected list is the function index space, imports first |
| WasmAbi.ExportByName | crates/executor/src/wasmtime_runner.rs:343-376 | looking up an export of the compiled module finds the one section entry of that name |
| WasmAbi.WalkAgreesWithModule | crates/executor/src/wasmtime_runner.rs:343-546 | the two checkers give the same verdict on every valid binary |
| WasmAbi.OutOfOrderWalkDisagrees | crates/executor/src/wasmtime_runner.rs:414-455 | without the section order the walk numbers the functions differently |
| Egress.ParseAcceptsExactlyUrls | crates/domain/src/function.rs:14-59 | parsing accepts exactly scheme, valid host, optional port in range, and path or nothing, and gives the origin of host and port number |
| Egress.HostIsValidExactly | crates/domain/src/function.rs:90-134 | a host is valid exactly if it is 1 to 253 characters of a literal alphabet, without two dots in a row, not `localhost` in any case, not under `.local` and not a dotted quad |
| Egress.U8Exactly | crates/domain/src/function.rs:132 | what counts as a number of a dotted quad |
| Egress.OriginExactly | crates/domain/src/function.rs:34-58 | the text of an origin and the range of ports |
| Egress.RefusedExactly | crates/domain/src/function.rs:77-82 | a list is refused exactly when its origins but the last are eight different ones already |
| Egress.HostDecides | crates/domain/src/function.rs:14-58 | without a port a URL is accepted exactly when its host is valid, whatever the path |
| Egress.DottedQuadIsNoHost | crates/domain/src/function.rs:123-133 | every dotted quad of four byte values is refused as a host |
| Egress.ParsedIsOrigin | crates/domain/src/function.rs:14-59 | what parsing stores it parses back unchanged, leading zeros in the port included |
| Egress.OriginOfUrl | crates/domain/src/function.rs:14-59 | an origin followed by a slash and any path parses to that origin |
| Egress.OriginIsInjective | crates/domain/src/function.rs:14-59 | two origins are the same text exactly when host and port number are the same |
| Egress.NormalizeEgressAllow | crates/domain/src/function.rs:73-88 | the first occurrences in order, or refusal exactly when the origins before the last already hold eight different ones |
| Egress.NormalizationIsStable | crates/domain/src/function.rs:73-88 | an accepted list has no duplicates, the same origins in first-occurrence order, at most eight, and normalises to itself |
| Egress.RepeatAfterEightIsRejected | crates/domain/src/function.rs:78-85 | eight different origins are accepted, but not with one of them repeated |
| Egress.ReadEgressAllow | crates/catalog/src/function_catalog.rs:136-145 | the egress attribute is read exactly when every stored origin parses, giving the parsed origins in order |
| FunctionCatalog.VersionFromItem | crates/catalog/src/function_catalog.rs:125-152 | an item is read exactly when id, label, hash and every origin are there and decode; the error says whether the first wrong attribute is missing or malformed |
| FunctionCatalog.HexReadsBack | crates/domain/src/function.rs:204-221 | a hash written in hexadecimal reads back |
| FunctionCatalog.FunctionIdExactly | crates/domain/src/function.rs:140-151 | a function id is 1 to 64 characters of a literal alphabet |
| FunctionCatalog.LabelExactly | crates/domain/src/function.rs:169-175 | a label is 1 to 64 bytes in UTF-8 |
| FunctionCatalog.HashExactly | crates/domain/src/function.rs:204-213 | a hash is 64 hexadecimal digits of either case |
| FunctionCatalog.HexPairExactly | crates/domain/src/function.rs:204-213 | the value of a pair of digits, high half first |
| FunctionCatalog.UpsertedItemIsRead | crates/catalog/src/function_catalog.rs:41-59 | what an upsert writes is read back with the same id, label, hash and set of origins |
| Egress.CatalogKeepsTheSet | crates/catalog/src/function_catalog.rs:53-59 | writing and reading back gives the same set of origins, each unchanged, whatever order the set comes back in |
| Egress.AllowedExactly | crates/executor/src/http_host.rs:95-103 | from the publish request to the fetch, a URL is allowed exactly when its origin is one of those requested, in any spelling |
| Egress.ListedOriginIsAllowed | crates/executor/src/http_host.rs:95-103 | a listed origin, a slash and any path are allowed |

## Left out

- The AWS SDK, HTTP routing and error bodies, configuration, telemetry, the CLI and the infrastructure: only the condition
  and update expressions of the tables remain, as guarded state changes.
- SHA-256, Keccak-256, ECDSA, EIP-712 and the attestation validator: hashes are uninterpreted functions, injective only
  where a lemma says so, and a validated attestation is a parameter.
- JSON and base64 decoding of payment headers, requests and wire envelopes: the decoded value is a parameter.
- Wasmtime execution, epoch timing, Cranelift and the outbound HTTP client: the guest is an arbitrary function, the code
  generator an arbitrary predicate, a failure an arbitrary choice.
- `usd_to_fixed` (floating point), the upstream price fetch, and the generation of ids and secrets: prices and fresh ids
  are parameters. Ids are not assumed to be fresh; a clash is a failed condition.
- Bearer parsing before the ledger: an invoke in the protocol already has its secret hash.
- `FunctionCatalog::list`, `Accounts::read`, `list_keys` and the getters: reading only.
- Raw binary parsing of modules: a binary is the sequence of payloads of the section parser, and `Valid` states what
  validation guarantees about them; memories, tables and code bodies are skipped payloads.
- Delayed delivery: a call whose answer is lost is applied when it is lost or not at all, not later.
- MemLedger.MemLedger.Credit: `u64` overflow of a balance is not modelled; the in-memory ledger adds natural numbers. In the
  conditional tables a number above `u64` is stored and cannot be read back, as in DynamoDB.
- DynamoAccountStore.DynamoAccountStore.Debit: one request at a time; the interleaved statements are in `LedgerTheorems`.
- LedgerTheorems.DeniedDebitsAreNotApplied: the figures inside an `Insufficient` error come from two separate reads and are
  not said to have held at one moment.
- LedgerTheorems.CreditedMeansReceipt: the receipt is for the nonce and may name another account, although the port's
  documentation says otherwise; see `CreditAnswersForAnotherAccount`.
- LedgerTheorems.GuestRunsArePaid: "entered" is an upper bound of "ran": it includes every attempted instantiation, so
  the bound on billed runs is the stronger one.
- LedgerCharges.ChargedWithoutARunExactly: speaks of finished requests; one that stops between two calls takes no further
  step and keeps the debit it has.
- PublishFunction.PublishFunction.Execute: runs undisturbed; interleavings are the subject of `PublishProtocol`.
- NitrumOracle.Contract.constructor: a constructor that reverts yields no contract, so the positive maximum age is required.

/** One invoke, stage by stage: resolve, fetch, compile, enter the guest. What happens at a stage is a script; the
    functions say which error class it surfaces as, and `PaidInvoke` refunds by that class alone. */
module InvokePipeline {
  import opened Wrappers
  import opened Results

  datatype AppError =
    | Domain | NotFound | Conflict | ArtifactMissing | HashMismatch | BadRequest | Compile | Storage
    | Invoke | Trap | Timeout | PayloadTooLarge | Unauthorized
    | InsufficientCredits(creditCost: nat, balance: nat, spendCapRemaining: Option<nat>)
    | PaymentChallenge(amount: nat)

  predicate FailedBeforeGuest(e: AppError) {
    e.NotFound? || e.ArtifactMissing? || e.HashMismatch? || e.Compile? || e.Domain? || e.Storage?
  }

  /** Where an invoke can go wrong before it is a running guest. */
  datatype Resolve = Resolved | NoSuchFunction | BadRow | RowIncomplete | CatalogFault
  datatype Fetch = Fetched | NoObject | StoreFault | ObjectTooLarge | WrongBytes
  datatype Load = Cached | Compiled | CachePoisoned | DoesNotCompile | WrongAbi

  /** How a wasm call fails: `map_wasm_err`. */
  datatype WasmFailure = Interrupted | Trapped | OtherFailure

  /** How far a task had got when it was lost. */
  datatype Progress = NothingRan | StartRan | InvokeRan

  /** From the loaded module on: the task is cancelled or panics, or the call ends at one of its stages. An
      instantiation can fail before the start function, on a limit or a segment, or `inStart`. */
  datatype Guest =
    | TaskLost(progress: Progress)
    | InputTooLarge
    | LinkFailed
    | InstantiateFailed(failure: WasmFailure, inStart: bool)
    | ExportMissing
    | NoRoomForInput
    | CallFailed(failure: WasmFailure)
    | NegativeLength
    | OutputTooLarge
    | OutputUnreadable
    | Answered

  /** `hasStart`: the module has a start function, which instantiation runs. */
  datatype Script = Script(resolve: Resolve, fetch: Fetch, load: Load, hasStart: bool, guest: Guest)

  function WasmError(f: WasmFailure): AppError {
    match f case Interrupted => Timeout case Trapped => Trap case OtherFailure => Invoke
  }

  function ResolveStage(r: Resolve): Result<(), AppError> {
    match r
    case Resolved => Ok(())
    case NoSuchFunction => Err(NotFound)
    case BadRow => Err(Domain)
    case RowIncomplete => Err(Storage)
    case CatalogFault => Err(Storage)
  }

  function FetchStage(f: Fetch): Result<(), AppError> {
    match f
    case Fetched => Ok(())
    case NoObject => Err(ArtifactMissing)
    case StoreFault => Err(Storage)
    case ObjectTooLarge => Err(PayloadTooLarge)
    case WrongBytes => Err(HashMismatch)
  }

  function LoadStage(l: Load): Result<(), AppError> {
    match l
    case Cached => Ok(())
    case Compiled => Ok(())
    case CachePoisoned => Err(Invoke)
    case DoesNotCompile => Err(Compile)
    case WrongAbi => Err(Compile)
  }

  function GuestStage(g: Guest): Result<(), AppError> {
    match g
    case TaskLost(_) => Err(Invoke)
    case InputTooLarge => Err(PayloadTooLarge)
    case LinkFailed => Err(Invoke)
    case InstantiateFailed(f, _) => Err(WasmError(f))
    case ExportMissing => Err(Invoke)
    case NoRoomForInput => Err(Invoke)
    case CallFailed(f) => Err(WasmError(f))
    case NegativeLength => Err(Invoke)
    case OutputTooLarge => Err(PayloadTooLarge)
    case OutputUnreadable => Err(Invoke)
    case Answered => Ok(())
  }

  /** `InvokeFunction::execute` and `FunctionRunner::run`. */
  function Execute(s: Script): Result<(), AppError> {
    var _ :- ResolveStage(s.resolve);
    var _ :- FetchStage(s.fetch);
    var _ :- LoadStage(s.load);
    GuestStage(s.guest)
  }

  // ----- Which failure is which error --------------------------------------------------------------

  predicate Fails(g: Guest, failure: WasmFailure) {
    g == CallFailed(failure) || g == InstantiateFailed(failure, true) || g == InstantiateFailed(failure, false)
  }

  /** The stages that surface as error `e`: a missing function or object, a row that cannot be read, wrong bytes, bytes
      that do not compile, anything too large, an interrupted guest, a trapped one, and any other trouble with it. */
  predicate EndedIn(s: Script, e: AppError) {
    var fetching, loading := s.resolve.Resolved?, s.resolve.Resolved? && s.fetch.Fetched?;
    match e
    case NotFound => s.resolve.NoSuchFunction?
    case Domain => s.resolve.BadRow?
    case Storage => s.resolve.RowIncomplete? || s.resolve.CatalogFault? || (fetching && s.fetch.StoreFault?)
    case ArtifactMissing => fetching && s.fetch.NoObject?
    case HashMismatch => fetching && s.fetch.WrongBytes?
    case PayloadTooLarge =>
      fetching && (s.fetch.ObjectTooLarge? || (HasModule(s) && (s.guest.InputTooLarge? || s.guest.OutputTooLarge?)))
    case Compile => loading && (s.load.DoesNotCompile? || s.load.WrongAbi?)
    case Timeout => HasModule(s) && Fails(s.guest, Interrupted)
    case Trap => HasModule(s) && Fails(s.guest, Trapped)
    case Invoke =>
      loading && (s.load.CachePoisoned? || (HasModule(s) &&
        (s.guest.TaskLost? || s.guest.LinkFailed? || Fails(s.guest, OtherFailure) || s.guest.ExportMissing?
         || s.guest.NoRoomForInput? || s.guest.NegativeLength? || s.guest.OutputUnreadable?)))
    case _ => false
  }

  /** An invoke succeeds exactly if the loaded guest answers, and otherwise names the stage where it ended. */
  lemma ExecuteAnswersExactly(s: Script, e: AppError)
    ensures Execute(s).Ok? <==> HasModule(s) && s.guest.Answered?
    ensures Execute(s) == Err(e) <==> EndedIn(s, e)
  {
  }

  /** What is sent to the refund, error by error. */
  lemma RefundableErrorsExactly(e: AppError)
    ensures FailedBeforeGuest(e) <==> e in {NotFound, ArtifactMissing, HashMismatch, Compile, Domain, Storage}
  {
  }

  // ----- Whether guest code ran ----------------------------------------------------------------

  predicate HasModule(s: Script) { s.resolve.Resolved? && s.fetch.Fetched? && (s.load.Cached? || s.load.Compiled?) }

  /** The guest's `invoke` was called. */
  predicate InvokeCalled(g: Guest) {
    g == TaskLost(InvokeRan) || g.CallFailed? || g.NegativeLength? || g.OutputTooLarge? || g.OutputUnreadable?
    || g.Answered?
  }

  /** Instantiation got as far as the start function, if there is one. */
  predicate StartReached(g: Guest) {
    match g
    case TaskLost(progress) => !progress.NothingRan?
    case InputTooLarge => false
    case LinkFailed => false
    case InstantiateFailed(_, inStart) => inStart
    case _ => true
  }

  /** Some instruction of the guest ran. */
  predicate GuestRan(s: Script) {
    HasModule(s) && (InvokeCalled(s.guest) || (s.hasStart && StartReached(s.guest)))
  }

  /** What the ledger protocol records, a safe upper bound: instantiation was attempted. */
  predicate EnteredGuest(s: Script) {
    HasModule(s) && !s.guest.InputTooLarge? && !s.guest.LinkFailed? && s.guest != TaskLost(NothingRan)
  }

  /** The classification is sound: no error it calls "before the guest" comes from an entered guest, and a guest that
      ran was entered. */
  lemma RefundableErrorsPrecedeTheGuest(s: Script)
    requires Execute(s).Err? && FailedBeforeGuest(Execute(s).error)
    ensures !EnteredGuest(s) && !GuestRan(s)
  {
  }

  lemma GuestRanMeansEntered(s: Script)
    requires GuestRan(s)
    ensures EnteredGuest(s)
  {
  }

  /** The failures that are not sent to the refund although no instruction of the guest ran, all of them: an oversized
      object, a poisoned cache, and, with the module at hand, a task lost too early, an oversized input, a linker
      failure, a failed instantiation outside the start function, and, without a start function, an export that is
      missing or memory that has no room for the input. */
  predicate ChargedUnrun(s: Script) {
    s.resolve.Resolved? && (s.fetch.ObjectTooLarge? || (s.fetch.Fetched? && (s.load.CachePoisoned? || (HasModule(s) &&
      match s.guest
      case TaskLost(progress) => progress.NothingRan? || (progress.StartRan? && !s.hasStart)
      case InputTooLarge => true
      case LinkFailed => true
      case InstantiateFailed(_, inStart) => !inStart || !s.hasStart
      case ExportMissing => !s.hasStart
      case NoRoomForInput => !s.hasStart
      case _ => false))))
  }

  /** A failed invoke is sent to the refund exactly when its guest did not run, but for the failures above: for every
      script the classification fails exactly there. Whether the refund itself goes through is up to the ledger: see
      `LedgerCharges`. */
  lemma SentToRefundExactly(s: Script)
    requires Execute(s).Err?
    ensures (FailedBeforeGuest(Execute(s).error) <==> !GuestRan(s)) <==> !ChargedUnrun(s)
    ensures ChargedUnrun(s) ==> !FailedBeforeGuest(Execute(s).error) && !GuestRan(s)
  {
  }

  lemma ChargedUnrunHasFailed(s: Script)
    requires ChargedUnrun(s)
    ensures Execute(s).Err? && !GuestRan(s)
  {
  }

  /** Seen from the guest: an invoke whose guest did not run has failed, and is sent to the refund except in the listed
      cases. */
  lemma UnrunIsSentToRefundExactly(s: Script)
    requires !GuestRan(s)
    ensures Execute(s).Err?
    ensures !FailedBeforeGuest(Execute(s).error) <==> ChargedUnrun(s)
  {
  }

  /** Three modules without a start function that are charged although nothing of them runs: one whose memory may not
      grow for the input, one whose memory exceeds the store's limit, and one whose task is cancelled. */
  lemma ChargedThoughNothingRan(g: Guest)
    requires g == NoRoomForInput || g == InstantiateFailed(OtherFailure, false) || g == TaskLost(NothingRan)
    ensures var s := Script(Resolved, Fetched, Cached, false, g);
            !GuestRan(s) && Execute(s) == Err(Invoke) && !FailedBeforeGuest(Invoke)
  {
  }
}

/** One call of a loaded guest: the input goes into linear memory at a fixed offset, the guest answers with a length,
    and that many bytes are read back from the same offset. The guest itself is arbitrary. */
module GuestCall {
  import opened Wrappers
  import opened Results
  import opened Decimal
  import opened Text
  import Pipeline = InvokePipeline

  type AppError = Pipeline.AppError

  const PAGE := 65536
  const OFFSET := 64
  const MAX_INVOKE_BODY_BYTES := 1024 * 1024
  const MAX_GUEST_OUTPUT_BYTES := 1024 * 1024

  type i32 = n: int | -0x8000_0000 <= n <= 0x7fff_ffff

  /** How the guest's `invoke` ends: with a length and the memory it leaves, or not at all. */
  datatype Exit = Returned(memory: seq<byte>, len: i32) | Broke(failure: Pipeline.WasmFailure)

  /** Memory only grows, page by page, up to its maximum. */
  predicate IsMemory(bytes: seq<byte>, maxPages: nat) { |bytes| % PAGE == 0 && |bytes| <= maxPages * PAGE }

  function PagesFor(n: nat): (pages: nat)
    ensures pages * PAGE >= n && forall fewer: nat :: fewer * PAGE >= n ==> pages <= fewer
  {
    (n + PAGE - 1) / PAGE
  }

  class GuestMemory {
    /** The module's own maximum, or that of the store limits if it is lower. */
    const maxPages: nat
    var bytes: seq<byte>

    constructor (bytes: seq<byte>, maxPages: nat)
      requires IsMemory(bytes, maxPages)
      ensures this.bytes == bytes && this.maxPages == maxPages
    {
      this.bytes, this.maxPages := bytes, maxPages;
    }

    /** Makes room for `n` bytes if the maximum allows it, and never more than that takes. */
    method Reserve(n: nat) returns (ok: bool)
      requires IsMemory(bytes, maxPages)
      modifies this`bytes
      ensures IsMemory(bytes, maxPages)
      ensures ok <==> n <= maxPages * PAGE
      ensures bytes == old(bytes) +
        Zeros(if ok && n > |old(bytes)| then PagesFor(n) * PAGE - |old(bytes)| else 0)
    {
      var needed := PagesFor(n);
      var current := |bytes| / PAGE;
      assert |bytes| == current * PAGE;
      if needed <= current { return true; }
      if needed > maxPages { return false; }
      bytes := bytes + Zeros((needed - current) * PAGE);
      return true;
    }

    method Write(at: nat, data: seq<byte>)
      requires IsMemory(bytes, maxPages) && at + |data| <= |bytes|
      modifies this`bytes
      ensures IsMemory(bytes, maxPages)
      ensures bytes == old(bytes)[..at] + data + old(bytes)[at + |data|..]
    {
      bytes := bytes[..at] + data + bytes[at + |data|..];
    }
  }

  /** Whatever the guest does, it leaves memory that is no smaller and within the maximum. */
  ghost predicate IsGuest(guest: (seq<byte>, nat, nat) -> Exit, maxPages: nat) {
    forall before, at, n :: IsMemory(before, maxPages) && guest(before, at, n).Returned? ==>
      IsMemory(guest(before, at, n).memory, maxPages) && |before| <= |guest(before, at, n).memory|
  }

  /** What the call must answer, given how the guest ended. Bytes beyond the memory it left read as zero. */
  function Answer(exit: Exit, maxPages: nat): Result<seq<byte>, AppError> {
    match exit
    case Broke(f) => Err(Pipeline.WasmError(f))
    case Returned(memory, len) =>
      if len < 0 then Err(Pipeline.Invoke)
      else if len > MAX_GUEST_OUTPUT_BYTES then Err(Pipeline.PayloadTooLarge)
      else if OFFSET + len > maxPages * PAGE then Err(Pipeline.Invoke)
      else Ok((memory + Zeros(OFFSET + len))[OFFSET..OFFSET + len])
  }

  /** The answer, case by case, with the limits spelled out: a megabyte of output behind the first 64 bytes. */
  lemma AnswerExactly(memory: seq<byte>, len: i32, maxPages: nat, failure: Pipeline.WasmFailure)
    ensures Answer(Broke(failure), maxPages) == Err(match failure
                                                    case Interrupted => Pipeline.Timeout
                                                    case Trapped => Pipeline.Trap
                                                    case OtherFailure => Pipeline.Invoke)
    ensures var r := Answer(Returned(memory, len), maxPages);
            && (r == Err(Pipeline.PayloadTooLarge) <==> len > 1048576)
            && (r == Err(Pipeline.Invoke) <==> len < 0 || (len <= 1048576 && 64 + len > maxPages * 65536))
            && (r.Ok? <==> 0 <= len <= 1048576 && 64 + len <= maxPages * 65536)
            && (r.Ok? ==> |r.value| == len && forall k :: 0 <= k < len ==>
                  r.value[k] == if 64 + k < |memory| then memory[64 + k] else '\0')
  {
  }

  /** The limit on the input, and the stage at which a call ends that does not reach `invoke`. */
  lemma UncalledStageExactly(inputLength: nat, setup: Setup)
    ensures UncalledStage(inputLength, setup).InputTooLarge? <==> inputLength > 1048576
    ensures inputLength <= 1048576 ==>
      UncalledStage(inputLength, setup)
      == match setup
         case LinkFails => Pipeline.LinkFailed
         case Fails(f, inStart) => Pipeline.InstantiateFailed(f, inStart)
         case LacksExport => Pipeline.ExportMissing
         case Ready => Pipeline.NoRoomForInput
  {
  }

  /** How linking and instantiating end: see `Pipeline.Guest`. */
  datatype Setup = LinkFails | Fails(failure: Pipeline.WasmFailure, inStart: bool) | LacksExport | Ready

  /** Where the call ends, in the terms of the invoke pipeline, if the guest's `invoke` is not called. */
  function UncalledStage(inputLength: nat, setup: Setup): Pipeline.Guest {
    if inputLength > MAX_INVOKE_BODY_BYTES then Pipeline.InputTooLarge
    else
      match setup
      case LinkFails => Pipeline.LinkFailed
      case Fails(f, inStart) => Pipeline.InstantiateFailed(f, inStart)
      case LacksExport => Pipeline.ExportMissing
      case Ready => Pipeline.NoRoomForInput
  }

  /** `stage` and `r` tell the same story. */
  predicate Agree(stage: Pipeline.Guest, r: Result<seq<byte>, AppError>) {
    Pipeline.GuestStage(stage) == if r.Ok? then Ok(()) else Err(r.error)
  }

  /** The input lies at the offset; what else is there is as it was, or zero. */
  ghost predicate Holds(seen: seq<byte>, before: seq<byte>, input: seq<byte>) {
    && |seen| >= OFFSET + |input| && seen[OFFSET..OFFSET + |input|] == input
    && forall k :: 0 <= k < |seen| && !(OFFSET <= k < OFFSET + |input|) ==>
      seen[k] == if k < |before| then before[k] else '\0'
  }

  method PlaceInput(memory: GuestMemory, input: seq<byte>) returns (ok: bool)
    requires IsMemory(memory.bytes, memory.maxPages)
    modifies memory`bytes
    ensures IsMemory(memory.bytes, memory.maxPages)
    ensures ok <==> OFFSET + |input| <= memory.maxPages * PAGE
    ensures ok ==> Holds(memory.bytes, old(memory.bytes), input)
    ensures !ok ==> memory.bytes == old(memory.bytes)
  {
    ok := memory.Reserve(OFFSET + |input|);
    if ok {
      memory.Write(OFFSET, input);
      assert memory.bytes[OFFSET..OFFSET + |input|] == input;
    }
  }

  method TakeOutput(memory: GuestMemory, exit: Exit) returns (r: Result<seq<byte>, AppError>, stage: Pipeline.Guest)
    requires IsMemory(memory.bytes, memory.maxPages)
    requires exit.Returned? ==> IsMemory(exit.memory, memory.maxPages)
    modifies memory`bytes
    ensures IsMemory(memory.bytes, memory.maxPages)
    ensures r == Answer(exit, memory.maxPages)
    ensures Agree(stage, r) && Pipeline.InvokeCalled(stage)
  {
    if exit.Broke? { return Err(Pipeline.WasmError(exit.failure)), Pipeline.CallFailed(exit.failure); }
    memory.bytes := exit.memory;
    if exit.len < 0 { return Err(Pipeline.Invoke), Pipeline.NegativeLength; }
    if exit.len > MAX_GUEST_OUTPUT_BYTES { return Err(Pipeline.PayloadTooLarge), Pipeline.OutputTooLarge; }
    var ok := memory.Reserve(OFFSET + exit.len);
    if !ok { return Err(Pipeline.Invoke), Pipeline.OutputUnreadable; }
    var output := memory.bytes[OFFSET..OFFSET + exit.len];
    assert output == (exit.memory + Zeros(OFFSET + exit.len))[OFFSET..OFFSET + exit.len];
    return Ok(output), Pipeline.Answered;
  }

  /** `seen` is the memory that the guest was called with, `None` if it was not called. The guest finds the input where
      it is told and gets its length; the output is what it then left at the same place. It is not called exactly when
      the input is too large for the limit, the module does not get ready, or its memory has no room for the input.
      `stage` is where the invoke pipeline says that such a call ends. */
  method InvokeSync(memory: GuestMemory, input: seq<byte>, setup: Setup, guest: (seq<byte>, nat, nat) -> Exit)
    returns (r: Result<seq<byte>, AppError>, seen: Option<seq<byte>>, stage: Pipeline.Guest)
    requires IsMemory(memory.bytes, memory.maxPages) && IsGuest(guest, memory.maxPages)
    modifies memory`bytes
    ensures IsMemory(memory.bytes, memory.maxPages)
    ensures seen.None? <==>
      |input| > MAX_INVOKE_BODY_BYTES || !setup.Ready? || OFFSET + |input| > memory.maxPages * PAGE
    ensures seen.None? ==> stage == UncalledStage(|input|, setup)
    ensures seen.Some? ==> Holds(seen.value, old(memory.bytes), input)
    ensures seen.Some? ==> r == Answer(guest(seen.value, OFFSET, |input|), memory.maxPages)
    ensures Agree(stage, r) && (Pipeline.InvokeCalled(stage) <==> seen.Some?)
  {
    hide Holds, Answer;
    if |input| > MAX_INVOKE_BODY_BYTES { return Err(Pipeline.PayloadTooLarge), None, Pipeline.InputTooLarge; }
    match setup {
      case LinkFails => return Err(Pipeline.Invoke), None, Pipeline.LinkFailed;
      case Fails(f, inStart) => return Err(Pipeline.WasmError(f)), None, Pipeline.InstantiateFailed(f, inStart);
      case LacksExport => return Err(Pipeline.Invoke), None, Pipeline.ExportMissing;
      case Ready =>
    }
    var placed := PlaceInput(memory, input);
    if !placed { return Err(Pipeline.Invoke), None, Pipeline.NoRoomForInput; }
    seen := Some(memory.bytes);
    r, stage := TakeOutput(memory, guest(memory.bytes, OFFSET, |input|));
  }

  /** The guest code that ran, start function included, is what the pipeline says ran: an uncalled guest has run exactly
      when it has a start function that was reached, and it is then charged, as it is in the listed unrun cases. */
  lemma UncalledGuestRanExactly(inputLength: nat, setup: Setup, hasStart: bool)
    ensures var s := Pipeline.Script(Pipeline.Resolved, Pipeline.Fetched, Pipeline.Cached, hasStart,
                                     UncalledStage(inputLength, setup));
            && (Pipeline.GuestRan(s) <==>
                hasStart && inputLength <= MAX_INVOKE_BODY_BYTES
                && !setup.LinkFails? && (setup.Fails? ==> setup.inStart))
            && (Pipeline.ChargedUnrun(s) <==> !Pipeline.GuestRan(s))
  {
  }

  /** A module with one page and no more, without a start function, cannot take an input of 70000 bytes: it is not
      called, nothing of it runs, and the charge stays. */
  lemma OnePageRefusesLargeInput(inputLength: nat)
    requires inputLength == 70000
    ensures inputLength <= MAX_INVOKE_BODY_BYTES && OFFSET + inputLength > 1 * PAGE
    ensures Pipeline.ChargedUnrun(Pipeline.Script(Pipeline.Resolved, Pipeline.Fetched, Pipeline.Cached, false,
                                                  UncalledStage(inputLength, Ready)))
  {
  }

  /** A memory that may have seventeen pages has room for every input and every output within the limits. */
  lemma SeventeenPagesAreEnough(maxPages: nat, exit: Exit)
    requires maxPages >= 17
    ensures OFFSET + MAX_INVOKE_BODY_BYTES <= maxPages * PAGE
    ensures exit.Returned? && 0 <= exit.len <= MAX_GUEST_OUTPUT_BYTES ==> Answer(exit, maxPages).Ok?
    ensures OFFSET + MAX_INVOKE_BODY_BYTES > 16 * PAGE
  {
    assert maxPages * PAGE >= 17 * PAGE;
  }

  /** An echo guest gets its input back, whatever was in memory before. */
  lemma EchoReturnsTheInput(seen: seq<byte>, input: seq<byte>, maxPages: nat)
    requires |seen| >= OFFSET + |input| && seen[OFFSET..OFFSET + |input|] == input
    requires IsMemory(seen, maxPages) && |input| <= MAX_GUEST_OUTPUT_BYTES
    ensures Answer(Returned(seen, |input|), maxPages) == Ok(input)
  {
    var output := (seen + Zeros(OFFSET + |input|))[OFFSET..OFFSET + |input|];
    assert forall k :: 0 <= k < |input| ==> output[k] == seen[OFFSET + k] == seen[OFFSET..OFFSET + |input|][k];
    assert output == input;
  }
}

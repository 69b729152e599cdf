/** Who pays for an invoke that did not run: over every run of the ledger protocol, what becomes of each applied
    debit. */
module LedgerCharges {
  import opened Wrappers
  import opened Results
  import opened Ledger
  import opened LedgerProtocol
  import opened LedgerInvariant
  import opened LedgerPreservation
  import opened LedgerTheorems
  import opened Payments
  import Pipeline = InvokePipeline

  /** The events that leave request `id` charged for nothing: its debit is applied but the answer is lost, its invoke
      fails before the guest and is not sent to the refund, or its refund does not go through. */
  ghost predicate KeepsCharge(s: State, e: Event, id: ReqId) {
    id in s.procs && s.procs[id].req.Invoke? &&
    match e
    case Write(i, fate) =>
      i == id && ((s.procs[id].pc.Admitted? && fate == Lost(true)) || (s.procs[id].pc.Refunding? && !Applies(fate)))
    case Run(i, script) => i == id && s.procs[id].pc.Charged? && Pipeline.ChargedUnrun(script)
    case _ => false
  }

  /** Such an event is in the run. */
  ghost predicate Kept(settler: Settler, run: seq<Event>, id: ReqId)
    requires Play(settler, run).Some?
  {
    run != [] &&
    var before := run[..|run| - 1];
    Kept(settler, before, id) || KeepsCharge(Play(settler, before).value, run[|run| - 1], id)
  }

  /** Some instruction of the guest ran for request `id`. */
  ghost predicate Ran(run: seq<Event>, id: ReqId) { exists k :: 0 <= k < |run| && RunsGuest(run[k], id) }

  ghost predicate RunsGuest(e: Event, id: ReqId) { e.Run? && e.id == id && Pipeline.GuestRan(e.script) }

  /** What is known about the debit of `id`, given whether its guest ran and its charge was kept. */
  ghost predicate Story(s: State, id: ReqId, ran: bool, kept: bool) {
    if id !in s.procs then !ran && !kept && id !in s.debits
    else if !s.procs[id].pc.Done? then !ran && !kept && (id in s.debits ==> s.debits[id].refunds == 0)
    else if id !in s.debits then !kept
    else
      var refunds := s.debits[id].refunds;
      refunds <= 1 && (ran ==> refunds == 0) && (kept <==> refunds == 0 && !ran)
  }

  /** Every applied debit of a finished invoke has exactly one of three fates: it was refunded, the guest ran on it, or
      one of the events above kept the charge. So a finished invoke whose guest did not run is charged if and only if
      one of these events is in the run, whatever else was going on. */
  lemma ChargedWithoutARunExactly(settler: Settler, run: seq<Event>, id: ReqId)
    requires Play(settler, run).Some? && id in Play(settler, run).value.debits
    requires id in Play(settler, run).value.procs && Play(settler, run).value.procs[id].pc.Done?
    ensures var s := Play(settler, run).value;
            && (s.debits[id].refunds == 0 && !Ran(run, id) <==> Kept(settler, run, id))
            && (s.debits[id].refunds == 1 <==> !Ran(run, id) && !Kept(settler, run, id))
  {
    hide Ran, Kept, Play;
    StoryOf(settler, run, id);
  }

  lemma {:induction false} StoryOf(settler: Settler, run: seq<Event>, id: ReqId)
    requires Play(settler, run).Some?
    ensures Story(Play(settler, run).value, id, Ran(run, id), Kept(settler, run, id))
    decreases |run|
  {
    hide Step, Enabled, KeepsCharge, RunsGuest, Story, Inv;
    if run == [] {
      assert Story(Initial(settler), id, false, false) by { NothingHappened(settler, id); }
    } else {
      var before, e := run[..|run| - 1], run[|run| - 1];
      StoryOf(settler, before, id);
      Reachable(settler, before);
      RanStep(before, e, id);
      assert run == before + [e];
      StoryStep(Play(settler, before).value, e, id, Ran(before, id), Kept(settler, before, id));
    }
  }

  lemma NothingHappened(settler: Settler, id: ReqId)
    ensures Story(Initial(settler), id, false, false)
  {
  }

  lemma RanStep(before: seq<Event>, e: Event, id: ReqId)
    ensures Ran(before + [e], id) <==> Ran(before, id) || RunsGuest(e, id)
  {
    hide RunsGuest;
    var run := before + [e];
    assert forall k :: 0 <= k < |before| ==> run[k] == before[k];
    if RunsGuest(e, id) { assert RunsGuest(run[|before|], id); }
    if k :| 0 <= k < |before| && RunsGuest(before[k], id) { assert RunsGuest(run[k], id); }
  }

  lemma StoryStep(s: State, e: Event, id: ReqId, ran: bool, kept: bool)
    requires Inv(s) && Enabled(s, e) && Story(s, id, ran, kept)
    ensures Story(Step(s, e), id, ran || RunsGuest(e, id), kept || KeepsCharge(s, e, id))
  {
    hide Inv, Step, Enabled, KeepsCharge, RunsGuest, Story;
    if e.id != id {
      OtherStory(s, e, id, ran, kept);
    } else if e.Begin? {
      BeginStory(s, e, ran, kept);
    } else {
      assert Before(s, id) by { OwnerIsThere(s, e); HoldsBefore(s, id); }
      match e
      case Write(_, fate) => WriteStory(s, id, fate, ran, kept);
      case Run(_, script) => RunStory(s, id, script, ran, kept);
      case _ => QuietStory(s, e, ran, kept);
    }
  }

  lemma OwnerIsThere(s: State, e: Event)
    requires Inv(s) && Enabled(s, e) && !e.Begin?
    ensures e.id in s.procs
  {
    hide MoneyOk, CapsOk, ProcsOk, DebitsOk, EnteredOk, ReceiptsOk, SettlementsOk, HistoryOk;
  }

  lemma OtherStory(s: State, e: Event, id: ReqId, ran: bool, kept: bool)
    requires Inv(s) && Enabled(s, e) && Story(s, id, ran, kept) && e.id != id
    ensures Story(Step(s, e), id, ran || RunsGuest(e, id), kept || KeepsCharge(s, e, id))
  {
    hide MoneyOk, CapsOk, ProcsOk, DebitsOk, EnteredOk, ReceiptsOk, SettlementsOk, HistoryOk;
    hide Attempt, AfterRead, AfterReadFault, AfterRun, AfterSettle, AfterWrite, FirstPc, IndexOffers;
  }

  lemma BeginStory(s: State, e: Event, ran: bool, kept: bool)
    requires Inv(s) && Enabled(s, e) && e.Begin? && Story(s, e.id, ran, kept)
    ensures Story(Step(s, e), e.id, ran || RunsGuest(e, e.id), kept || KeepsCharge(s, e, e.id))
  {
    hide MoneyOk, CapsOk, ProcsOk, DebitsOk, EnteredOk, ReceiptsOk, SettlementsOk, HistoryOk, FirstPc;
  }

  /** Reads and settlements touch no debit, and are not made while one is open. */
  lemma QuietStory(s: State, e: Event, ran: bool, kept: bool)
    requires e.Read? || e.ReadFault? || e.Settle?
    requires Before(s, e.id) && Enabled(s, e) && Story(s, e.id, ran, kept)
    ensures Story(Step(s, e), e.id, ran || RunsGuest(e, e.id), kept || KeepsCharge(s, e, e.id))
  {
    hide Attempt, AfterRead, AfterReadFault, AfterRun, AfterSettle, AfterWrite, IndexOffers, Known, Grows;
  }

  lemma WriteStory(s: State, id: ReqId, fate: Fate, ran: bool, kept: bool)
    requires Before(s, id) && Enabled(s, Write(id, fate)) && Story(s, id, ran, kept)
    ensures var e := Write(id, fate); Story(Step(s, e), id, ran || RunsGuest(e, id), kept || KeepsCharge(s, e, id))
  {
    hide Attempt, Known;
  }

  lemma RunStory(s: State, id: ReqId, script: Pipeline.Script, ran: bool, kept: bool)
    requires Before(s, id) && Enabled(s, Run(id, script)) && Story(s, id, ran, kept)
    ensures var e := Run(id, script); Story(Step(s, e), id, ran || RunsGuest(e, id), kept || KeepsCharge(s, e, id))
  {
    hide Known, Pipeline.Execute, Pipeline.GuestRan, Pipeline.ChargedUnrun, Pipeline.FailedBeforeGuest;
    if Pipeline.ChargedUnrun(script) { Pipeline.ChargedUnrunHasFailed(script); }
    if Pipeline.Execute(script).Err? { Pipeline.SentToRefundExactly(script); }
    if !Pipeline.GuestRan(script) { Pipeline.UnrunIsSentToRefundExactly(script); }
    if Pipeline.Execute(script).Err? && Pipeline.FailedBeforeGuest(Pipeline.Execute(script).error) {
      Pipeline.RefundableErrorsPrecedeTheGuest(script);
    }
  }

  /** A compile failure is sent to the refund and charged all the same when the refund is refused: for every settler a
      run in which account 1 buys one invoke, spends it on a module that does not compile, and is left with nothing. */
  lemma RefusedRefundKeepsTheCharge(settler: Settler) returns (run: seq<Event>)
    ensures Play(settler, run).Some?
    ensures var s := Play(settler, run).value;
            && 3 in s.procs && s.procs[3].pc == Done(Failed(Pipeline.Storage))
            && 3 in s.debits && s.debits[3].refunds == 0 && 3 !in s.entered && Balance(Now(s), 1) == 0
  {
    hide Play;
    var script :=
      Pipeline.Script(Pipeline.Resolved, Pipeline.Fetched, Pipeline.DoesNotCompile, false, Pipeline.Answered);
    run := OneCharge(settler);
    run := Extend(settler, run, Run(3, script));
    run := Extend(settler, run, Write(3, Refused));
  }

  /** Request 3 spends the one invoke of account 1. */
  lemma OneCharge(settler: Settler) returns (run: seq<Event>)
    ensures Play(settler, run).Some?
    ensures var s := Play(settler, run).value;
            && 3 in s.procs && s.procs[3] == Proc(Request.Invoke(10, 1), Charged(DebitReceipt(10, 1, 1, false)))
            && 3 in s.debits && s.debits[3].refunds == 0 && 3 !in s.entered && Balance(Now(s), 1) == 0
  {
    hide Play;
    run := OnePayment(settler);
    run := Extend(settler, run, Begin(3, Request.Invoke(10, 1), 0));
    run := Extend(settler, run, Read(3, 3, None));
    run := Extend(settler, run, Read(3, 3, None));
    run := Extend(settler, run, Write(3, Commits));
  }
}

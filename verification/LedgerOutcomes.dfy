/** What an invoke is told: over every run, the outcome of its script and of the refund that followed. */
module LedgerOutcomes {
  import opened Wrappers
  import opened Results
  import opened Ledger
  import opened LedgerProtocol
  import opened LedgerInvariant
  import opened LedgerPreservation
  import opened Payments
  import Pipeline = InvokePipeline

  /** The script with which request `id` ran, if it did. */
  ghost function RunOf(run: seq<Event>, id: ReqId): Option<Pipeline.Script> {
    if run == [] then None
    else
      var e := run[|run| - 1];
      if e.Run? && e.id == id then Some(e.script) else RunOf(run[..|run| - 1], id)
  }

  /** The fate of the write that `id` sent after it ran: its refund. */
  ghost function RefundOf(run: seq<Event>, id: ReqId): Option<Fate> {
    if run == [] then None
    else
      var before, e := run[..|run| - 1], run[|run| - 1];
      if e.Write? && e.id == id && RunOf(before, id).Some? then Some(e.fate) else RefundOf(before, id)
  }

  predicate Answered(script: Pipeline.Script) { Pipeline.HasModule(script) && script.guest.Answered? }

  /** The error of a script that failed: that of the stage where it ended, unless a refund followed that did not go
      through. */
  ghost predicate Names(script: Pipeline.Script, refund: Option<Fate>, e: AppError) {
    if refund.Some? && !refund.value.Commits? then e == Pipeline.Storage else Pipeline.EndedIn(script, e)
  }

  ghost predicate Told(outcome: Outcome, script: Option<Pipeline.Script>, refund: Option<Fate>) {
    if script.None? then
      outcome.Failed?
      && (outcome.error.Unauthorized? || outcome.error.InsufficientCredits? || outcome.error.Storage?)
    else if Answered(script.value) then outcome == Succeeded
    else outcome.Failed? && Names(script.value, refund, outcome.error)
  }

  ghost predicate Report(p: Proc, script: Option<Pipeline.Script>, refund: Option<Fate>) {
    match p.pc
    case Done(outcome) => (script.None? ==> refund.None?) && Told(outcome, script, refund)
    case Refunding(_, cause) => script.Some? && refund.None? && Pipeline.EndedIn(script.value, cause)
    case _ => script.None? && refund.None?
  }

  ghost predicate Reports(s: State, id: ReqId, script: Option<Pipeline.Script>, refund: Option<Fate>) {
    if id !in s.procs then script.None? && refund.None?
    else s.procs[id].req.Invoke? ==> Report(s.procs[id], script, refund)
  }

  /** Every `Run` of `id` is the one that `RunOf` finds: a request runs at most once. */
  ghost predicate RunsOnce(run: seq<Event>, id: ReqId) {
    forall k :: 0 <= k < |run| && run[k].Run? && run[k].id == id ==> RunOf(run, id) == Some(run[k].script)
  }

  // ----- The theorems ----------------------------------------------------------------------------------

  /** A finished invoke, free or paid, has succeeded if and only if it ran with a script whose loaded guest answered. */
  lemma InvokeSucceedsExactly(settler: Settler, run: seq<Event>, id: ReqId)
    requires Play(settler, run).Some? && id in Play(settler, run).value.procs
    requires var p := Play(settler, run).value.procs[id]; p.req.Invoke? && p.pc.Done?
    ensures Play(settler, run).value.procs[id].pc.outcome == Succeeded <==>
      exists k :: 0 <= k < |run| && run[k].Run? && run[k].id == id
        && Pipeline.HasModule(run[k].script) && run[k].script.guest.Answered?
  {
    hide Play, Names, RunOf, RefundOf, Pipeline.HasModule;
    ReportOf(settler, run, id);
    if RunOf(run, id).Some? { var k := FindRun(run, id); }
  }

  /** A finished invoke that ran and did not answer has failed with the error of the stage where its script ended, also
      after a refund that went through, and with a storage error after a refund that did not. */
  lemma FailedInvokeNamesItsStage(settler: Settler, run: seq<Event>, id: ReqId, script: Pipeline.Script)
    requires Play(settler, run).Some? && id in Play(settler, run).value.procs
    requires var p := Play(settler, run).value.procs[id]; p.req.Invoke? && p.pc.Done?
    requires RunOf(run, id) == Some(script) && !(Pipeline.HasModule(script) && script.guest.Answered?)
    ensures var outcome, refund := Play(settler, run).value.procs[id].pc.outcome, RefundOf(run, id);
            && outcome.Failed?
            && (refund.Some? && !refund.value.Commits? ==> outcome.error == Pipeline.Storage)
            && (refund.None? || refund.value.Commits? ==> Pipeline.EndedIn(script, outcome.error))
  {
    hide Play, RunOf, RefundOf, Pipeline.HasModule, Pipeline.EndedIn;
    ReportOf(settler, run, id);
  }

  /** An invoke that ended without a run was denied, or met a storage error. */
  lemma UnrunInvokeWasDenied(settler: Settler, run: seq<Event>, id: ReqId)
    requires Play(settler, run).Some? && id in Play(settler, run).value.procs
    requires var p := Play(settler, run).value.procs[id]; p.req.Invoke? && p.pc.Done?
    requires RunOf(run, id).None?
    ensures var outcome := Play(settler, run).value.procs[id].pc.outcome;
            outcome.Failed?
            && (outcome.error.Unauthorized? || outcome.error.InsufficientCredits? || outcome.error.Storage?)
  {
    hide Play, RunOf, RefundOf;
    ReportOf(settler, run, id);
  }

  // ----- The proof ---------------------------------------------------------------------------------------

  lemma {:induction false} FindRun(run: seq<Event>, id: ReqId) returns (k: nat)
    requires RunOf(run, id).Some?
    ensures k < |run| && run[k].Run? && run[k].id == id && RunOf(run, id) == Some(run[k].script)
    decreases |run|
  {
    var e := run[|run| - 1];
    if e.Run? && e.id == id {
      k := |run| - 1;
    } else {
      k := FindRun(run[..|run| - 1], id);
    }
  }

  lemma {:induction false} ReportOf(settler: Settler, run: seq<Event>, id: ReqId)
    requires Play(settler, run).Some?
    ensures Reports(Play(settler, run).value, id, RunOf(run, id), RefundOf(run, id))
    ensures var procs := Play(settler, run).value.procs;
            id !in procs || procs[id].req.Invoke? ==> RunsOnce(run, id)
    decreases |run|
  {
    hide Step, Enabled, Reports, Inv, RunsOnce;
    if run == [] {
      assert Reports(Initial(settler), id, None, None) && RunsOnce(run, id) by { NothingReported(settler, run, id); }
    } else {
      var before, e := run[..|run| - 1], run[|run| - 1];
      ReportOf(settler, before, id);
      Reachable(settler, before);
      ReportStep(Play(settler, before).value, e, id, RunOf(before, id), RefundOf(before, id));
      if id !in Play(settler, run).value.procs || Play(settler, run).value.procs[id].req.Invoke? {
        assert run == before + [e];
        RunsOnceStep(before, e, id);
      }
    }
  }

  lemma NothingReported(settler: Settler, run: seq<Event>, id: ReqId)
    requires run == []
    ensures Reports(Initial(settler), id, None, None) && RunsOnce(run, id)
  {
  }

  lemma RunsOnceStep(before: seq<Event>, e: Event, id: ReqId)
    requires RunsOnce(before, id) && (e.Run? && e.id == id ==> RunOf(before, id).None?)
    ensures RunsOnce(before + [e], id)
  {
    var run := before + [e];
    assert run[..|run| - 1] == before;
    assert forall k :: 0 <= k < |before| ==> run[k] == before[k];
  }

  function NewScript(e: Event, id: ReqId, script: Option<Pipeline.Script>): Option<Pipeline.Script> {
    if e.Run? && e.id == id then Some(e.script) else script
  }

  function NewRefund(e: Event, id: ReqId, script: Option<Pipeline.Script>, refund: Option<Fate>): Option<Fate> {
    if e.Write? && e.id == id && script.Some? then Some(e.fate) else refund
  }

  lemma ReportStep(s: State, e: Event, id: ReqId, script: Option<Pipeline.Script>, refund: Option<Fate>)
    requires Inv(s) && Enabled(s, e) && Reports(s, id, script, refund)
    ensures Reports(Step(s, e), id, NewScript(e, id, script), NewRefund(e, id, script, refund))
    ensures id in s.procs ==> id in Step(s, e).procs && Step(s, e).procs[id].req == s.procs[id].req
    ensures id !in s.procs ==> !(e.Run? && e.id == id)
    ensures id in s.procs && s.procs[id].req.Invoke? && e.Run? && e.id == id ==> script.None?
  {
    hide Inv, Reports, Step, Enabled;
    assert s.history != [] by { StartsSomewhere(s); }
    if e.id != id {
      OtherReport(s, e, id, script, refund);
    } else if e.Begin? {
      BeginReport(s, e, script, refund);
    } else {
      assert Before(s, id) by { OwnerIsThere(s, e); HoldsBefore(s, id); }
      match e
      case Write(_, fate) => WriteReport(s, id, fate, script, refund);
      case Run(_, sc) => RunReport(s, id, sc, script, refund);
      case _ => QuietReport(s, e, script, refund);
    }
  }

  lemma StartsSomewhere(s: State)
    requires Inv(s)
    ensures s.history != []
  {
    hide HistoryOk, MoneyOk, CapsOk, ProcsOk, DebitsOk, EnteredOk, ReceiptsOk, SettlementsOk;
  }

  lemma OtherReport(s: State, e: Event, id: ReqId, script: Option<Pipeline.Script>, refund: Option<Fate>)
    requires s.history != [] && Enabled(s, e) && Reports(s, id, script, refund) && e.id != id
    ensures Reports(Step(s, e), id, NewScript(e, id, script), NewRefund(e, id, script, refund))
    ensures id in s.procs ==> id in Step(s, e).procs && Step(s, e).procs[id].req == s.procs[id].req
  {
    hide Attempt, AfterRead, AfterReadFault, AfterRun, AfterSettle, AfterWrite, FirstPc, IndexOffers, Report;
  }

  lemma BeginReport(s: State, e: Event, script: Option<Pipeline.Script>, refund: Option<Fate>)
    requires s.history != [] && Enabled(s, e) && e.Begin? && Reports(s, e.id, script, refund)
    ensures Reports(Step(s, e), e.id, NewScript(e, e.id, script), NewRefund(e, e.id, script, refund))
    ensures e.id !in s.procs
  {
    hide PaymentNonce, Requirements;
  }

  lemma QuietReport(s: State, e: Event, script: Option<Pipeline.Script>, refund: Option<Fate>)
    requires e.Read? || e.ReadFault? || e.Settle?
    requires Before(s, e.id) && Enabled(s, e) && Reports(s, e.id, script, refund)
    ensures Reports(Step(s, e), e.id, NewScript(e, e.id, script), NewRefund(e, e.id, script, refund))
    ensures e.id in Step(s, e).procs && Step(s, e).procs[e.id].req == s.procs[e.id].req
  {
    hide Attempt, AfterRun, AfterSettle, AfterWrite, IndexOffers, Known, Grows, Names, AccountById, KeyByHash;
  }

  lemma WriteReport(s: State, id: ReqId, fate: Fate, script: Option<Pipeline.Script>, refund: Option<Fate>)
    requires Before(s, id) && Enabled(s, Write(id, fate)) && Reports(s, id, script, refund)
    ensures var e := Write(id, fate); var later := Step(s, e);
            Reports(later, id, NewScript(e, id, script), NewRefund(e, id, script, refund))
            && id in later.procs && later.procs[id].req == s.procs[id].req
  {
    hide Attempt, Known, Grows, Pipeline.EndedIn, Pipeline.HasModule;
    if script.Some? && s.procs[id].pc.Refunding? { RefundedDidNotAnswer(script.value, s.procs[id].pc.cause); }
  }

  lemma RefundedDidNotAnswer(script: Pipeline.Script, cause: AppError)
    requires Pipeline.EndedIn(script, cause)
    ensures !(Pipeline.HasModule(script) && script.guest.Answered?)
  {
  }

  lemma RunReport(s: State, id: ReqId, sc: Pipeline.Script, script: Option<Pipeline.Script>, refund: Option<Fate>)
    requires Before(s, id) && Enabled(s, Run(id, sc)) && Reports(s, id, script, refund)
    ensures var e := Run(id, sc); var later := Step(s, e);
            Reports(later, id, NewScript(e, id, script), NewRefund(e, id, script, refund))
            && id in later.procs && later.procs[id].req == s.procs[id].req
    ensures s.procs[id].req.Invoke? ==> script.None?
  {
    hide Known, Grows, Pipeline.Execute, Pipeline.EndedIn, Pipeline.HasModule, Pipeline.FailedBeforeGuest;
    forall e ensures Pipeline.Execute(sc) == Err(e) <==> Pipeline.EndedIn(sc, e) {
      Pipeline.ExecuteAnswersExactly(sc, e);
    }
    Pipeline.ExecuteAnswersExactly(sc, Pipeline.Storage);
  }

  lemma OwnerIsThere(s: State, e: Event)
    requires s.history != [] && Enabled(s, e) && !e.Begin?
    ensures e.id in s.procs
  {
    hide IndexOffers, Attempt;
  }
}

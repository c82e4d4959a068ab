/**
 * A streaming callback that returns false ends the walk. Callbacks may also cancel and restart it, so the run that is
 * ended need not be the one whose value was refused; this is exactly when it is.
 */
module Refusals {
  import opened Bytes
  import opened Messages
  import opened Values
  import opened Operations
  import opened OperationLaws
  import opened Engine
  import opened EngineLaws
  import opened StepLaws
  import opened Consequences

  // ----- scripts that end a run -----

  /** The call cancels operation k while it is pending, itself or in the completion handlers that it sets off. */
  predicate ActEnds(w: World, act: Act, k: nat, lim: Limits)
    decreases act, 0
  {
    act.Cancel? && act.op < |w.ops| && w.ops[act.op].Pending() &&
    (act.op == k || Ends(Release(w, act.op, w.ops[act.op], Cancelled), act.done, k, lim))
  }

  predicate Ends(w: World, acts: seq<Act>, k: nat, lim: Limits)
    decreases acts, 0
  {
    acts != [] && (ActEnds(w, acts[0], k, lim) || Ends(RunAct(w, acts[0], lim), acts[1..], k, lim))
  }

  /** The outcomes with which one run of operation k has been completed, in order. */
  function Outcomes(log: seq<Completion>, k: nat, run: nat): seq<Status> {
    if log == [] then []
    else
      var last := log[|log| - 1];
      Outcomes(log[..|log| - 1], k, run) + (if last.op == k && last.state.run == run then [last.state.status] else [])
  }

  lemma {:induction false} OutcomesSnoc(log: seq<Completion>, c: Completion, k: nat, run: nat)
    ensures Outcomes(log + [c], k, run) ==
            Outcomes(log, k, run) + (if c.op == k && c.state.run == run then [c.state.status] else [])
  {
    assert (log + [c])[..|log|] == log;
  }

  // ----- a run that is over stays over -----

  /** The operation has completed the run, or has begun a later one. */
  predicate Over(run: nat, b: Op) { b.run > run || (b.run == run && !b.Pending() && b.completed) }

  lemma {:induction false} FinishedTerms(op: Op, outcome: Status)
    ensures var r := Finished(op, outcome); r.status == outcome && r.run == op.run && r.sends == op.sends && r.completed
  {
    hide SettleAll;
  }

  lemma {:induction false} ReleaseLogs(w: World, j: nat, op: Op, outcome: Status, k: nat, run: nat)
    requires j < |w.ops| && k < |w.ops| && outcome != Status.Pending
    ensures var r := Release(w, j, op, outcome);
            && Outcomes(r.completions, k, run) ==
               Outcomes(w.completions, k, run) + (if j == k && op.run == run then [outcome] else [])
            && (j == k ==>
                  && r.ops[k].run == op.run && r.ops[k].status == outcome
                  && !r.ops[k].Pending() && r.ops[k].completed)
            && (j != k ==> r.ops[k] == w.ops[k])
  {
    FinishedTerms(op, outcome);
    hide Finished, Outcomes;
    OutcomesSnoc(w.completions, Completion(j, Finished(op, outcome)), k, run);
  }

  lemma {:induction false} IdleStays(w: World, act: Act, k: nat, run: nat, lim: Limits)
    requires k < |w.ops| && Over(run, w.ops[k]) && !act.Cancel?
    ensures RunAct(w, act, lim).completions == w.completions && Over(run, RunAct(w, act, lim).ops[k])
  {
    hide SetRoot, Add, Scheduled, FreeSlot, FinishOp;
    var op := w.ops[k];
    match act
    case Start(j) =>
      ScheduledTerms(op);
    case Configure(j, root) =>
      RootTerms(op, root, lim);
    case AddName(j, name, expected, value) =>
      AddFrame(op, name, expected, value, lim);
  }

  lemma {:induction false} ScheduledTerms(op: Op)
    ensures Scheduled(op).Pending() && Scheduled(op).run == op.run + 1 && Scheduled(op).sends == 0
  {}

  lemma {:induction false} RootTerms(op: Op, root: Text, lim: Limits)
    ensures var r := SetRoot(op, root, lim).1; r.run == op.run && r.status == op.status && r.completed == op.completed
  {
    hide Add;
  }

  lemma {:induction false} OverAct(w: World, act: Act, k: nat, run: nat, lim: Limits)
    requires k < |w.ops| && Over(run, w.ops[k])
    ensures Over(run, RunAct(w, act, lim).ops[k])
    ensures Outcomes(RunAct(w, act, lim).completions, k, run) == Outcomes(w.completions, k, run)
    decreases act, 0
  {
    hide Over, RunActs, Outcomes, Schedule, SetRoot, Add, Release;
    match act
    case Cancel(j, done) =>
      if j < |w.ops| && w.ops[j].Pending() {
        OverRelease(w, j, w.ops[j], Cancelled, k, run);
        OverActs(Release(w, j, w.ops[j], Cancelled), done, k, run, lim);
      }
    case _ => IdleStays(w, act, k, run, lim);
  }

  lemma {:induction false} OverRelease(w: World, j: nat, op: Op, outcome: Status, k: nat, run: nat)
    requires j < |w.ops| && k < |w.ops| && outcome != Status.Pending && Over(run, w.ops[k])
    requires op.run == w.ops[j].run && op.Pending() == w.ops[j].Pending() && w.ops[j].Pending()
    ensures var r := Release(w, j, op, outcome);
            Over(run, r.ops[k]) && Outcomes(r.completions, k, run) == Outcomes(w.completions, k, run)
  {
    hide Outcomes, Release;
    ReleaseLogs(w, j, op, outcome, k, run);
  }

  lemma {:induction false} OverActs(w: World, acts: seq<Act>, k: nat, run: nat, lim: Limits)
    requires k < |w.ops| && Over(run, w.ops[k])
    ensures Over(run, RunActs(w, acts, lim).ops[k])
    ensures Outcomes(RunActs(w, acts, lim).completions, k, run) == Outcomes(w.completions, k, run)
    decreases acts, 0
  {
    hide Over, Outcomes, RunAct;
    if acts != [] {
      OverAct(w, acts[0], k, run, lim);
      OverActs(RunAct(w, acts[0], lim), acts[1..], k, run, lim);
    }
  }

  // ----- a pending run ends exactly when it is cancelled -----

  /** What became of the run that operation k was in: it goes on untouched, or it was cancelled, once. */
  ghost predicate Became(w: World, r: World, k: nat, ends: bool)
    requires k < |w.ops| && k < |r.ops|
  {
    var run := w.ops[k].run;
    if ends then Over(run, r.ops[k]) && Outcomes(r.completions, k, run) == Outcomes(w.completions, k, run) + [Cancelled]
    else r.ops[k] == w.ops[k] && Outcomes(r.completions, k, run) == Outcomes(w.completions, k, run)
  }

  lemma {:induction false} BusyStays(w: World, act: Act, k: nat, lim: Limits)
    requires k < |w.ops| && w.ops[k].Pending() && !act.Cancel?
    ensures RunAct(w, act, lim).completions == w.completions && RunAct(w, act, lim).ops[k] == w.ops[k]
  {
    hide SetRoot, Add, Scheduled, FreeSlot, FinishOp;
    match act
    case Start(j) =>
    case Configure(j, root) =>
      if j == k && w.ops[k].walking {
        ConfigureEvolves(w.ops[k], root, lim);
      }
    case AddName(j, name, expected, value) =>
      if j == k {
        AddBusy(w.ops[k], name, expected, value, lim);
      }
  }

  lemma {:induction false} ActBecame(w: World, act: Act, k: nat, lim: Limits)
    requires k < |w.ops| && w.ops[k].Pending()
    ensures Became(w, RunAct(w, act, lim), k, ActEnds(w, act, k, lim))
    decreases act, 0
  {
    hide Over, RunActs, Outcomes, Schedule, SetRoot, Add, Release;
    match act
    case Cancel(j, done) =>
      if j < |w.ops| && w.ops[j].Pending() {
        var run, r := w.ops[k].run, Release(w, j, w.ops[j], Cancelled);
        ReleaseLogs(w, j, w.ops[j], Cancelled, k, run);
        if j == k {
          assert Over(run, r.ops[k]) by { CompletedIsOver(r.ops[k], run); }
          OverActs(r, done, k, run, lim);
        } else {
          ActsBecame(r, done, k, lim);
        }
      }
    case _ => BusyStays(w, act, k, lim);
  }

  lemma {:induction false} CompletedIsOver(b: Op, run: nat)
    requires b.run == run && !b.Pending() && b.completed
    ensures Over(run, b)
  {}

  lemma {:induction false} ActsBecame(w: World, acts: seq<Act>, k: nat, lim: Limits)
    requires k < |w.ops| && w.ops[k].Pending()
    ensures Became(w, RunActs(w, acts, lim), k, Ends(w, acts, k, lim))
    decreases acts, 0
  {
    hide Over, Outcomes, RunAct, ActEnds;
    if acts != [] {
      ActBecame(w, acts[0], k, lim);
      var next := RunAct(w, acts[0], lim);
      if ActEnds(w, acts[0], k, lim) {
        OverActs(next, acts[1..], k, w.ops[k].run, lim);
      } else {
        ActsBecame(next, acts[1..], k, lim);
      }
    }
  }

  // ----- the refusal -----

  /** The effect of a refusal, as a function of the calls that the callback has made. */
  lemma {:induction false} RefusalAfterCalls(w: World, k: nat, cell: Cell, acts: seq<Act>, done: seq<Act>, lim: Limits)
    requires Inv(w, lim) && k < |w.ops| && w.ops[k].Pending()
    ensures var w0 := Put(w, k, Shown(w.ops[k], cell));
            var w1 := RunActs(w0, acts, lim);
            RefusedAs(w, k, cell, Ends(w0, acts, k, lim), w1, FinishOp(w1, k, w1.ops[k], CapacityExceeded, done, lim))
  {
    InvOp(w, k, lim);
    ShownTerms(w.ops[k], cell);
    assert OpInv(w.ops[k], lim) && w.ops[k].Pending() ==> !w.ops[k].completed;
    hide Inv, OpInv, RunActs, Outcomes, Shown, Release, Over, Ends;
    var w0 := Put(w, k, Shown(w.ops[k], cell));
    ActsBecame(w0, acts, k, lim);
    var w1 := RunActs(w0, acts, lim);
    var run, b := w.ops[k].run, w1.ops[k];
    OverTerms(run, b);
    Refused(w1, k, run, done, lim);
    Refused(w1, k, b.run, done, lim);
  }

  /**
   * What became of the run shown in world w, given whether the callback had ended it itself in w1, and of the later
   * run.
   */
  ghost predicate RefusedAs(w: World, k: nat, cell: Cell, ended: bool, w1: World, r: World)
    requires k < |w.ops| && k < |w1.ops|
  {
    var run, b := w.ops[k].run, w1.ops[k];
    var before, after := Outcomes(w.completions, k, run), Outcomes(r.completions, k, run);
    && (b.Pending() && b.run == run <==> !ended)
    && (!ended ==> b == Shown(w.ops[k], cell) && !b.completed && after == before + [CapacityExceeded])
    && (ended && b.run == run ==> !b.Pending() && b.completed && after == before + [Cancelled] + [CapacityExceeded])
    && (ended && b.run != run ==>
          && b.run > run && after == before + [Cancelled]
          && Outcomes(r.completions, k, b.run) == Outcomes(w1.completions, k, b.run) + [CapacityExceeded])
  }

  /**
   * A callback that returns false ends the walk: exactly when the callback did not cancel the walk, in whatever
   * completion handler, is it the run shown that ends, once and with CapacityExceeded. Otherwise that run has ended
   * already, as Cancelled, and it is either completed a second time, or a later run, which the callback has started,
   * ends instead.
   */
  lemma {:induction false} RefusalEndsTheRunShown(w: World, k: nat, bs: seq<Binding>, any: bool, shows: seq<Show>,
                                                  done: seq<Act>,
                                                  lim: Limits)
    requires Inv(w, lim) && k < |w.ops| && w.ops[k].Pending()
    requires bs != [] && w.ops[k].streaming && VisitBinding(w.ops[k], bs[0], lim).Deliver? && !FirstShow(shows).accept
    ensures var cell, acts := VisitBinding(w.ops[k], bs[0], lim).cell, FirstShow(shows).acts;
            var w0 := Put(w, k, Shown(w.ops[k], cell));
            RefusedAs(w, k, cell, Ends(w0, acts, k, lim), RunActs(w0, acts, lim),
                      WalkLoop(w, k, bs, any, shows, done, lim))
  {
    hide Inv, WalkLoop, VisitBinding, RunActs, FinishOp, RefusedAs, Ends, Shown;
    WalkLoopShown(w, k, bs, any, shows, done, lim);
    RefusalAfterCalls(w, k, VisitBinding(w.ops[k], bs[0], lim).cell, FirstShow(shows).acts, done, lim);
  }

  lemma {:induction false} OverTerms(run: nat, b: Op)
    ensures Over(run, b) <==> b.run > run || (b.run == run && !b.Pending() && b.completed)
  {}

  /** The refusal completes whatever run the operation is in, and the handler cannot complete that run again. */
  lemma {:induction false} Refused(w: World, k: nat, run: nat, done: seq<Act>, lim: Limits)
    requires k < |w.ops| && run <= w.ops[k].run
    ensures Outcomes(FinishOp(w, k, w.ops[k], CapacityExceeded, done, lim).completions, k, run) ==
            Outcomes(w.completions, k, run) + (if w.ops[k].run == run then [CapacityExceeded] else [])
  {
    hide RunActs, Outcomes, Release, Over;
    var r := Release(w, k, w.ops[k], CapacityExceeded);
    ReleaseLogs(w, k, w.ops[k], CapacityExceeded, k, run);
    OverTerms(run, r.ops[k]);
    OverActs(r, done, k, run, lim);
  }

  lemma {:induction false} ShownTerms(op: Op, cell: Cell)
    ensures Shown(op, cell).Pending() == op.Pending() && Shown(op, cell).run == op.run
    ensures Shown(op, cell).completed == op.completed
    ensures Finished(Shown(op, cell), Cancelled).run == op.run
  {
    hide SettleAll;
  }

  // ----- the two failures -----

  lemma {:induction false} NoActs(w: World, lim: Limits)
    ensures RunActs(w, [], lim) == w
  {}

  /** A callback that cancels the walk and refuses the value: Cancelled is overwritten by CapacityExceeded. */
  lemma {:induction false} RefusalAfterCancel(w: World, k: nat, cell: Cell, lim: Limits)
    requires Inv(w, lim) && k < |w.ops| && w.ops[k].Pending()
    ensures var run, w0 := w.ops[k].run, Put(w, k, Shown(w.ops[k], cell));
            var w1 := RunActs(w0, [Cancel(k, [])], lim);
            var r := FinishOp(w1, k, w1.ops[k], CapacityExceeded, [], lim);
            && w1.ops[k].status == Cancelled && w1.ops[k].run == run
            && r.ops[k].status == CapacityExceeded && r.ops[k].run == run
            && Outcomes(r.completions, k, run) == Outcomes(w.completions, k, run) + [Cancelled] + [CapacityExceeded]
  {
    hide Inv, Outcomes, Shown, Release, Ends, SettleAll;
    ShownTerms(w.ops[k], cell);
    var w0 := Put(w, k, Shown(w.ops[k], cell));
    CancelOnly(w0, k, lim);
    var w1 := Release(w0, k, w0.ops[k], Cancelled);
    ReleaseLogs(w0, k, w0.ops[k], Cancelled, k, w.ops[k].run);
    ReleaseLogs(w1, k, w1.ops[k], CapacityExceeded, k, w.ops[k].run);
    NoActs(Release(w1, k, w1.ops[k], CapacityExceeded), lim);
  }

  lemma {:induction false} CancelOnly(w: World, k: nat, lim: Limits)
    requires k < |w.ops| && w.ops[k].Pending()
    ensures RunActs(w, [Cancel(k, [])], lim) == Release(w, k, w.ops[k], Cancelled)
  {
    hide Release;
    var cancelled := Release(w, k, w.ops[k], Cancelled);
    assert [Cancel(k, [])][1..] == [];
    NoActs(cancelled, lim);
    assert RunAct(w, Cancel(k, []), lim) == cancelled;
  }

  /** A callback that cancels the walk, starts it again and refuses the value: the new run ends unsent. */
  lemma {:induction false} RefusalEndsTheNextRun(w: World, k: nat, cell: Cell, lim: Limits)
    requires Inv(w, lim) && k < |w.ops| && w.ops[k].Pending() && w.ops[k].walking
    ensures var w1 := RunActs(Put(w, k, Shown(w.ops[k], cell)), [Cancel(k, []), Start(k)], lim);
            && w1.ops[k].Pending() && w1.ops[k].run == w.ops[k].run + 1 && w1.ops[k].sends == 0
            && var r := FinishOp(w1, k, w1.ops[k], CapacityExceeded, [], lim);
            r.ops[k].status == CapacityExceeded && r.ops[k].run == w.ops[k].run + 1 && r.ops[k].sends == 0
  {
    hide OpInv, WireOk, IdsOk, OpsOk, SettleAll, Admission, Scheduled, Finished, RunActs;
    var shown := Shown(w.ops[k], cell);
    RunIsStartable(w, k, lim);
    FinishedAdmitted(shown, Cancelled);
    hide Shown;
    ShownTerms(w.ops[k], cell);
    var w0 := Put(w, k, shown);
    var done := Finished(shown, Cancelled);
    var cancelled := Release(w0, k, shown, Cancelled);
    var i :| 0 <= i < |w.slots| && w.slots[i] == k;
    assert cancelled.slots[i] == FREE;
    FreeSlotExists(cancelled.slots);
    var w1 := Schedule(cancelled, k).1;
    assert w1.ops[k] == Scheduled(done);
    ScheduledTerms(done);
    CancelThenStart(w0, k, lim);
    FinishedTerms(w1.ops[k], CapacityExceeded);
    NoActs(Release(w1, k, w1.ops[k], CapacityExceeded), lim);
  }

  lemma {:induction false} CancelThenStart(w: World, k: nat, lim: Limits)
    requires k < |w.ops| && w.ops[k].Pending()
    ensures RunActs(w, [Cancel(k, []), Start(k)], lim) == Schedule(Release(w, k, w.ops[k], Cancelled), k).1
  {
    hide Schedule, Release;
    var cancelled := Release(w, k, w.ops[k], Cancelled);
    assert [Cancel(k, []), Start(k)][1..] == [Start(k)] && [Start(k)][1..] == [];
    NoActs(cancelled, lim);
    assert RunAct(w, Cancel(k, []), lim) == cancelled;
    NoActs(Schedule(cancelled, k).1, lim);
    assert RunActs(cancelled, [Start(k)], lim) == Schedule(cancelled, k).1;
  }
}

/**
 * The table on top of the client: its one streaming walk, restarted for column after column in its own completion
 * handler, always starts, shows what `Consume` asks for, and leaves in the log what the table's history says.
 */
module TableWalks {
  import opened Bytes
  import opened Oids
  import opened Messages
  import opened Values
  import opened Operations
  import opened OperationLaws
  import opened ReplyLaws
  import opened Engine
  import opened EngineLaws
  import opened StepLaws
  import opened Consequences
  import opened Joins
  import Table

  // ----- the walk and the table's history -----

  /** A completion of walk k below a root, with what it had taken and its outcome. */
  ghost predicate Logs(c: Completion, k: nat, root: Text, got: seq<Cell>, outcome: Status) {
    && c.op == k && c.state.walking && c.state.settled
    && c.state.root == root && c.state.taken == got && c.state.status == outcome
  }

  ghost predicate WalkLogged(log: seq<Completion>, k: nat, root: Text, got: seq<Cell>, outcome: Status) {
    exists i :: 0 <= i < |log| && Logs(log[i], k, root, got, outcome)
  }

  /** The history of a finished column is what walk k did. */
  ghost predicate ColumnLogged(col: Column, run: ColumnRun, log: seq<Completion>, k: nat) {
    && WalkLogged(log, k, col.oid, run.primary, run.primaryOutcome)
    && if run.fallback.Some? then WalkLogged(log, k, col.fallback, run.fallback.value, run.outcome)
       else run.outcome == run.primaryOutcome
  }

  ghost predicate ColumnsLogged(cols: seq<Column>, runs: seq<ColumnRun>, n: nat, log: seq<Completion>, k: nat)
    requires n <= |runs| <= |cols|
  {
    forall c :: 0 <= c < n ==> ColumnLogged(cols[c], runs[c], log, k)
  }

  /**
   * Walk k is the table's open walk: it is below the root the table reads and has taken what the table has consumed.
   */
  ghost predicate Coupled(cols: seq<Column>, runs: seq<ColumnRun>, w: World, k: nat) {
    && k < |w.ops| && 0 < |runs| <= |cols|
    && ColumnsLogged(cols, runs, |runs| - 1, w.completions, k)
    && (runs[|runs| - 1].fallback.Some? ==>
          var run := runs[|runs| - 1];
          WalkLogged(w.completions, k, cols[|runs| - 1].oid, run.primary, run.primaryOutcome))
    && Stands(w.ops[k], OpenRoot(cols, runs), OpenNames(runs))
  }

  predicate Stands(op: Op, root: Text, got: seq<Cell>) {
    op.walking && op.streaming && op.Pending() && op.root == root && op.taken == got
  }

  /** The table's columns as `addColumn` keeps them. */
  ghost predicate KeptColumns(cols: seq<Column>, lim: Limits) {
    forall c :: 0 <= c < |cols| ==>
      && Canonical(cols[c].oid) && |cols[c].oid| < lim.oidText
      && (cols[c].fallback != [] ==> Canonical(cols[c].fallback) && |cols[c].fallback| < lim.oidText)
  }

  lemma {:induction false} LogGrows(a: seq<Completion>, b: seq<Completion>, k: nat, root: Text, got: seq<Cell>,
                                    outcome: Status)
    requires a <= b && WalkLogged(a, k, root, got, outcome)
    ensures WalkLogged(b, k, root, got, outcome)
  {
    hide Logs;
    var i :| 0 <= i < |a| && Logs(a[i], k, root, got, outcome);
    assert Logs(b[i], k, root, got, outcome);
  }

  lemma {:induction false} ColumnsGrow(cols: seq<Column>, runs: seq<ColumnRun>, n: nat, a: seq<Completion>,
                                       b: seq<Completion>, k: nat)
    requires n <= |runs| <= |cols| && a <= b && ColumnsLogged(cols, runs, n, a, k)
    ensures ColumnsLogged(cols, runs, n, b, k)
  {
    hide WalkLogged;
    forall c | 0 <= c < n
      ensures ColumnLogged(cols[c], runs[c], b, k)
    {
      var col, run := cols[c], runs[c];
      assert ColumnLogged(col, run, a, k);
      LogGrows(a, b, k, col.oid, run.primary, run.primaryOutcome);
      if run.fallback.Some? {
        LogGrows(a, b, k, col.fallback, run.fallback.value, run.outcome);
      }
    }
  }

  // ----- starting a walk of the table -----

  /** A canonical text is its own kept spelling. */
  lemma {:induction false} KeptAsIs(t: Text, lim: Limits)
    requires Canonical(t) && |t| < lim.oidText
    ensures CanonicalForm(t, lim) == Some(t) && t != []
  {
    TextRoundTrip(t, lim);
  }

  /** What the table does to its walk: give it the next root and start it. */
  function Restart(k: nat, root: Text): seq<Act> { [Configure(k, root), Engine.Start(k)] }

  /** The table's walk is idle, on a client that can start it. */
  ghost predicate Idle(w: World, k: nat) {
    && k < |w.ops| && w.begun && FREE in w.slots
    && w.ops[k].walking && w.ops[k].streaming && !w.ops[k].Pending() && w.ops[k].capacity > 0 && Startable(w.ops[k].dev)
  }

  lemma {:induction false} RestartIs(w: World, k: nat, root: Text, lim: Limits)
    requires k < |w.ops| && w.ops[k].walking
    ensures RunActs(w, Restart(k, root), lim) == Engine.Schedule(Put(w, k, SetRoot(w.ops[k], root, lim).1), k).1
  {
    hide SetRoot, Engine.Schedule;
    var acts := Restart(k, root);
    assert acts[1..] == [Engine.Start(k)] && acts[1..][1..] == [];
    var w1 := RunAct(w, acts[0], lim);
    assert w1 == Put(w, k, SetRoot(w.ops[k], root, lim).1);
    assert RunActs(w1, acts[1..], lim) == RunActs(RunAct(w1, Engine.Start(k), lim), [], lim);
  }

  /**
   * Configuring the idle walk with a kept root and starting it succeeds: the walk stands at the new root, with nothing
   * taken.
   */
  lemma {:induction false} RestartStarts(w: World, k: nat, root: Text, lim: Limits)
    requires Idle(w, k) && Canonical(root) && |root| < lim.oidText
    ensures SetRoot(w.ops[k], root, lim).0 == Success
    ensures Engine.Schedule(Put(w, k, SetRoot(w.ops[k], root, lim).1), k).0 == Success
    ensures var r := RunActs(w, Restart(k, root), lim);
            |r.ops| == |w.ops| && Stands(r.ops[k], root, []) && r.completions == w.completions
  {
    hide SetRoot, RunActs, Canonical, CanonicalForm;
    KeptAsIs(root, lim);
    RootAccepted(w.ops[k], root, lim);
    RestartIs(w, k, root, lim);
    FreeSlotExists(w.slots);
    var o := SetRoot(w.ops[k], root, lim).1;
    RestartedStands(o, root);
    hide Scheduled, Admission, FreeSlot, Stands;
  }

  lemma {:induction false} RestartedStands(op: Op, root: Text)
    requires op.walking && op.streaming && !op.Pending() && op.root == root != [] && Startable(op.dev)
    ensures Admission(op, true) == Success && Stands(Scheduled(op), root, [])
  {}

  /** The table's own start. */
  lemma {:induction false} StartCouples(cols: seq<Column>, w: World, k: nat, lim: Limits)
    requires cols != [] && KeptColumns(cols, lim) && Idle(w, k)
    ensures Coupled(cols, [Table.OPEN], RunActs(w, Restart(k, cols[0].oid), lim), k)
  {
    hide RunActs, Canonical, Stands, Restart;
    RestartStarts(w, k, cols[0].oid, lim);
  }

  // ----- a value is shown -----

  lemma {:induction false} TakenIs(op: Op, cell: Cell, lim: Limits)
    requires OpInv(op, lim) && op.Pending() && op.walking
    requires OpInv(Shown(op, cell), lim)
    ensures Chain(op.root, op.delivered + [cell.oid]) && NamesOf(op.taken, op.delivered)
  {
    hide Chain, NamedCells, Canonical;
  }

  /**
   * When the walk shows a value to the table, the names delivered so far are those of the table's open walk and the new
   * one continues them below the root: what `TableRead.Consume` asks for. If the table takes the value, the two go on
   * together.
   */
  lemma {:induction false} ShowCouples(cols: seq<Column>, runs: seq<ColumnRun>, w: World, k: nat, b: Binding,
                                       lim: Limits)
    requires Inv(w, lim) && Coupled(cols, runs, w, k) && w.ops[k].showing == None && w.ops[k].id != 0
    requires Canonical(b.name) && |b.name| < lim.oidText && Offered(w.ops[k].replies, b)
    requires VisitBinding(w.ops[k], b, lim).Deliver?
    ensures var op, cell := w.ops[k], VisitBinding(w.ops[k], b, lim).cell;
            && NamesOf(OpenNames(runs), op.delivered) && Chain(OpenRoot(cols, runs), op.delivered + [cell.oid])
            && Coupled(cols, Joins.Deliver(runs, cell), Put(w, k, Advanced(Shown(op, cell), cell)), k)
  {
    InvOp(w, k, lim);
    var op, cell := w.ops[k], VisitBinding(w.ops[k], b, lim).cell;
    DeliverKeeps(op, b, lim);
    hide Inv, OpInv, VisitBinding, Chain, Offered, NamesOf, Canonical;
    TakenIs(op, cell, lim);
    DeliveredCouples(cols, runs, w, k, cell);
  }

  lemma {:induction false} DeliveredCouples(cols: seq<Column>, runs: seq<ColumnRun>, w: World, k: nat, cell: Cell)
    requires Coupled(cols, runs, w, k)
    ensures Coupled(cols, Joins.Deliver(runs, cell), Put(w, k, Advanced(Shown(w.ops[k], cell), cell)), k)
  {
    hide ColumnLogged, WalkLogged;
    var next, n := Joins.Deliver(runs, cell), |runs| - 1;
    forall c | 0 <= c < n
      ensures ColumnLogged(cols[c], next[c], w.completions, k)
    {
      assert ColumnLogged(cols[c], runs[c], w.completions, k);
    }
  }

  // ----- a walk ends -----

  /** The operation as it is finished: what it took is what the table consumed. */
  lemma {:induction false} EndLogged(w: World, k: nat, op: Op, outcome: Status)
    requires k < |w.ops| && op.walking && op.Pending() && outcome != Status.Pending
    ensures WalkLogged(Release(w, k, op, outcome).completions, k, op.root, op.taken, outcome)
  {
    hide SettleAll;
    var log := Release(w, k, op, outcome).completions;
    assert Logs(log[|w.completions|], k, op.root, op.taken, outcome);
  }

  lemma {:induction false} ReleasedIdle(w: World, k: nat, op: Op, outcome: Status, lim: Limits)
    requires Inv(w, lim) && k < |w.ops| && w.ops[k].Pending() && outcome != Status.Pending
    requires op.walking && op.streaming && op.capacity > 0 && op.dev == w.ops[k].dev
    ensures Idle(Release(w, k, op, outcome), k)
  {
    RunIsStartable(w, k, lim);
    SlotFreed(w, k, op, outcome);
    hide Inv, SettleAll, Startable;
  }

  /** The walk's end closes the table's column with exactly what the log says. */
  lemma {:induction false} EndCloses(cols: seq<Column>, runs: seq<ColumnRun>, w: World, k: nat, op: Op, outcome: Status)
    requires Coupled(cols, runs, w, k) && outcome != Status.Pending
    requires Stands(op, w.ops[k].root, w.ops[k].taken)
    ensures ColumnsLogged(cols, Table.Closed(runs, outcome), |runs|, Release(w, k, op, outcome).completions, k)
  {
    hide ColumnLogged, WalkLogged, Finished;
    var next, n := Table.Closed(runs, outcome), |runs| - 1;
    var log := Release(w, k, op, outcome).completions;
    EndLogged(w, k, op, outcome);
    ColumnsGrow(cols, runs, n, w.completions, log, k);
    if runs[n].fallback.Some? {
      LogGrows(w.completions, log, k, cols[n].oid, runs[n].primary, runs[n].primaryOutcome);
    }
    LastLogged(cols[n], next[n], log, k);
    forall c | 0 <= c < n + 1
      ensures ColumnLogged(cols[c], next[c], log, k)
    {
      assert c < n ==> next[c] == runs[c] && ColumnLogged(cols[c], runs[c], log, k);
    }
  }

  lemma {:induction false} LastLogged(col: Column, run: ColumnRun, log: seq<Completion>, k: nat)
    requires WalkLogged(log, k, col.oid, run.primary, run.primaryOutcome)
    requires run.fallback.Some? ==> WalkLogged(log, k, col.fallback, run.fallback.value, run.outcome)
    requires run.fallback.None? ==> run.outcome == run.primaryOutcome
    ensures ColumnLogged(col, run, log, k)
  {}

  lemma {:induction false} OpenCouples(cols: seq<Column>, closed: seq<ColumnRun>, w: World, k: nat)
    requires |closed| < |cols| && k < |w.ops| && ColumnsLogged(cols, closed, |closed|, w.completions, k)
    requires Stands(w.ops[k], cols[|closed|].oid, [])
    ensures Coupled(cols, closed + [Table.OPEN], w, k)
  {
    hide ColumnLogged, Stands;
    var next := closed + [Table.OPEN];
    forall c | 0 <= c < |closed|
      ensures ColumnLogged(cols[c], next[c], w.completions, k)
    {
      assert ColumnLogged(cols[c], closed[c], w.completions, k);
    }
  }

  lemma {:induction false} ReopenCouples(cols: seq<Column>, runs: seq<ColumnRun>, outcome: Status, w: World, k: nat)
    requires 0 < |runs| <= |cols| && k < |w.ops| && runs[|runs| - 1].fallback.None?
    requires ColumnsLogged(cols, runs, |runs| - 1, w.completions, k)
    requires WalkLogged(w.completions, k, cols[|runs| - 1].oid, runs[|runs| - 1].primary, outcome)
    requires Stands(w.ops[k], cols[|runs| - 1].fallback, [])
    ensures Coupled(cols, Table.Reopened(runs, outcome), w, k)
  {
    hide ColumnLogged, WalkLogged, Stands;
    var n, next := |runs| - 1, Table.Reopened(runs, outcome);
    forall c | 0 <= c < n
      ensures ColumnLogged(cols[c], next[c], w.completions, k)
    {
      assert ColumnLogged(cols[c], runs[c], w.completions, k);
    }
  }

  lemma {:induction false} CoupledFacts(cols: seq<Column>, runs: seq<ColumnRun>, w: World, k: nat)
    requires Coupled(cols, runs, w, k)
    ensures k < |w.ops| && 0 < |runs| <= |cols| && w.ops[k].Pending() && w.ops[k].walking
    ensures ColumnsLogged(cols, runs, |runs| - 1, w.completions, k)
    ensures w.ops[k].root == OpenRoot(cols, runs) && w.ops[k].taken == OpenNames(runs)
  {
    hide ColumnLogged, WalkLogged;
  }

  /** In the completion handler the walk of the next column starts, and it is the table's next open walk. */
  lemma {:induction false} NextColumnCouples(cols: seq<Column>, runs: seq<ColumnRun>, w: World, k: nat, op: Op,
                                             outcome: Status,
                                             lim: Limits)
    requires Inv(w, lim) && Coupled(cols, runs, w, k) && outcome != Status.Pending && KeptColumns(cols, lim)
    requires |runs| < |cols|
    requires Stands(op, w.ops[k].root, w.ops[k].taken) && op.capacity > 0 && op.dev == w.ops[k].dev
    ensures var r := RunActs(Release(w, k, op, outcome), Restart(k, cols[|runs|].oid), lim);
            Coupled(cols, Table.Closed(runs, outcome) + [Table.OPEN], r, k)
  {
    hide ColumnsLogged, Release, RunActs, Inv, Canonical, Restart, Table.Closed, Coupled, Idle;
    CoupledFacts(cols, runs, w, k);
    EndCloses(cols, runs, w, k, op, outcome);
    ReleasedIdle(w, k, op, outcome, lim);
    RestartStarts(Release(w, k, op, outcome), k, cols[|runs|].oid, lim);
    hide Stands;
    OpenCouples(cols, Table.Closed(runs, outcome), RunActs(Release(w, k, op, outcome), Restart(k, cols[|runs|].oid),
                lim), k);
  }

  /** Likewise the fallback walk of the same column. */
  lemma {:induction false} FallbackCouples(cols: seq<Column>, runs: seq<ColumnRun>, w: World, k: nat, op: Op,
                                           outcome: Status, lim: Limits)
    requires Inv(w, lim) && Coupled(cols, runs, w, k) && outcome != Status.Pending && KeptColumns(cols, lim)
    requires runs[|runs| - 1].fallback.None? && cols[|runs| - 1].fallback != []
    requires Stands(op, w.ops[k].root, w.ops[k].taken) && op.capacity > 0 && op.dev == w.ops[k].dev
    ensures var r := RunActs(Release(w, k, op, outcome), Restart(k, cols[|runs| - 1].fallback), lim);
            Coupled(cols, Table.Reopened(runs, outcome), r, k)
  {
    hide ColumnsLogged, WalkLogged, Release, RunActs, Inv, Canonical, Restart, Coupled, Idle;
    CoupledFacts(cols, runs, w, k);
    var n, r := |runs| - 1, Release(w, k, op, outcome);
    EndLogged(w, k, op, outcome);
    ReleasedIdle(w, k, op, outcome, lim);
    RestartStarts(r, k, cols[n].fallback, lim);
    ReleaseLog(w, k, op, outcome);
    hide Stands;
    ColumnsGrow(cols, runs, n, w.completions, r.completions, k);
    ReopenCouples(cols, runs, outcome, RunActs(r, Restart(k, cols[n].fallback), lim), k);
  }

  lemma {:induction false} ReleaseLog(w: World, k: nat, op: Op, outcome: Status)
    requires k < |w.ops|
    ensures w.completions <= Release(w, k, op, outcome).completions
  {
    hide Finished;
  }

  /**
   * Everything else leaves the coupling alone: the log only grows, and the walk keeps its root and what it has taken.
   */
  lemma {:induction false} QuietCouples(cols: seq<Column>, runs: seq<ColumnRun>, w: World, r: World, k: nat)
    requires Coupled(cols, runs, w, k) && w.completions <= r.completions && |r.ops| == |w.ops|
    requires Stands(r.ops[k], w.ops[k].root, w.ops[k].taken)
    ensures Coupled(cols, runs, r, k)
  {
    hide ColumnLogged, WalkLogged;
    var n := |runs| - 1;
    ColumnsGrow(cols, runs, n, w.completions, r.completions, k);
    if runs[n].fallback.Some? {
      LogGrows(w.completions, r.completions, k, cols[n].oid, runs[n].primary, runs[n].primaryOutcome);
    }
  }
}

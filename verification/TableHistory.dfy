/**
 * The table as a function of the log: replaying the completions of its one walk gives the history that the object
 * builds call by call, and at the end the contract of a finished table.
 */
module TableHistory {
  import opened Bytes
  import opened Values
  import opened Engine
  import opened Joins
  import opened Table
  import opened TableWalks

  // ----- the log of one walk -----

  function Own(log: seq<Completion>, k: nat): seq<Completion> {
    if log == [] then []
    else
      var last := log[|log| - 1];
      Own(log[..|log| - 1], k) + (if last.op == k then [last] else [])
  }

  lemma {:induction false} OwnIsLogged(log: seq<Completion>, k: nat, i: nat)
    requires i < |Own(log, k)|
    ensures Own(log, k)[i] in log && Own(log, k)[i].op == k
    decreases |log|
  {
    var before, last := log[..|log| - 1], log[|log| - 1];
    assert log == before + [last];
    if i < |Own(before, k)| {
      OwnIsLogged(before, k, i);
      assert Own(before, k)[i] in before;
    }
  }

  // ----- one walk after the other -----

  /** Where a table stands between two walks: about to make one, ended by one, or complete. */
  datatype Progress = Walking(runs: seq<ColumnRun>) | Stopped | Over(runs: seq<ColumnRun>)

  /** The open walk has delivered these cells. */
  function Filled(runs: seq<ColumnRun>, got: seq<Cell>): (r: seq<ColumnRun>)
    requires runs != []
    ensures |r| == |runs|
  {
    var n := |runs| - 1;
    runs[n := if runs[n].fallback.Some? then runs[n].(fallback := Some(got)) else runs[n].(primary := got)]
  }

  /** What one walk does to the table: it delivers, it ends, and the table decides how to go on. */
  function AfterOne(cols: seq<Column>, width: nat, runs: seq<ColumnRun>, got: seq<Cell>, outcome: Status): (p: Progress)
    requires 0 < |runs| <= |cols| <= width
    ensures p.Walking? ==> 0 < |p.runs| <= |cols|
    ensures p.Over? ==> |p.runs| == |cols| || |p.runs| == |runs|
  {
    var filled := Filled(runs, got);
    JoinWidth(cols, filled, width);
    if outcome == Cancelled || outcome == CapacityExceeded then Stopped
    else
      match AfterWalk(cols, Join(cols, filled, width), width, |runs| - 1, runs[|runs| - 1].fallback.Some?, outcome)
      case ToFallback => Walking(Reopened(filled, outcome))
      case ToColumn => Walking(Closed(filled, outcome) + [OPEN])
      case Done => Over(Closed(filled, outcome))
  }

  /** The table after the completions of its walk so far. */
  function Replayed(cols: seq<Column>, width: nat, own: seq<Completion>): (p: Progress)
    requires 0 < |cols| <= width
    ensures p.Walking? ==> 0 < |p.runs| <= |cols|
  {
    if own == [] then Walking([OPEN])
    else
      var p, last := Replayed(cols, width, own[..|own| - 1]), own[|own| - 1].state;
      if p.Walking? then AfterOne(cols, width, p.runs, last.taken, last.status) else p
  }

  /** The table drives the walk: each of its runs is made below the root that the table reads next. */
  ghost predicate Driven(cols: seq<Column>, width: nat, own: seq<Completion>)
    requires 0 < |cols| <= width
  {
    forall i :: 0 <= i < |own| ==> DrivenAt(cols, width, own, i)
  }

  ghost predicate DrivenAt(cols: seq<Column>, width: nat, own: seq<Completion>, i: nat)
    requires 0 < |cols| <= width && i < |own|
  {
    var p := Replayed(cols, width, own[..i]);
    p.Walking? ==> own[i].state.walking && own[i].state.settled && own[i].state.root == OpenRoot(cols, p.runs)
  }

  // ----- the object replays the log -----

  /** The deliveries of a walk, one by one. */
  function DeliverAll(runs: seq<ColumnRun>, got: seq<Cell>): (r: seq<ColumnRun>)
    requires runs != []
    ensures |r| == |runs|
  {
    if got == [] then runs else Joins.Deliver(DeliverAll(runs, got[..|got| - 1]), got[|got| - 1])
  }

  /** Consuming what a walk delivers, value by value, leaves the history that the replay has. */
  lemma {:induction false} DeliveredIsFilled(runs: seq<ColumnRun>, got: seq<Cell>)
    requires runs != [] && OpenNames(runs) == []
    ensures DeliverAll(runs, got) == Filled(runs, got)
    decreases |got|
  {
    var n := |runs| - 1;
    if got == [] {
      assert runs[n := runs[n]] == runs;
    } else {
      var before := got[..|got| - 1];
      DeliveredIsFilled(runs, before);
      assert before + [got[|got| - 1]] == got;
    }
  }

  // ----- what the replay keeps -----

  /** The table reads: its rows are the join so far, its rules are kept, and the log shows its closed walks. */
  ghost predicate Underway(cols: seq<Column>, width: nat, runs: seq<ColumnRun>, log: seq<Completion>, k: nat) {
    && 0 < |runs| <= |cols| <= width
    && Reading(cols, runs, width, |runs| - 1, runs[|runs| - 1].fallback.Some?, OpenRoot(cols, runs),
               !WalksOk(runs, |runs| - 1), Join(cols, runs, width))
    && ColumnsLogged(cols, runs, |runs| - 1, log, k)
    && (runs[|runs| - 1].fallback.Some? ==>
          var run := runs[|runs| - 1]; WalkLogged(log, k, cols[|runs| - 1].oid, run.primary, run.primaryOutcome))
  }

  lemma {:induction false} FilledReads(cols: seq<Column>, width: nat, runs: seq<ColumnRun>, got: seq<Cell>)
    requires 0 < |runs| <= |cols| <= width
    requires Reading(cols, runs, width, |runs| - 1, runs[|runs| - 1].fallback.Some?, OpenRoot(cols, runs),
                     !WalksOk(runs, |runs| - 1), Join(cols, runs, width))
    ensures var f := Filled(runs, got);
            && Reading(cols, f, width, |f| - 1, f[|f| - 1].fallback.Some?, OpenRoot(cols, f), !WalksOk(f, |f| - 1),
                       Join(cols, f, width))
            && OpenRoot(cols, f) == OpenRoot(cols, runs) && OpenNames(f) == got
  {
    var n, f := |runs| - 1, Filled(runs, got);
    assert f[..n] == runs[..n];
    SameWalksOk(runs, f, n);
    hide Join, FallbackRule, WalksOk;
    RulesKept(cols, runs, f, width, n);
    if runs[n].fallback.Some? {
      assert FallbackRule(cols, runs, width, n);
      OpenRule(cols, runs, f, width, n);
    }
  }

  lemma {:induction false} FilledLogged(cols: seq<Column>, runs: seq<ColumnRun>, got: seq<Cell>, log: seq<Completion>,
                                        k: nat)
    requires 0 < |runs| <= |cols| && ColumnsLogged(cols, runs, |runs| - 1, log, k)
    ensures ColumnsLogged(cols, Filled(runs, got), |runs| - 1, log, k)
  {
    hide ColumnLogged;
    var n, f := |runs| - 1, Filled(runs, got);
    forall c | 0 <= c < n
      ensures ColumnLogged(cols[c], f[c], log, k)
    {
      assert ColumnLogged(cols[c], runs[c], log, k);
    }
  }

  /** The status of a table whose walks are done. */
  function TableStatus(cols: seq<Column>, runs: seq<ColumnRun>, rows: seq<Row>): Status {
    if CellsOk(rows, |cols|) && WalksOk(runs, |runs|) then Success else Partial
  }

  /** The table is finished: it meets its contract, and the log shows every walk it was built from. */
  ghost predicate Done(cols: seq<Column>, width: nat, runs: seq<ColumnRun>, log: seq<Completion>, k: nat) {
    && |runs| == |cols| <= width
    && Table.Complete(cols, runs, width, Join(cols, runs, width), TableStatus(cols, runs, Join(cols, runs, width)))
    && ColumnsLogged(cols, runs, |runs|, log, k)
  }

  ghost predicate Sound(cols: seq<Column>, width: nat, p: Progress, log: seq<Completion>, k: nat) {
    match p
    case Walking(runs) => Underway(cols, width, runs, log, k) && OpenNames(runs) == []
    case Stopped => true
    case Over(runs) => Done(cols, width, runs, log, k)
  }

  /** The end of a column's last walk. */
  lemma {:induction false} ClosesSound(cols: seq<Column>, width: nat, runs: seq<ColumnRun>, got: seq<Cell>,
                                       outcome: Status,
                                       log: seq<Completion>, k: nat)
    requires Underway(cols, width, runs, log, k) && OpenNames(runs) == got
    requires WalkLogged(log, k, OpenRoot(cols, runs), got, outcome)
    ensures ColumnsLogged(cols, Closed(runs, outcome), |runs|, log, k)
  {
    hide ColumnLogged, WalkLogged, Reading;
    var n, next := |runs| - 1, Closed(runs, outcome);
    LastLogged(cols[n], next[n], log, k);
    forall c | 0 <= c < n + 1
      ensures ColumnLogged(cols[c], next[c], log, k)
    {
      assert c < n ==> next[c] == runs[c] && ColumnLogged(cols[c], runs[c], log, k);
    }
  }

  lemma {:induction false} NextSound(cols: seq<Column>, width: nat, closed: seq<ColumnRun>, rows: seq<Row>,
                                     log: seq<Completion>, k: nat)
    requires closed != [] && |closed| < |cols| <= width && rows == Join(cols, closed, width)
    requires RulesUpTo(cols, closed, width, |closed|) && ColumnsLogged(cols, closed, |closed|, log, k)
    ensures Underway(cols, width, closed + [OPEN], log, k) && OpenNames(closed + [OPEN]) == []
  {
    NextColumnKeeps(cols, closed, width, rows, !WalksOk(closed, |closed|));
    OpenColumn(cols, closed, width);
    var next := closed + [OPEN];
    assert next[..|closed|] == closed;
    SameWalksOk(closed, next, |closed|);
    hide ColumnLogged, Join, RulesUpTo, WalksOk;
    forall c | 0 <= c < |closed|
      ensures ColumnLogged(cols[c], next[c], log, k)
    {
      assert ColumnLogged(cols[c], closed[c], log, k);
    }
  }

  lemma {:induction false} ReopenedLogged(cols: seq<Column>, runs: seq<ColumnRun>, outcome: Status,
                                          log: seq<Completion>, k: nat)
    requires 0 < |runs| <= |cols| && ColumnsLogged(cols, runs, |runs| - 1, log, k)
    ensures ColumnsLogged(cols, Reopened(runs, outcome), |runs| - 1, log, k)
  {
    hide ColumnLogged;
    var n, next := |runs| - 1, Reopened(runs, outcome);
    forall c | 0 <= c < n
      ensures ColumnLogged(cols[c], next[c], log, k)
    {
      assert ColumnLogged(cols[c], runs[c], log, k);
    }
  }

  lemma {:induction false} ReopenedReads(cols: seq<Column>, width: nat, runs: seq<ColumnRun>, outcome: Status)
    requires 0 < |runs| <= |cols| <= width && Wide(Join(cols, runs, width), width)
    requires Reading(cols, runs, width, |runs| - 1, false, OpenRoot(cols, runs), !WalksOk(runs, |runs| - 1),
                     Join(cols, runs, width))
    requires cols[|runs| - 1].fallback != [] && Wanting(Join(cols, runs, width), |runs| - 1, outcome)
    ensures var next := Reopened(runs, outcome);
            Reading(cols, next, width, |runs| - 1, true, OpenRoot(cols, next), !WalksOk(next, |runs| - 1),
                    Join(cols, next, width))
  {
    var n, next, rows := |runs| - 1, Reopened(runs, outcome), Join(cols, runs, width);
    ReopenKeeps(cols, runs, width, n, OpenRoot(cols, runs), !WalksOk(runs, n), rows, outcome);
    OpenFallback(cols, runs, next, width);
    assert next[..n] == runs[..n];
    SameWalksOk(runs, next, n);
    hide Join, WalksOk, RulesUpTo, Wanting, Reading;
  }

  lemma {:induction false} ReopenSound(cols: seq<Column>, width: nat, runs: seq<ColumnRun>, outcome: Status,
                                       log: seq<Completion>, k: nat)
    requires Underway(cols, width, runs, log, k)
    requires WalkLogged(log, k, OpenRoot(cols, runs), OpenNames(runs), outcome)
    requires Wide(Join(cols, runs, width), width)
    requires AfterWalk(cols, Join(cols, runs, width), width, |runs| - 1, runs[|runs| - 1].fallback.Some?, outcome) ==
             ToFallback
    ensures Underway(cols, width, Reopened(runs, outcome), log, k) && OpenNames(Reopened(runs, outcome)) == []
  {
    hide ColumnsLogged, WalkLogged, Join, WalksOk, RulesUpTo, Wanting, Reading;
    ReopenedReads(cols, width, runs, outcome);
    ReopenedLogged(cols, runs, outcome, log, k);
  }

  lemma {:induction false} CloseSound(cols: seq<Column>, width: nat, runs: seq<ColumnRun>, outcome: Status,
                                      log: seq<Completion>, k: nat)
    requires Underway(cols, width, runs, log, k)
    requires WalkLogged(log, k, OpenRoot(cols, runs), OpenNames(runs), outcome)
    requires Wide(Join(cols, runs, width), width)
    requires var open := runs[|runs| - 1].fallback.Some?;
             AfterWalk(cols, Join(cols, runs, width), width, |runs| - 1, open, outcome) != ToFallback
    ensures var closed := Closed(runs, outcome);
            && (|runs| < |cols| ==> Underway(cols, width, closed + [OPEN], log, k) && OpenNames(closed + [OPEN]) == [])
            && (|runs| == |cols| ==> Done(cols, width, closed, log, k))
  {
    var n, closed, rows := |runs| - 1, Closed(runs, outcome), Join(cols, runs, width);
    ClosesSound(cols, width, runs, OpenNames(runs), outcome, log, k);
    CloseKeeps(cols, runs, width, n, runs[n].fallback.Some?, OpenRoot(cols, runs), !WalksOk(runs, n), rows, outcome);
    hide ColumnLogged, WalkLogged, Join, WalksOk, RulesUpTo, AfterWalk, Closed, Reading, ColumnsLogged, Underway;
    if |runs| < |cols| {
      NextSound(cols, width, closed, rows, log, k);
    } else {
      TableDone(cols, closed, width, rows, TableStatus(cols, closed, rows));
    }
  }

  /** One walk below the root that the table asked for takes a sound table to a sound table. */
  lemma {:induction false} OneSound(cols: seq<Column>, width: nat, runs: seq<ColumnRun>, got: seq<Cell>,
                                    outcome: Status,
                                    log: seq<Completion>, k: nat)
    requires Underway(cols, width, runs, log, k) && WalkLogged(log, k, OpenRoot(cols, runs), got, outcome)
    ensures Sound(cols, width, AfterOne(cols, width, runs, got, outcome), log, k)
  {
    hide Underway, Join, WalkLogged, Filled, AfterWalk, Reopened, Closed, OpenNames, OpenRoot, ColumnsLogged, Reading,
      Done, Wide;
    UnderwaySizes(cols, width, runs, log, k);
    FilledUnderway(cols, width, runs, got, log, k);
    FilledTerms(cols, runs, got);
    var filled := Filled(runs, got);
    WideJoin(cols, filled, width);
    if outcome != Cancelled && outcome != CapacityExceeded {
      var open := filled[|filled| - 1].fallback.Some?;
      var after := AfterWalk(cols, Join(cols, filled, width), width, |filled| - 1, open, outcome);
      AfterWalkIs(cols, Join(cols, filled, width), width, |filled| - 1, open, outcome);
      if after == ToFallback {
        ReopenSound(cols, width, filled, outcome, log, k);
      } else {
        CloseSound(cols, width, filled, outcome, log, k);
      }
    }
  }

  lemma {:induction false} UnderwaySizes(cols: seq<Column>, width: nat, runs: seq<ColumnRun>, log: seq<Completion>,
                                         k: nat)
    requires Underway(cols, width, runs, log, k)
    ensures 0 < |runs| <= |cols| <= width
  {}

  lemma {:induction false} FilledTerms(cols: seq<Column>, runs: seq<ColumnRun>, got: seq<Cell>)
    requires 0 < |runs| <= |cols|
    ensures var f := Filled(runs, got);
            && OpenRoot(cols, f) == OpenRoot(cols, runs) && OpenNames(f) == got
            && f[|runs| - 1].fallback.Some? == runs[|runs| - 1].fallback.Some?
  {}

  lemma {:induction false} WideJoin(cols: seq<Column>, runs: seq<ColumnRun>, width: nat)
    requires |runs| <= |cols|
    ensures Wide(Join(cols, runs, width), width)
  {
    JoinWidth(cols, runs, width);
    hide Join;
  }

  lemma {:induction false} FilledUnderway(cols: seq<Column>, width: nat, runs: seq<ColumnRun>, got: seq<Cell>,
                                          log: seq<Completion>, k: nat)
    requires Underway(cols, width, runs, log, k)
    ensures Underway(cols, width, Filled(runs, got), log, k)
  {
    hide Reading, Join, WalkLogged, ColumnsLogged, WalksOk;
    FilledReads(cols, width, runs, got);
    FilledLogged(cols, runs, got, log, k);
  }

  /** A completion of the walk that is driven by the table, as the log shows it. */
  lemma {:induction false} DrivenLogged(cols: seq<Column>, width: nat, own: seq<Completion>, i: nat,
                                        log: seq<Completion>, k: nat)
    requires 0 < |cols| <= width && i < |own| && DrivenAt(cols, width, own, i) && own[i] in log && own[i].op == k
    requires Replayed(cols, width, own[..i]).Walking?
    ensures var root := OpenRoot(cols, Replayed(cols, width, own[..i]).runs);
            WalkLogged(log, k, root, own[i].state.taken, own[i].state.status)
  {
    hide Replayed;
    var j :| 0 <= j < |log| && log[j] == own[i];
    assert Logs(log[j], k, own[i].state.root, own[i].state.taken, own[i].state.status);
  }

  /**
   * Replaying the completions of a walk that the table drives: while it reads, its rows are the join of what the log
   * shows; when it is finished, it meets its contract, and every walk it was built from is in the log.
   */
  lemma {:induction false} ReplaySound(cols: seq<Column>, width: nat, own: seq<Completion>, log: seq<Completion>,
                                       k: nat)
    requires 0 < |cols| <= width && Driven(cols, width, own)
    requires forall i :: 0 <= i < |own| ==> own[i] in log && own[i].op == k
    ensures Sound(cols, width, Replayed(cols, width, own), log, k)
    decreases |own|
  {
    hide Underway, Done, DrivenAt, AfterOne, OpenNames;
    if own == [] {
      FirstSound(cols, width, log, k);
    } else {
      var n := |own| - 1;
      var before := own[..n];
      forall i | 0 <= i < |before|
        ensures before[i] in log && before[i].op == k && DrivenAt(cols, width, before, i)
      {
        assert own[i] == before[i];
        DrivenBefore(cols, width, own, n, i);
      }
      ReplaySound(cols, width, before, log, k);
      var p := Replayed(cols, width, before);
      if p.Walking? {
        DrivenLogged(cols, width, own, n, log, k);
        OneSound(cols, width, p.runs, own[n].state.taken, own[n].state.status, log, k);
      }
    }
  }

  lemma {:induction false} DrivenBefore(cols: seq<Column>, width: nat, own: seq<Completion>, n: nat, i: nat)
    requires 0 < |cols| <= width && i < n <= |own| && DrivenAt(cols, width, own, i)
    ensures DrivenAt(cols, width, own[..n], i)
  {
    hide Replayed;
    assert own[..n][..i] == own[..i] && own[..n][i] == own[i];
  }

  lemma {:induction false} FirstSound(cols: seq<Column>, width: nat, log: seq<Completion>, k: nat)
    requires 0 < |cols| <= width
    ensures Underway(cols, width, [OPEN], log, k) && OpenNames([OPEN]) == []
  {
    hide Join, FallbackRule, RulesUpTo;
    FirstWalk(cols, width);
    FirstJoin(cols, width);
  }

  lemma {:induction false} FirstJoin(cols: seq<Column>, width: nat)
    requires cols != []
    ensures Join(cols, [OPEN], width) == []
  {
    NothingJoined(cols, width);
    hide Join;
    OpenColumn(cols, [], width);
    assert [] + [OPEN] == [OPEN];
  }

  lemma {:induction false} NothingJoined(cols: seq<Column>, width: nat)
    ensures Join(cols, [], width) == []
  {
    assert Delivered(cols, []) == [];
    hide JoinRow;
  }
}

/** SNMPTableRead: one streaming walk reused for column after column, joined into rows as values arrive. */
module Table {
  import opened Bytes
  import opened Oids
  import opened Values
  import opened OperationLaws
  import opened Joins

  /** The column as its primary walk left it. */
  function PrimaryOnly(run: ColumnRun): ColumnRun { run.(fallback := None) }

  predicate Unusable(rows: seq<Row>, c: nat)
    requires forall r :: 0 <= r < |rows| ==> c < |rows[r].cells|
  {
    exists r :: 0 <= r < |rows| && !rows[r].cells[c].Ok()
  }

  /** Reasons to try the alternative column. */
  predicate Wanting(rows: seq<Row>, c: nat, outcome: Status)
    requires forall r :: 0 <= r < |rows| ==> c < |rows[r].cells|
  {
    rows == [] || outcome != Success || Unusable(rows, c)
  }

  /** A fallback walk was made exactly when one is configured and the rows of that moment left something to fill. */
  ghost predicate FallbackRule(cols: seq<Column>, runs: seq<ColumnRun>, width: nat, c: nat)
    requires c < |runs| <= |cols| && |cols| <= width
  {
    var before := Join(cols, runs[..c] + [PrimaryOnly(runs[c])], width);
    JoinWidth(cols, runs[..c] + [PrimaryOnly(runs[c])], width);
    runs[c].fallback.Some? <==> cols[c].fallback != [] && Wanting(before, c, runs[c].primaryOutcome)
  }

  ghost predicate RulesUpTo(cols: seq<Column>, runs: seq<ColumnRun>, width: nat, n: nat)
    requires n <= |runs| <= |cols| && |cols| <= width
  {
    forall c :: 0 <= c < n ==> FallbackRule(cols, runs, width, c)
  }

  predicate WalksOk(runs: seq<ColumnRun>, n: nat)
    requires n <= |runs|
  {
    forall c :: 0 <= c < n ==> runs[c].outcome == Success
  }

  predicate CellsOk(rows: seq<Row>, columns: nat) {
    forall r, c :: 0 <= r < |rows| && 0 <= c < columns && c < |rows[r].cells| ==> rows[r].cells[c].Ok()
  }

  /** The contract of a finished table. */
  ghost predicate Complete(cols: seq<Column>, runs: seq<ColumnRun>, width: nat, rows: seq<Row>, status: Status) {
    && |runs| == |cols| <= width
    && rows == Join(cols, runs, width)
    && (status == Success <==> CellsOk(rows, |cols|) && WalksOk(runs, |runs|))
    && RulesUpTo(cols, runs, width, |cols|)
  }

  predicate Wide(rows: seq<Row>, width: nat) { forall r :: 0 <= r < |rows| ==> |rows[r].cells| == width }

  /** A read in progress: the rows are the join of what the walks have delivered so far. */
  ghost predicate Reading(cols: seq<Column>, runs: seq<ColumnRun>, width: nat, current: nat, usingFallback: bool,
                          root: Text,
                          columnErrors: bool, rows: seq<Row>) {
    && current < |cols| <= width && |runs| == current + 1
    && usingFallback == runs[current].fallback.Some?
    && root == OpenRoot(cols, runs)
    && rows == Join(cols, runs, width)
    && columnErrors == !WalksOk(runs, current)
    && RulesUpTo(cols, runs, width, if usingFallback then current + 1 else current)
    && (usingFallback ==> cols[current].fallback != [])
  }

  // ----- opening and closing walks -----

  lemma {:induction false} JoinSame(cols: seq<Column>, a: seq<ColumnRun>, b: seq<ColumnRun>, width: nat)
    requires |a| <= |cols| && |b| <= |cols| && Delivered(cols, a) == Delivered(cols, b)
    requires forall index: Text :: JoinRow(cols, a, width, index) == JoinRow(cols, b, width, index)
    ensures Join(cols, a, width) == Join(cols, b, width)
  {
    hide JoinRow, FirstSeen, Delivered;
  }

  /** Outcomes are bookkeeping: the join looks only at what was delivered. */
  lemma {:induction false} SameDeliveries(cols: seq<Column>, a: seq<ColumnRun>, b: seq<ColumnRun>, width: nat)
    requires |a| == |b| <= |cols|
    requires forall i :: 0 <= i < |a| ==> a[i].primary == b[i].primary && a[i].fallback == b[i].fallback
    ensures Join(cols, a, width) == Join(cols, b, width)
  {
    hide RunSuffixes, FirstSeen, Find, Join, Delivered;
    SameDelivered(cols, a, b);
    forall index: Text
      ensures JoinRow(cols, a, width, index) == JoinRow(cols, b, width, index)
    {
      assert forall c :: 0 <= c < |a| ==> JoinCell(cols[c], a[c], index) == JoinCell(cols[c], b[c], index);
      hide JoinCell;
      assert JoinRow(cols, a, width, index).cells == JoinRow(cols, b, width, index).cells;
    }
    JoinSame(cols, a, b, width);
  }

  lemma {:induction false} SameDelivered(cols: seq<Column>, a: seq<ColumnRun>, b: seq<ColumnRun>)
    requires |a| == |b| <= |cols|
    requires forall i :: 0 <= i < |a| ==> a[i].primary == b[i].primary && a[i].fallback == b[i].fallback
    ensures Delivered(cols, a) == Delivered(cols, b)
    decreases |a|
  {
    hide Suffixes;
    if a != [] {
      SameDelivered(cols, a[..|a| - 1], b[..|b| - 1]);
    }
  }

  const OPEN := ColumnRun([], Status.Pending, None, Status.Pending)

  lemma {:induction false} OpenCell(col: Column, index: Text)
    ensures RunSuffixes(col, OPEN) == [] && JoinCell(col, OPEN, index) == MISSING_CELL
  {}

  /** A walk that has delivered nothing adds nothing. */
  lemma {:induction false} OpenColumn(cols: seq<Column>, runs: seq<ColumnRun>, width: nat)
    requires |runs| < |cols|
    ensures Join(cols, runs + [OPEN], width) == Join(cols, runs, width)
  {
    hide RunSuffixes, FirstSeen, Join, JoinCell;
    var more := runs + [OPEN];
    assert more[..|runs|] == runs;
    OpenCell(cols[|runs|], []);
    assert Delivered(cols, more) == Delivered(cols, runs);
    forall index: Text
      ensures JoinRow(cols, more, width, index) == JoinRow(cols, runs, width, index)
    {
      OpenCell(cols[|runs|], index);
      assert JoinRow(cols, more, width, index).cells == JoinRow(cols, runs, width, index).cells;
    }
    JoinSame(cols, more, runs, width);
  }

  lemma {:induction false} EmptyFallback(col: Column, a: ColumnRun, b: ColumnRun, index: Text)
    requires a.fallback.None? && b.fallback == Some([]) && a.primary == b.primary
    ensures RunSuffixes(col, a) == RunSuffixes(col, b) && JoinCell(col, a, index) == JoinCell(col, b, index)
  {
    hide Suffix;
    assert Suffixes(col.oid, a.primary) + [] == Suffixes(col.oid, a.primary);
    assert Suffixes(col.fallback, []) == [];
  }

  lemma {:induction false} OpenFallback(cols: seq<Column>, runs: seq<ColumnRun>, next: seq<ColumnRun>, width: nat)
    requires runs != [] && |runs| == |next| <= |cols| && next[..|runs| - 1] == runs[..|runs| - 1]
    requires runs[|runs| - 1].fallback.None?
    requires next[|runs| - 1].primary == runs[|runs| - 1].primary && next[|runs| - 1].fallback == Some([])
    ensures Join(cols, next, width) == Join(cols, runs, width)
  {
    hide RunSuffixes, FirstSeen, Join, JoinCell;
    var n := |runs| - 1;
    EmptyFallback(cols[n], runs[n], next[n], []);
    assert Delivered(cols, next) == Delivered(cols, runs);
    assert forall c :: 0 <= c < n ==> next[c] == next[..n][c] && runs[c] == runs[..n][c];
    forall index: Text
      ensures JoinRow(cols, next, width, index) == JoinRow(cols, runs, width, index)
    {
      EmptyFallback(cols[n], runs[n], next[n], index);
      assert JoinRow(cols, next, width, index).cells == JoinRow(cols, runs, width, index).cells;
    }
    JoinSame(cols, next, runs, width);
  }

  /** Earlier columns keep their rule whatever happens in later ones. */
  lemma {:induction false} RulesKept(cols: seq<Column>, a: seq<ColumnRun>, b: seq<ColumnRun>, width: nat, n: nat)
    requires n <= |a| <= |b| <= |cols| && |cols| <= width && a[..n] == b[..n]
    requires RulesUpTo(cols, a, width, n)
    ensures RulesUpTo(cols, b, width, n)
  {
    hide FallbackRule, Join;
    forall c | 0 <= c < n
      ensures FallbackRule(cols, b, width, c)
    {
      assert FallbackRule(cols, a, width, c);
      assert a[c] == a[..n][c] && b[c] == b[..n][c];
      assert a[..c] == a[..n][..c] && b[..c] == b[..n][..c];
      SameRule(cols, a, b, width, c);
    }
  }

  lemma {:induction false} SameRule(cols: seq<Column>, a: seq<ColumnRun>, b: seq<ColumnRun>, width: nat, c: nat)
    requires c < |a| <= |cols| && c < |b| <= |cols| && |cols| <= width && a[c] == b[c] && a[..c] == b[..c]
    requires FallbackRule(cols, a, width, c)
    ensures FallbackRule(cols, b, width, c)
  {
    hide Join, Wanting;
  }

  /** A kept name is canonical, denotes the arcs that were written, and fits. */
  predicate Kept(name: Text, written: Text, lim: Limits) {
    Canonical(name) && Some(ArcsOf(name)) == Parse(written) && |name| < lim.oidText
  }

  lemma {:induction false} KeptIs(t: Text, lim: Limits)
    ensures CanonicalForm(t, lim).Some? ==> Kept(CanonicalForm(t, lim).value, t, lim)
  {
    CanonicalFormIs(t, lim);
    hide EncodeText, CanonicalForm, Canonical;
  }

  // ----- the object -----

  class TableRead {
    const width: nat                  // Columns
    const rowLimit: nat               // Rows
    const indexLimit: nat             // IndexCapacity
    var rows: seq<Row>                // rows_[0..count_]
    var columns: seq<Column>          // column_, expected_, fallback_ and fallbackExpected_
    var current: nat
    var status: Status
    var completed: bool
    var columnErrors: bool
    var usingFallback: bool
    var root: Text                    // the root of walk_
    ghost var asked: seq<Column>      // the columns of this read
    ghost var runs: seq<ColumnRun>    // what its walks delivered
    ghost var refused: bool           // a value was refused, so the open walk is about to end

    constructor (rowCapacity: nat, columnCapacity: nat, indexCapacity: nat)
      requires rowCapacity > 0 && columnCapacity > 0 && indexCapacity > 1
      ensures Valid() && rowLimit == rowCapacity && width == columnCapacity && indexLimit == indexCapacity
      ensures columns == [] && status == NotStarted && rows == []
    {
      width, rowLimit, indexLimit := columnCapacity, rowCapacity, indexCapacity;
      rows, columns, current, status, completed := [], [], 0, NotStarted, false;
      columnErrors, usingFallback, root := false, false, [];
      asked, runs, refused := [], [], false;
    }

    ghost predicate Valid()
      reads this`rows, this`columns, this`current, this`status, this`columnErrors, this`usingFallback, this`root,
            this`asked, this`runs
    {
      && 0 < rowLimit && 0 < width && |rows| <= rowLimit && |columns| <= width && |asked| <= |columns|
      && Wide(rows, width)
      && (status == Status.Pending ==>
            && asked == columns && current < |columns|
            && Reading(asked, runs, width, current, usingFallback, root, columnErrors, rows))
      && (status == Success || status == Partial ==> Complete(asked, runs, width, rows, status))
    }

    /** addColumn: validate, canonicalise, reject duplicates, then append. */
    method AddColumn(oid: Text, expected: byte, fallback: Option<Text>, fallbackExpected: byte, lim: Limits)
      returns (s: Status)
      requires Valid()
      modifies this`columns
      ensures Valid()
      ensures s == Success <==>
                && old(status) != Status.Pending && |old(columns)| < width && CanonicalForm(oid, lim).Some?
                && (fallback.Some? ==> CanonicalForm(fallback.value, lim).Some?)
                && forall i :: 0 <= i < |old(columns)| ==> Some(old(columns)[i].oid) != CanonicalForm(oid, lim)
      ensures s != Success ==> columns == old(columns)
      ensures s == Success ==>
                var other := if fallback.Some? then CanonicalForm(fallback.value, lim).value else [];
                columns == old(columns) + [Column(CanonicalForm(oid, lim).value, expected, other, fallbackExpected)]
      ensures s == Success ==>
                && Kept(columns[|columns| - 1].oid, oid, lim)
                && (fallback.Some? ==> Kept(columns[|columns| - 1].fallback, fallback.value, lim))
    {
      hide Complete, Reading, CanonicalForm, Kept, RulesUpTo, Wide, Join, WalksOk;
      KeptIs(oid, lim);
      if fallback.Some? {
        KeptIs(fallback.value, lim);
      }
      if status == Status.Pending {
        return Busy;
      }
      if |columns| == width {
        return CapacityExceeded;
      }
      var name := CanonicalForm(oid, lim);
      if name.None? {
        return InvalidOID;
      }
      var c := 0;
      while c < |columns|
        invariant 0 <= c <= |columns|
        invariant forall i :: 0 <= i < c ==> columns[i].oid != name.value
      {
        if columns[c].oid == name.value {
          return InvalidOID;
        }
        c := c + 1;
      }
      var alternative := [];
      if fallback.Some? {
        var other := CanonicalForm(fallback.value, lim);
        if other.None? {
          return InvalidOID;
        }
        alternative := other.value;
      }
      columns := columns + [Column(name.value, expected, alternative, fallbackExpected)];
      return Success;
    }

    /** start; `started` is the answer of the walk's own start. */
    method Start(started: Status) returns (s: Status)
      requires Valid() && started != Status.Pending
      modifies this
      ensures Valid() && columns == old(columns)
      ensures s == if old(status) == Status.Pending then Busy
                   else if columns == [] then InvalidConfiguration else started
      ensures s != Success ==> status == old(status) && rows == old(rows) && runs == old(runs) && asked == old(asked)
      ensures s == Success ==>
                && status == Status.Pending && asked == columns && runs == [OPEN] && rows == []
                && root == columns[0].oid
                && !refused && !completed
    {
      hide Complete, Reading;
      if status == Status.Pending {
        return Busy;
      }
      if columns == [] {
        return InvalidConfiguration;
      }
      root := columns[0].oid;
      if started != Success {
        return started;
      }
      Restart();
      return Success;
    }

    /** Rows of the previous read go, and the first column is being walked. */
    method Restart()
      requires columns != [] && |columns| <= width && 0 < rowLimit && 0 < width && root == columns[0].oid
      modifies this`rows, this`current, this`completed, this`status, this`columnErrors, this`usingFallback,
               this`asked, this`runs, this`refused
      ensures Valid() && status == Status.Pending && asked == columns && runs == [OPEN] && rows == [] && !refused
      ensures !completed
    {
      hide Complete, Reading;
      FirstWalk(columns, width);
      rows, current, completed, status := [], 0, false, Status.Pending;
      columnErrors, usingFallback := false, false;
      asked, runs, refused := columns, [OPEN], false;
    }

    /** The names that the open walk has shown so far. */
    ghost predicate Walked(names: seq<Text>)
      reads this`runs
    {
      runs != [] && NamesOf(OpenNames(runs), names)
    }

    /** The scan for an index. */
    method FindRow(index: Text) returns (row: nat)
      ensures row == RowOf(rows, index) && row <= |rows|
    {
      row := 0;
      while row < |rows| && rows[row].index != index
        invariant 0 <= row <= |rows|
        invariant forall r :: 0 <= r < row ==> rows[r].index != index
      {
        row := row + 1;
      }
      RowOfIs(rows, index, row);
    }

    /** Put one value into its row, opening the row if it is new. */
    method Store(row: nat, index: Text, value: Cell)
      requires row == RowOf(rows, index) && current < |columns| && current < width
      requires Wide(rows, width)
      modifies this`rows
      ensures rows == Consumed(old(rows), columns[current], current, usingFallback, width, index, value)
    {
      hide RowOf;
      if row == |rows| {
        rows := rows + [EmptyRow(width, index)];
      }
      var cell := rows[row].cells[current];
      if !(usingFallback && cell.Ok()) {
        var expected := if usingFallback then columns[current].fallbackExpected else columns[current].expected;
        rows := rows[row := Replace(rows[row], current, Typed(value, expected))];
      } else {
        assert Replace(rows[row], current, cell) == rows[row];
      }
    }

    /**
     * The streaming callback. A walk shows names that increase strictly below its root; the answer is false
     * exactly when the index text or the row does not fit.
     */
    method Consume(value: Cell, ghost names: seq<Text>) returns (ok: bool)
      requires Valid() && status == Status.Pending && !refused
      requires Walked(names) && Chain(root, names + [value.oid])
      modifies this`rows, this`runs, this`refused
      ensures Valid()
      ensures ok <==> |Suffix(root, value.oid)| < indexLimit &&
                      (|old(rows)| < rowLimit || RowOf(old(rows), Suffix(root, value.oid)) < |old(rows)|)
      ensures ok ==> runs == Deliver(old(runs), value) && !refused && Walked(names + [value.oid])
      ensures !ok ==> runs == old(runs) && refused && rows == old(rows)
    {
      var index := Suffix(root, value.oid);
      var row := FindRow(index);
      hide Complete, Join, RowOf, Suffix, Chain, Walked, Reading, Deliver;
      if |index| >= indexLimit || (row == |rows| && row == rowLimit) {
        refused := true;
        ok := false;
      } else {
        Take(row, index, value, names);
        ok := true;
      }
    }

    /** The value is stored and the read goes on. */
    method Take(row: nat, index: Text, value: Cell, ghost names: seq<Text>)
      requires Valid() && status == Status.Pending && Walked(names) && Chain(root, names + [value.oid])
      requires index == Suffix(root, value.oid) && row == RowOf(rows, index) && (row < |rows| || |rows| < rowLimit)
      modifies this`rows, this`runs
      ensures Valid() && runs == Deliver(old(runs), value) && Walked(names + [value.oid])
    {
      hide Complete, Reading, Chain, Consumed, RowOf, Wide, Suffix, Deliver, OpenRoot, OpenNames, NamesOf;
      TakeStep(asked, runs, width, current, usingFallback, root, columnErrors, rows, names, value);
      ConsumedSize(rows, columns[current], current, usingFallback, width, index, value);
      Store(row, index, value);
      runs := Deliver(runs, value);
    }

    /** The scan for unusable cells of one column. */
    method SomeUnusable(c: nat) returns (missing: bool)
      requires Wide(rows, width) && c < width
      ensures missing == Unusable(rows, c)
    {
      missing := false;
      var r := 0;
      while r < |rows|
        invariant 0 <= r <= |rows|
        invariant missing <==> exists i :: 0 <= i < r && !rows[i].cells[c].Ok()
      {
        if !rows[r].cells[c].Ok() {
          missing := true;
        }
        r := r + 1;
      }
    }

    /** The final scan over every configured cell. */
    method AllUsable() returns (ok: bool)
      requires Wide(rows, width) && |columns| <= width
      ensures ok == CellsOk(rows, |columns|)
    {
      ok := true;
      var r := 0;
      while r < |rows|
        invariant 0 <= r <= |rows|
        invariant ok == CellsOk(rows[..r], |columns|)
      {
        var c := 0;
        ghost var before := ok;
        while c < |columns|
          invariant 0 <= c <= |columns|
          invariant ok == (before && forall i :: 0 <= i < c ==> rows[r].cells[i].Ok())
        {
          if !rows[r].cells[c].Ok() {
            ok := false;
          }
          c := c + 1;
        }
        CellsOkSnoc(rows, r, |columns|, width);
        r := r + 1;
      }
      assert rows[..|rows|] == rows;
    }

    /** All columns are done. */
    method Conclude()
      requires 0 < rowLimit && |rows| <= rowLimit && |columns| <= width && 0 < width && Wide(rows, width)
      requires asked == columns && |runs| == |columns| && rows == Join(columns, runs, width)
      requires columnErrors == !WalksOk(runs, |runs|) && RulesUpTo(columns, runs, width, |columns|)
      modifies this`status, this`completed
      ensures Valid() && completed && (status == Success || status == Partial)
    {
      hide Join, FallbackRule, RulesUpTo, WalksOk, CellsOk, Wide;
      var ok := AllUsable();
      status, completed := if columnErrors || !ok then Partial else Success, true;
      TableDone(asked, runs, width, rows, status);
    }

    /** Walk the next column, if its walk can be started. */
    method NextColumn(started: Status)
      requires status == Status.Pending && started != Status.Pending && started != Partial
      requires 0 < rowLimit && |rows| <= rowLimit && |columns| <= width && 0 < width && Wide(rows, width)
      requires asked == columns && 0 < |runs| == current < |columns| && !usingFallback
      requires rows == Join(columns, runs, width)
      requires columnErrors == !WalksOk(runs, |runs|) && RulesUpTo(columns, runs, width, |runs|)
      modifies this`status, this`completed, this`root, this`runs
      ensures Valid() && completed == (status != Status.Pending || old(completed))
      ensures status == (if started == Success then Status.Pending else started) && runs == old(runs) + [OPEN]
    {
      hide Reading, Complete, Join, RulesUpTo, WalksOk, Wide;
      NextColumnKeeps(columns, runs, width, rows, columnErrors);
      root := columns[current].oid;
      runs := runs + [OPEN];
      if started != Success {
        status, completed := started, true;
      }
    }

    /** The history of a column closes and its outcome is remembered. */
    method CloseRun(outcome: Status)
      requires Valid() && status == Status.Pending
      requires AfterWalk(columns, rows, width, current, usingFallback, outcome) != ToFallback
      modifies this`usingFallback, this`columnErrors, this`current, this`runs
      ensures 0 < rowLimit && |rows| <= rowLimit && |columns| <= width && 0 < width && Wide(rows, width)
      ensures asked == columns && |runs| == current == old(current) + 1 <= |columns| && !usingFallback
      ensures |old(runs)| == current && runs == Closed(old(runs), outcome) && rows == Join(columns, runs, width)
      ensures columnErrors == !WalksOk(runs, |runs|) && RulesUpTo(columns, runs, width, |runs|)
    {
      hide Reading, Complete, Join, RulesUpTo, WalksOk, Closed, AfterWalk, Wide;
      ReadingFacts(columns, runs, width, current, usingFallback, root, columnErrors, rows);
      CloseKeeps(columns, runs, width, current, usingFallback, root, columnErrors, rows, outcome);
      runs := Closed(runs, outcome);
      usingFallback := false;
      if outcome != Success {
        columnErrors := true;
      }
      current := current + 1;
    }

    /** The end of a column: on to the next one, or the table is complete. */
    method CloseColumn(outcome: Status, started: Status)
      requires Valid() && status == Status.Pending && started != Status.Pending && started != Partial
      requires AfterWalk(columns, rows, width, current, usingFallback, outcome) != ToFallback
      modifies this`status, this`completed, this`usingFallback, this`root, this`columnErrors, this`current, this`runs
      ensures Valid() && completed == (status != Status.Pending || old(completed))
      ensures |old(runs)| == old(current) + 1
      ensures if old(current) + 1 < |columns| then
                && status == (if started == Success then Status.Pending else started)
                && current == old(current) + 1 && !usingFallback && runs == Closed(old(runs), outcome) + [OPEN]
              else
                (status == Success || status == Partial) && runs == Closed(old(runs), outcome)
    {
      hide Reading, Complete, Join, RulesUpTo, WalksOk, Closed, AfterWalk, Wide;
      CloseRun(outcome);
      if current < |columns| {
        NextColumn(started);
      } else {
        Conclude();
      }
    }

    /** Walk the fallback of the current column, if its walk can be started. */
    method StartFallback(outcome: Status, started: Status)
      requires Valid() && status == Status.Pending && started != Status.Pending && started != Partial
      requires AfterWalk(columns, rows, width, current, usingFallback, outcome) == ToFallback
      modifies this`status, this`completed, this`usingFallback, this`root, this`runs
      ensures Valid() && completed == (status != Status.Pending || old(completed))
      ensures |old(runs)| == current + 1 && usingFallback && runs == Reopened(old(runs), outcome)
      ensures status == if started == Success then Status.Pending else started
    {
      hide Reading, Complete, Reopened, Wide, Wanting;
      ReadingFacts(columns, runs, width, current, usingFallback, root, columnErrors, rows);
      ReopenKeeps(columns, runs, width, current, root, columnErrors, rows, outcome);
      usingFallback, root := true, columns[current].fallback;
      runs := Reopened(runs, outcome);
      if started != Success {
        status, completed := started, true;
      }
    }

    /** Is the column to be filled from its fallback, or is it done? */
    method NeedsFallback(outcome: Status) returns (needed: bool)
      requires Wide(rows, width) && current < |columns| <= width
      ensures needed == (AfterWalk(columns, rows, width, current, usingFallback, outcome) == ToFallback)
    {
      hide Unusable, Wide;
      needed := false;
      if !usingFallback && columns[current].fallback != [] {
        var missing := SomeUnusable(current);
        needed := rows == [] || outcome != Success || missing;
      }
    }

    /** The end of a walk whose outcome does not end the table. */
    method AfterColumnWalk(outcome: Status, started: Status)
      requires Valid() && status == Status.Pending && started != Status.Pending && started != Partial
      modifies this`status, this`completed, this`usingFallback, this`root, this`columnErrors, this`current, this`runs
      ensures Valid() && completed == (status != Status.Pending || old(completed))
      ensures |old(runs)| == old(current) + 1 <= |columns|
      ensures match AfterWalk(columns, rows, width, old(current), old(usingFallback), outcome)
              case ToFallback =>
                && status == (if started == Success then Status.Pending else started)
                && current == old(current) && usingFallback && runs == Reopened(old(runs), outcome)
              case ToColumn =>
                && status == (if started == Success then Status.Pending else started)
                && current == old(current) + 1 && !usingFallback && runs == Closed(old(runs), outcome) + [OPEN]
              case Done =>
                && (status == Success || status == Partial) && runs == Closed(old(runs), outcome)
    {
      hide Reading, Complete, Closed, Reopened, Wide, AfterWalk;
      ReadingFacts(columns, runs, width, current, usingFallback, root, columnErrors, rows);
      AfterWalkIs(columns, rows, width, current, usingFallback, outcome);
      var needed := NeedsFallback(outcome);
      if needed {
        StartFallback(outcome, started);
      } else {
        CloseColumn(outcome, started);
      }
    }

    /**
     * The completion handler of the walk; `started` answers the start of the next walk, if one is started.
     * Cancelled and CapacityExceeded end the table; otherwise a column is filled from its fallback if it needs to
     * be, then the next column is walked, and after the last one the table is complete.
     */
    method Advance(outcome: Status, started: Status)
      requires Valid() && status == Status.Pending && outcome != Status.Pending
      requires (refused ==> outcome == CapacityExceeded)
      requires started != Status.Pending && started != Partial
      modifies this`status, this`completed, this`usingFallback, this`root, this`columnErrors, this`current, this`runs
      ensures Valid() && completed == (status != Status.Pending || old(completed))
      ensures |old(runs)| == old(current) + 1 <= |columns|
      ensures outcome == Cancelled || outcome == CapacityExceeded ==> status == outcome && runs == old(runs)
      ensures outcome != Cancelled && outcome != CapacityExceeded ==>
                match AfterWalk(columns, rows, width, old(current), old(usingFallback), outcome)
                case ToFallback =>
                  && status == (if started == Success then Status.Pending else started)
                  && current == old(current) && usingFallback && runs == Reopened(old(runs), outcome)
                case ToColumn =>
                  && status == (if started == Success then Status.Pending else started)
                  && current == old(current) + 1 && !usingFallback && runs == Closed(old(runs), outcome) + [OPEN]
                case Done =>
                  && (status == Success || status == Partial) && runs == Closed(old(runs), outcome)
    {
      hide Reading, Complete, Closed, Reopened, Wide, AfterWalk;
      if outcome == Cancelled || outcome == CapacityExceeded {
        ReadingFacts(columns, runs, width, current, usingFallback, root, columnErrors, rows);
        status, completed := outcome, true;
      } else {
        AfterColumnWalk(outcome, started);
      }
    }
  }

  lemma {:induction false} AfterWalkIs(cols: seq<Column>, rows: seq<Row>, width: nat, current: nat,
                                       usingFallback: bool, outcome: Status)
    requires current < |cols| <= width && Wide(rows, width)
    ensures AfterWalk(cols, rows, width, current, usingFallback, outcome) != ToFallback ==>
              AfterWalk(cols, rows, width, current, usingFallback, outcome) ==
              if current + 1 < |cols| then ToColumn else Done
  {}

  lemma {:induction false} CellsOkSnoc(rows: seq<Row>, r: nat, columns: nat, width: nat)
    requires Wide(rows, width) && r < |rows| && columns <= width
    ensures CellsOk(rows[..r + 1], columns) ==
            (CellsOk(rows[..r], columns) && forall c :: 0 <= c < columns ==> rows[r].cells[c].Ok())
  {
    var a, b := rows[..r], rows[..r + 1];
    assert forall i :: 0 <= i < r ==> a[i] == rows[i];
    assert forall i :: 0 <= i <= r ==> b[i] == rows[i];
  }

  lemma {:induction false} ReadingFacts(cols: seq<Column>, runs: seq<ColumnRun>, width: nat, current: nat,
                                        usingFallback: bool,
                                        root: Text, columnErrors: bool, rows: seq<Row>)
    requires Reading(cols, runs, width, current, usingFallback, root, columnErrors, rows)
    ensures |runs| == current + 1 && current < |cols| <= width
  {}

  lemma {:induction false} TableDone(cols: seq<Column>, runs: seq<ColumnRun>, width: nat, rows: seq<Row>,
                                     status: Status)
    requires |runs| == |cols| <= width && rows == Join(cols, runs, width) && RulesUpTo(cols, runs, width, |cols|)
    requires status == Success <==> CellsOk(rows, |cols|) && WalksOk(runs, |runs|)
    ensures Complete(cols, runs, width, rows, status)
  {
    hide Join, FallbackRule;
  }

  lemma {:induction false} ConsumedSize(rows: seq<Row>, col: Column, c: nat, fallback: bool, width: nat, index: Text,
                                        got: Cell)
    requires c < width && Wide(rows, width)
    ensures var more := Consumed(rows, col, c, fallback, width, index, got);
            Wide(more, width) && |more| == if RowOf(rows, index) == |rows| then |rows| + 1 else |rows|
  {
    hide RowOf;
  }

  /** One delivery takes a read in progress to a read in progress. */
  lemma {:induction false} TakeStep(cols: seq<Column>, runs: seq<ColumnRun>, width: nat, current: nat,
                                    usingFallback: bool,
                                    root: Text, columnErrors: bool, rows: seq<Row>, names: seq<Text>, value: Cell)
    requires Reading(cols, runs, width, current, usingFallback, root, columnErrors, rows)
    requires NamesOf(OpenNames(runs), names) && Chain(root, names + [value.oid])
    ensures Wide(rows, width)
    ensures var next := Deliver(runs, value);
            && next != [] && NamesOf(OpenNames(next), names + [value.oid])
            && Reading(cols, next, width, current, usingFallback, root, columnErrors,
                       Consumed(rows, cols[current], current, usingFallback, width, Suffix(root, value.oid), value))
  {
    hide RulesUpTo, Join, Chain, WalksOk, Consumed, NamesOf, Suffix;
    ChainIsNew(root, OpenNames(runs), names, value);
    ConsumeJoins(cols, runs, width, value);
    DeliverKeepsRules(cols, runs, width, value);
    NamesSnoc(OpenNames(runs), names, value);
  }

  lemma {:induction false} NamesSnoc(got: seq<Cell>, names: seq<Text>, value: Cell)
    requires NamesOf(got, names)
    ensures NamesOf(got + [value], names + [value.oid])
  {}

  lemma {:induction false} DeliverKeepsRules(cols: seq<Column>, runs: seq<ColumnRun>, width: nat, value: Cell)
    requires runs != [] && |runs| <= |cols| && |cols| <= width
    ensures var n, next, open := |runs| - 1, Deliver(runs, value), runs[|runs| - 1].fallback.Some?;
            && WalksOk(next, n) == WalksOk(runs, n)
            && next[n].fallback.Some? == open && OpenRoot(cols, next) == OpenRoot(cols, runs)
            && OpenNames(next) == OpenNames(runs) + [value]
            && (RulesUpTo(cols, runs, width, if open then n + 1 else n) ==>
                  RulesUpTo(cols, next, width, if open then n + 1 else n))
  {
    var n, next, open := |runs| - 1, Deliver(runs, value), runs[|runs| - 1].fallback.Some?;
    assert next[..n] == runs[..n];
    assert WalksOk(next, n) == WalksOk(runs, n) by {
      assert forall c :: 0 <= c < n ==> next[c] == runs[c];
    }
    hide FallbackRule, WalksOk;
    if RulesUpTo(cols, runs, width, if open then n + 1 else n) {
      RulesKept(cols, runs, next, width, n);
      if open {
        assert FallbackRule(cols, runs, width, n);
        OpenRule(cols, runs, next, width, n);
      }
    }
  }

  /** A column's rule depends on its primary walk and on whether there was a fallback, not on what came later. */
  lemma {:induction false} OpenRule(cols: seq<Column>, a: seq<ColumnRun>, b: seq<ColumnRun>, width: nat, c: nat)
    requires c < |a| <= |cols| && c < |b| <= |cols| && |cols| <= width && a[..c] == b[..c]
    requires a[c].primary == b[c].primary && a[c].primaryOutcome == b[c].primaryOutcome
    requires a[c].fallback.Some? == b[c].fallback.Some?
    requires FallbackRule(cols, a, width, c)
    ensures FallbackRule(cols, b, width, c)
  {
    SameDeliveries(cols, a[..c] + [PrimaryOnly(a[c])], b[..c] + [PrimaryOnly(b[c])], width);
    hide Join, Wanting;
  }

  // ----- the end of a walk -----

  datatype NextWalk = ToFallback | ToColumn | Done

  /** What advance decides when a walk has ended with an outcome that does not end the table. */
  function AfterWalk(cols: seq<Column>, rows: seq<Row>, width: nat, current: nat, usingFallback: bool,
                     outcome: Status): NextWalk
    requires current < |cols| <= width && Wide(rows, width)
  {
    if !usingFallback && cols[current].fallback != [] && Wanting(rows, current, outcome) then ToFallback
    else if current + 1 < |cols| then ToColumn
    else Done
  }

  /** The history after the open walk ended. */
  function Closed(runs: seq<ColumnRun>, outcome: Status): (r: seq<ColumnRun>)
    requires runs != []
    ensures |r| == |runs|
  {
    var n := |runs| - 1;
    runs[n := runs[n].(outcome := outcome,
                       primaryOutcome := if runs[n].fallback.Some? then runs[n].primaryOutcome else outcome)]
  }

  /** The history after the primary walk ended and the fallback walk was opened. */
  function Reopened(runs: seq<ColumnRun>, outcome: Status): (r: seq<ColumnRun>)
    requires runs != []
    ensures |r| == |runs|
  {
    var n := |runs| - 1;
    runs[n := runs[n].(primaryOutcome := outcome, fallback := Some([]))]
  }

  lemma {:induction false} LastRule(cols: seq<Column>, runs: seq<ColumnRun>, next: seq<ColumnRun>, width: nat,
                                    outcome: Status)
    requires runs != [] && |runs| == |next| <= |cols| <= width
    requires var n := |runs| - 1;
             next[..n] == runs[..n] && runs[n].fallback.None? && next[n].primary == runs[n].primary
             && next[n].primaryOutcome == outcome
    ensures var n, rows := |runs| - 1, Join(cols, runs, width);
            Wide(rows, width) &&
            (FallbackRule(cols, next, width, n) <==>
             (next[n].fallback.Some? <==> cols[n].fallback != [] && Wanting(rows, n, outcome)))
  {
    var n := |runs| - 1;
    JoinWidth(cols, runs, width);
    assert runs[..n] + [runs[n]] == runs;
    SameDeliveries(cols, next[..n] + [PrimaryOnly(next[n])], runs, width);
    hide Join, Wanting;
  }

  lemma {:induction false} ReopenKeeps(cols: seq<Column>, runs: seq<ColumnRun>, width: nat, current: nat, root: Text,
                                       columnErrors: bool, rows: seq<Row>, outcome: Status)
    requires Reading(cols, runs, width, current, false, root, columnErrors, rows) && Wide(rows, width)
    requires cols[current].fallback != [] && Wanting(rows, current, outcome)
    ensures Reading(cols, Reopened(runs, outcome), width, current, true, cols[current].fallback, columnErrors, rows)
  {
    var next := Reopened(runs, outcome);
    assert next[..current] == runs[..current];
    OpenFallback(cols, runs, next, width);
    LastRule(cols, runs, next, width, outcome);
    hide Join, FallbackRule, Wanting;
    RulesKept(cols, runs, next, width, current);
    assert WalksOk(next, current) == WalksOk(runs, current) by { SameWalksOk(runs, next, current); }
    hide WalksOk;
  }

  lemma {:induction false} SameWalksOk(a: seq<ColumnRun>, b: seq<ColumnRun>, n: nat)
    requires n <= |a| && n <= |b| && a[..n] == b[..n]
    ensures WalksOk(a, n) == WalksOk(b, n)
  {
    assert forall c :: 0 <= c < n ==> a[c] == a[..n][c] && b[c] == b[..n][c];
  }

  /** A column is done: its history closes, its rule is settled, and its outcome is remembered. */
  lemma {:induction false} CloseKeeps(cols: seq<Column>, runs: seq<ColumnRun>, width: nat, current: nat,
                                      usingFallback: bool,
                                      root: Text, columnErrors: bool, rows: seq<Row>, outcome: Status)
    requires Reading(cols, runs, width, current, usingFallback, root, columnErrors, rows) && Wide(rows, width)
    requires AfterWalk(cols, rows, width, current, usingFallback, outcome) != ToFallback
    ensures var next := Closed(runs, outcome);
            && Join(cols, next, width) == rows
            && WalksOk(next, current + 1) == (!columnErrors && outcome == Success)
            && RulesUpTo(cols, next, width, current + 1)
  {
    var next := Closed(runs, outcome);
    assert next[..current] == runs[..current];
    SameDeliveries(cols, next, runs, width);
    if usingFallback {
      assert FallbackRule(cols, runs, width, current);
      OpenRule(cols, runs, next, width, current);
    } else {
      LastRule(cols, runs, next, width, outcome);
    }
    SameWalksOk(runs, next, current);
    hide Join, FallbackRule, Wanting;
    RulesKept(cols, runs, next, width, current);
  }

  /** The next column opens with nothing delivered. */
  lemma {:induction false} NextColumnKeeps(cols: seq<Column>, runs: seq<ColumnRun>, width: nat, rows: seq<Row>,
                                           columnErrors: bool)
    requires runs != [] && |runs| < |cols| <= width && rows == Join(cols, runs, width)
    requires columnErrors == !WalksOk(runs, |runs|) && RulesUpTo(cols, runs, width, |runs|)
    ensures Reading(cols, runs + [OPEN], width, |runs|, false, cols[|runs|].oid, columnErrors, rows)
  {
    var more := runs + [OPEN];
    OpenColumn(cols, runs, width);
    assert more[..|runs|] == runs == runs[..|runs|];
    SameWalksOk(runs, more, |runs|);
    hide Join, FallbackRule, WalksOk;
    RulesKept(cols, runs, more, width, |runs|);
  }

  lemma {:induction false} FirstWalk(cols: seq<Column>, width: nat)
    requires cols != [] && |cols| <= width
    ensures Reading(cols, [OPEN], width, 0, false, cols[0].oid, false, [])
  {
    hide FallbackRule;
    OpenColumn(cols, [], width);
    assert [] + [OPEN] == [OPEN];
    assert Delivered(cols, []) == [];
  }

  lemma {:induction false} RowOfIs(rows: seq<Row>, index: Text, i: nat)
    requires i <= |rows| && (forall j :: 0 <= j < i ==> rows[j].index != index)
    requires (i < |rows| ==> rows[i].index == index)
    ensures RowOf(rows, index) == i
  {
    hide RowOf;
    var j := RowOf(rows, index);
  }

  /**
   * The contract of a table that ended with Success or Partial: one row for each suffix that any walk delivered and
   * no other, every cell the primary value, its fallback or its failure, and Success only if nothing failed.
   */
  lemma {:induction false} TableIsOuterJoin(cols: seq<Column>, runs: seq<ColumnRun>, width: nat, rows: seq<Row>,
                                            status: Status,
                                            index: Text)
    requires Complete(cols, runs, width, rows, status)
    ensures forall i, j :: 0 <= i < j < |rows| ==> rows[i].index != rows[j].index
    ensures (exists i :: 0 <= i < |rows| && rows[i].index == index) <==>
            (exists c :: 0 <= c < |cols| && DeliveredBy(cols, runs, c, index))
    ensures Wide(rows, width)
    ensures forall i, c :: 0 <= i < |rows| && 0 <= c < |cols| ==>
              rows[i].cells[c] == JoinCell(cols[c], runs[c], rows[i].index)
    ensures status == Success <==>
            (forall i, c :: 0 <= i < |rows| && 0 <= c < |cols| ==> rows[i].cells[c].Ok()) &&
            (forall c :: 0 <= c < |cols| ==> runs[c].outcome == Success)
  {
    hide DeliveredBy, JoinCell, Indices, FallbackRule;
    JoinIndices(cols, runs, width, index);
    JoinWidth(cols, runs, width);
    assert forall i :: 0 <= i < |rows| ==> rows[i] == JoinRow(cols, runs, width, Indices(cols, runs)[i]);
  }
}

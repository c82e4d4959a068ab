/** The table that a set of column walks stands for: an outer join by index suffix, with fallback columns. */
module Joins {
  import opened Bytes
  import opened Oids
  import opened OidOrder
  import opened Trees
  import opened Values
  import opened OperationLaws

  /** A configured column; an empty fallback disables it. */
  datatype Column = Column(oid: Text, expected: byte, fallback: Text, fallbackExpected: byte)

  datatype TableCell = TableCell(value: Value, status: Status) {
    predicate Ok() { status == Success }
  }

  const MISSING_CELL := TableCell(EMPTY, Missing)

  datatype Row = Row(index: Text, cells: seq<TableCell>)

  /** What the walks of one column delivered: the primary walk, then perhaps the fallback walk. */
  datatype ColumnRun = ColumnRun(
    primary: seq<Cell>,
    primaryOutcome: Status,
    fallback: Option<seq<Cell>>,
    outcome: Status)

  // ----- the join -----

  /** The whole suffix behind a column, without its dot. */
  function Suffix(root: Text, name: Text): Text {
    if |root| < |name| then name[|root| + 1..] else []
  }

  function Suffixes(root: Text, got: seq<Cell>): (r: seq<Text>)
    ensures |r| == |got|
  {
    seq(|got|, i requires 0 <= i < |got| => Suffix(root, got[i].oid))
  }

  function RunSuffixes(col: Column, run: ColumnRun): seq<Text> {
    Suffixes(col.oid, run.primary) + (if run.fallback.Some? then Suffixes(col.fallback, run.fallback.value) else [])
  }

  /** Every suffix delivered, in the order of delivery. */
  function Delivered(cols: seq<Column>, runs: seq<ColumnRun>): seq<Text>
    requires |runs| <= |cols|
  {
    if runs == [] then []
    else Delivered(cols, runs[..|runs| - 1]) + RunSuffixes(cols[|runs| - 1], runs[|runs| - 1])
  }

  /** First occurrences only, in order. */
  function FirstSeen(s: seq<Text>): seq<Text> {
    if s == [] then []
    else
      var seen := FirstSeen(s[..|s| - 1]);
      if s[|s| - 1] in seen then seen else seen + [s[|s| - 1]]
  }

  function Find(root: Text, got: seq<Cell>, index: Text): Option<Cell> {
    if got == [] then None
    else if Suffix(root, got[|got| - 1].oid) == index then Some(got[|got| - 1])
    else Find(root, got[..|got| - 1], index)
  }

  function Typed(c: Cell, expected: byte): TableCell {
    TableCell(c.value,
              if c.status == Success && expected != NULLTYPE && expected != c.value.tag then TypeMismatch else c.status)
  }

  function PrimaryCell(col: Column, run: ColumnRun, index: Text): TableCell {
    var p := Find(col.oid, run.primary, index);
    if p.Some? then Typed(p.value, col.expected) else MISSING_CELL
  }

  /** The primary value when usable, else whatever the fallback delivered, else the unusable primary or Missing. */
  function JoinCell(col: Column, run: ColumnRun, index: Text): TableCell {
    var first := PrimaryCell(col, run, index);
    if first.Ok() || run.fallback.None? then first
    else
      var f := Find(col.fallback, run.fallback.value, index);
      if f.Some? then Typed(f.value, col.fallbackExpected) else first
  }

  function JoinRow(cols: seq<Column>, runs: seq<ColumnRun>, width: nat, index: Text): (r: Row)
    requires |runs| <= |cols|
    ensures r.index == index && |r.cells| == width
  {
    Row(index,
        seq(width, c requires 0 <= c < width => if c < |runs| then JoinCell(cols[c], runs[c], index) else MISSING_CELL))
  }

  function Indices(cols: seq<Column>, runs: seq<ColumnRun>): seq<Text>
    requires |runs| <= |cols|
  {
    FirstSeen(Delivered(cols, runs))
  }

  /** The table of a set of column runs. */
  function Join(cols: seq<Column>, runs: seq<ColumnRun>, width: nat): (r: seq<Row>)
    requires |runs| <= |cols|
    ensures |r| == |Indices(cols, runs)|
    ensures forall i :: 0 <= i < |r| ==> r[i] == JoinRow(cols, runs, width, Indices(cols, runs)[i])
  {
    var indices := Indices(cols, runs);
    seq(|indices|, i requires 0 <= i < |indices| => JoinRow(cols, runs, width, indices[i]))
  }

  // ----- what the join promises -----

  lemma {:induction false} FirstSeenExact(s: seq<Text>, x: Text)
    ensures x in FirstSeen(s) <==> x in s
    ensures forall i, j :: 0 <= i < j < |FirstSeen(s)| ==> FirstSeen(s)[i] != FirstSeen(s)[j]
    decreases |s|
  {
    if s != [] {
      FirstSeenExact(s[..|s| - 1], x);
      FirstSeenExact(s[..|s| - 1], s[|s| - 1]);
      assert s == s[..|s| - 1] + [s[|s| - 1]];
    }
  }

  /** Row order is the order in which indices were first delivered. */
  lemma {:induction false} FirstSeenOrder(s: seq<Text>, n: nat)
    requires n <= |s|
    ensures FirstSeen(s[..n]) <= FirstSeen(s)
    decreases |s| - n
  {
    if n == |s| {
      assert s[..n] == s;
    } else {
      FirstSeenOrder(s, n + 1);
      assert s[..n + 1][..n] == s[..n];
      assert FirstSeen(s[..n]) <= FirstSeen(s[..n + 1]);
    }
  }

  ghost predicate DeliveredBy(cols: seq<Column>, runs: seq<ColumnRun>, c: nat, x: Text)
    requires |runs| <= |cols| && c < |runs|
  {
    x in RunSuffixes(cols[c], runs[c])
  }

  lemma {:induction false} DeliveredExact(cols: seq<Column>, runs: seq<ColumnRun>, x: Text)
    requires |runs| <= |cols|
    ensures x in Delivered(cols, runs) <==> exists c :: 0 <= c < |runs| && DeliveredBy(cols, runs, c, x)
    decreases |runs|
  {
    hide RunSuffixes;
    if runs != [] {
      var n := |runs| - 1;
      DeliveredExact(cols, runs[..n], x);
      if exists c :: 0 <= c < n && DeliveredBy(cols, runs[..n], c, x) {
        var c :| 0 <= c < n && DeliveredBy(cols, runs[..n], c, x);
        assert DeliveredBy(cols, runs, c, x);
      }
      if exists c :: 0 <= c < |runs| && DeliveredBy(cols, runs, c, x) {
        var c :| 0 <= c < |runs| && DeliveredBy(cols, runs, c, x);
        assert c < n ==> DeliveredBy(cols, runs[..n], c, x);
      }
      assert DeliveredBy(cols, runs, n, x) <==> x in RunSuffixes(cols[n], runs[n]);
    }
  }

  /** Row indices are distinct and are exactly the suffixes that some walk of some column delivered. */
  lemma {:induction false} JoinIndices(cols: seq<Column>, runs: seq<ColumnRun>, width: nat, x: Text)
    requires |runs| <= |cols|
    ensures var rows := Join(cols, runs, width);
            && (forall i, j :: 0 <= i < j < |rows| ==> rows[i].index != rows[j].index)
            && ((exists i :: 0 <= i < |rows| && rows[i].index == x) <==>
                (exists c :: 0 <= c < |runs| && DeliveredBy(cols, runs, c, x)))
  {
    hide Delivered, DeliveredBy, FirstSeen;
    FirstSeenExact(Delivered(cols, runs), x);
    DeliveredExact(cols, runs, x);
    var rows, indices := Join(cols, runs, width), Indices(cols, runs);
    assert forall i :: 0 <= i < |rows| ==> rows[i].index == indices[i];
    if x in indices {
      var i :| 0 <= i < |indices| && indices[i] == x;
      assert rows[i].index == x;
    }
  }

  // ----- one more delivery -----

  /** The runs after one more delivery in the open walk. */
  function Deliver(runs: seq<ColumnRun>, cell: Cell): (r: seq<ColumnRun>)
    requires runs != []
    ensures |r| == |runs|
  {
    var n := |runs| - 1;
    var run := runs[n];
    runs[n := if run.fallback.Some? then run.(fallback := Some(run.fallback.value + [cell]))
              else run.(primary := run.primary + [cell])]
  }

  /** The root of the open walk. */
  function OpenRoot(cols: seq<Column>, runs: seq<ColumnRun>): Text
    requires runs != [] && |runs| <= |cols|
  {
    if runs[|runs| - 1].fallback.Some? then cols[|runs| - 1].fallback else cols[|runs| - 1].oid
  }

  function OpenNames(runs: seq<ColumnRun>): seq<Cell>
    requires runs != []
  {
    var run := runs[|runs| - 1];
    if run.fallback.Some? then run.fallback.value else run.primary
  }

  lemma {:induction false} SuffixesSnoc(root: Text, got: seq<Cell>, cell: Cell)
    ensures Suffixes(root, got + [cell]) == Suffixes(root, got) + [Suffix(root, cell.oid)]
  {}

  lemma {:induction false} DeliveredSnoc(cols: seq<Column>, runs: seq<ColumnRun>, cell: Cell)
    requires runs != [] && |runs| <= |cols|
    ensures Delivered(cols, Deliver(runs, cell)) == Delivered(cols, runs) + [Suffix(OpenRoot(cols, runs), cell.oid)]
  {
    hide Suffix, Suffixes;
    var n := |runs| - 1;
    var run, next := runs[n], Deliver(runs, cell);
    assert next[..n] == runs[..n];
    SuffixesSnoc(OpenRoot(cols, runs), OpenNames(runs), cell);
    var x := [Suffix(OpenRoot(cols, runs), cell.oid)];
    assert RunSuffixes(cols[n], next[n]) == RunSuffixes(cols[n], run) + x;
    var earlier, own := Delivered(cols, runs[..n]), RunSuffixes(cols[n], run);
    assert earlier + (own + x) == earlier + own + x;
  }

  lemma {:induction false} FirstSeenSnoc(s: seq<Text>, x: Text)
    ensures FirstSeen(s + [x]) == if x in FirstSeen(s) then FirstSeen(s) else FirstSeen(s) + [x]
  {
    assert (s + [x])[..|s|] == s;
  }

  lemma {:induction false} FindSnoc(root: Text, got: seq<Cell>, cell: Cell, index: Text)
    ensures Find(root, got + [cell], index) ==
            if Suffix(root, cell.oid) == index then Some(cell) else Find(root, got, index)
  {
    assert (got + [cell])[..|got|] == got;
  }

  lemma {:induction false} FindNone(root: Text, got: seq<Cell>, index: Text)
    ensures Find(root, got, index).None? <==> index !in Suffixes(root, got)
    decreases |got|
  {
    hide Suffix;
    if got != [] {
      var before, last := got[..|got| - 1], got[|got| - 1];
      FindNone(root, before, index);
      assert got == before + [last];
      SuffixesSnoc(root, before, last);
    }
  }

  /** The open walk has not delivered this suffix yet. */
  ghost predicate New(cols: seq<Column>, runs: seq<ColumnRun>, cell: Cell)
    requires runs != [] && |runs| <= |cols|
  {
    Suffix(OpenRoot(cols, runs), cell.oid) !in Suffixes(OpenRoot(cols, runs), OpenNames(runs))
  }

  /** A walk's names increase strictly below its root, so their suffixes never repeat. */
  lemma {:induction false} ChainIsNew(root: Text, got: seq<Cell>, names: seq<Text>, cell: Cell)
    requires NamesOf(got, names) && Chain(root, names + [cell.oid])
    ensures Suffix(root, cell.oid) !in Suffixes(root, got)
  {
    hide Compare, Canonical;
    var all := names + [cell.oid];
    forall i | 0 <= i < |got|
      ensures Suffixes(root, got)[i] != Suffix(root, cell.oid)
    {
      assert all[i] == got[i].oid && all[|names|] == cell.oid;
      assert Compare(all[i], all[|names|]) < 0;
      if Suffix(root, all[i]) == Suffix(root, cell.oid) {
        UnderSuffix(root, all[i]);
        UnderSuffix(root, cell.oid);
        SelfCompare(cell.oid);
      }
    }
  }

  lemma {:induction false} UnderSuffix(root: Text, name: Text)
    requires Under(root, name)
    ensures name == root + [DOT] + Suffix(root, name)
  {}

  lemma {:induction false} SelfCompare(a: Text)
    ensures Compare(a, a) == 0
  {
    LexEqual(ArcsOf(a), ArcsOf(a));
  }

  /** What consume does to one row. */
  function Taken(col: Column, fallback: bool, cell: TableCell, got: Cell): TableCell {
    if fallback && cell.Ok() then cell else Typed(got, if fallback then col.fallbackExpected else col.expected)
  }

  lemma {:induction false} JoinCellTaken(col: Column, run: ColumnRun, got: Cell, index: Text)
    requires var root := if run.fallback.Some? then col.fallback else col.oid;
             var names := if run.fallback.Some? then run.fallback.value else run.primary;
             Suffix(root, got.oid) !in Suffixes(root, names)
    ensures var next := if run.fallback.Some? then run.(fallback := Some(run.fallback.value + [got]))
                        else run.(primary := run.primary + [got]);
            var root := if run.fallback.Some? then col.fallback else col.oid;
            JoinCell(col, next, index) ==
            if Suffix(root, got.oid) == index then Taken(col, run.fallback.Some?, JoinCell(col, run, index), got)
            else JoinCell(col, run, index)
  {
    hide Suffix, Find, Suffixes;
    if run.fallback.Some? {
      FindSnoc(col.fallback, run.fallback.value, got, index);
      FindNone(col.fallback, run.fallback.value, index);
    } else {
      FindSnoc(col.oid, run.primary, got, index);
      FindNone(col.oid, run.primary, index);
    }
  }

  /** An index that nobody delivered has an empty row. */
  lemma {:induction false} UnseenCell(cols: seq<Column>, runs: seq<ColumnRun>, c: nat, index: Text)
    requires |runs| <= |cols| && c < |runs| && index !in Indices(cols, runs)
    ensures JoinCell(cols[c], runs[c], index) == MISSING_CELL
  {
    hide FirstSeen, Delivered, Find, Suffixes;
    FirstSeenExact(Delivered(cols, runs), index);
    DeliveredExact(cols, runs, index);
    assert !DeliveredBy(cols, runs, c, index);
    FindNone(cols[c].oid, runs[c].primary, index);
    if runs[c].fallback.Some? {
      FindNone(cols[c].fallback, runs[c].fallback.value, index);
    }
  }

  /** A row with one cell replaced. */
  function Replace(row: Row, c: nat, cell: TableCell): Row
    requires c < |row.cells|
  {
    row.(cells := row.cells[c := cell])
  }

  lemma {:induction false} JoinRowTaken(cols: seq<Column>, runs: seq<ColumnRun>, width: nat, got: Cell, index: Text)
    requires runs != [] && |runs| <= |cols| && |runs| <= width && New(cols, runs, got)
    ensures var n, row := |runs| - 1, JoinRow(cols, runs, width, index);
            JoinRow(cols, Deliver(runs, got), width, index) ==
            if Suffix(OpenRoot(cols, runs), got.oid) == index
            then Replace(row, n, Taken(cols[n], runs[n].fallback.Some?, row.cells[n], got)) else row
  {
    hide JoinCell, Suffix, Suffixes, Taken;
    var n := |runs| - 1;
    JoinCellTaken(cols[n], runs[n], got, index);
    var before, after := JoinRow(cols, runs, width, index), JoinRow(cols, Deliver(runs, got), width, index);
    assert forall c :: 0 <= c < width && c != n ==> after.cells[c] == before.cells[c];
  }

  function EmptyRow(width: nat, index: Text): (r: Row)
    ensures |r.cells| == width
  {
    Row(index, seq(width, c requires 0 <= c < width => MISSING_CELL))
  }

  lemma {:induction false} UnseenRow(cols: seq<Column>, runs: seq<ColumnRun>, width: nat, index: Text)
    requires |runs| <= |cols| && index !in Indices(cols, runs)
    ensures JoinRow(cols, runs, width, index) == EmptyRow(width, index)
  {
    hide JoinCell, Indices;
    var row := JoinRow(cols, runs, width, index);
    forall c | 0 <= c < width
      ensures row.cells[c] == MISSING_CELL
    {
      if c < |runs| {
        UnseenCell(cols, runs, c, index);
      }
    }
  }

  /** The position of an index, or the number of rows. */
  function RowOf(rows: seq<Row>, index: Text): (i: nat)
    ensures i <= |rows|
    ensures i < |rows| ==> rows[i].index == index
    ensures forall j :: 0 <= j < i ==> rows[j].index != index
  {
    if rows == [] || rows[0].index == index then 0 else 1 + RowOf(rows[1..], index)
  }

  /** What consume does to the rows when nothing is full. */
  function Consumed(rows: seq<Row>, col: Column, c: nat, fallback: bool, width: nat, index: Text, got: Cell): seq<Row>
    requires c < width && forall i :: 0 <= i < |rows| ==> |rows[i].cells| == width
  {
    var i := RowOf(rows, index);
    var more := if i == |rows| then rows + [EmptyRow(width, index)] else rows;
    more[i := Replace(more[i], c, Taken(col, fallback, more[i].cells[c], got))]
  }

  lemma {:induction false} JoinWidth(cols: seq<Column>, runs: seq<ColumnRun>, width: nat)
    requires |runs| <= |cols|
    ensures forall i :: 0 <= i < |Join(cols, runs, width)| ==> |Join(cols, runs, width)[i].cells| == width
  {
    hide Indices, JoinRow;
  }

  lemma {:induction false} JoinNames(cols: seq<Column>, runs: seq<ColumnRun>, width: nat, index: Text)
    requires |runs| <= |cols|
    ensures var i, rows := RowOf(Join(cols, runs, width), index), Join(cols, runs, width);
            && (i < |rows| <==> index in Indices(cols, runs))
            && (forall j :: 0 <= j < |rows| ==> rows[j].index == Indices(cols, runs)[j])
            && (forall j :: 0 <= j < |rows| && rows[j].index == index ==> j == i)
  {
    hide JoinRow, FirstSeen, RowOf, Delivered;
    var rows, indices := Join(cols, runs, width), Indices(cols, runs);
    FirstSeenExact(Delivered(cols, runs), index);
    assert forall j :: 0 <= j < |rows| ==> rows[j].index == indices[j];
    if index in indices {
      var j :| 0 <= j < |indices| && indices[j] == index;
      assert rows[j].index == index;
    }
  }

  /** Consuming one delivery turns the join of what came before into the join with it. */
  lemma {:induction false} ConsumeJoins(cols: seq<Column>, runs: seq<ColumnRun>, width: nat, got: Cell)
    requires runs != [] && |runs| <= |cols| && |runs| <= width && New(cols, runs, got)
    ensures var n, index, rows := |runs| - 1, Suffix(OpenRoot(cols, runs), got.oid), Join(cols, runs, width);
            && (forall i :: 0 <= i < |rows| ==> |rows[i].cells| == width)
            && Join(cols, Deliver(runs, got), width) ==
               Consumed(rows, cols[n], n, runs[n].fallback.Some?, width, index, got)
  {
    hide Suffix, New, JoinRow, FirstSeen, Delivered, Deliver, RowOf, Taken;
    var n, index, rows := |runs| - 1, Suffix(OpenRoot(cols, runs), got.oid), Join(cols, runs, width);
    JoinWidth(cols, runs, width);
    DeliveredSnoc(cols, runs, got);
    FirstSeenSnoc(Delivered(cols, runs), index);
    JoinNames(cols, runs, width, index);
    var next := Join(cols, Deliver(runs, got), width);
    var want := Consumed(rows, cols[n], n, runs[n].fallback.Some?, width, index, got);
    var before, after := Indices(cols, runs), Indices(cols, Deliver(runs, got));
    assert |next| == |want|;
    forall i | 0 <= i < |next|
      ensures next[i] == want[i]
    {
      JoinRowTaken(cols, runs, width, got, after[i]);
      if i < |rows| {
        assert after[i] == before[i];
      } else {
        UnseenRow(cols, runs, width, index);
      }
    }
  }
}

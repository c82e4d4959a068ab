/** Exactly when a finished table has walked the fallback of a column, told by what its walks delivered. */
module Fallbacks {
  import opened Bytes
  import opened Values
  import opened Joins
  import Table

  /** A walk up to the primary walk of column c has delivered the index. */
  ghost predicate Seen(cols: seq<Column>, runs: seq<ColumnRun>, c: nat, x: Text)
    requires c < |runs| <= |cols|
  {
    || (exists d :: 0 <= d < c && DeliveredBy(cols, runs, d, x))
    || x in Suffixes(cols[c].oid, runs[c].primary)
  }

  /** Something is left to fill: no index at all, a failed walk, or an index whose value in the column is unusable. */
  ghost predicate LeftToFill(cols: seq<Column>, runs: seq<ColumnRun>, c: nat)
    requires c < |runs| <= |cols|
  {
    || (forall x :: !Seen(cols, runs, c, x))
    || runs[c].primaryOutcome != Success
    || exists x :: Seen(cols, runs, c, x) && PrimaryCell(cols[c], runs[c], x).status != Success
  }

  /** The runs up to the primary walk of column c. */
  function UpToPrimary(runs: seq<ColumnRun>, c: nat): (r: seq<ColumnRun>)
    requires c < |runs|
    ensures |r| == c + 1
  {
    runs[..c] + [runs[c].(fallback := None)]
  }

  lemma {:induction false} SeenRows(cols: seq<Column>, runs: seq<ColumnRun>, c: nat, width: nat, x: Text)
    requires c < |runs| <= |cols|
    ensures var rows := Join(cols, UpToPrimary(runs, c), width);
            (exists i :: 0 <= i < |rows| && rows[i].index == x) <==> Seen(cols, runs, c, x)
  {
    var part := UpToPrimary(runs, c);
    JoinIndices(cols, part, width, x);
    hide Suffixes, Join;
    assert forall d :: 0 <= d < c ==> part[d] == runs[d];
    assert DeliveredBy(cols, part, c, x) <==> x in Suffixes(cols[c].oid, runs[c].primary) by {
      assert RunSuffixes(cols[c], part[c]) == Suffixes(cols[c].oid, runs[c].primary) + [];
    }
    hide RunSuffixes;
    if exists d :: 0 <= d < c + 1 && DeliveredBy(cols, part, d, x) {
      var d :| 0 <= d < c + 1 && DeliveredBy(cols, part, d, x);
      assert d < c ==> DeliveredBy(cols, runs, d, x);
    }
    if exists d :: 0 <= d < c && DeliveredBy(cols, runs, d, x) {
      var d :| 0 <= d < c && DeliveredBy(cols, runs, d, x);
      assert DeliveredBy(cols, part, d, x);
    }
  }

  lemma {:induction false} PrimaryRows(cols: seq<Column>, runs: seq<ColumnRun>, c: nat, width: nat)
    requires c < |runs| <= |cols| <= width
    ensures var rows := Join(cols, UpToPrimary(runs, c), width);
            forall i :: 0 <= i < |rows| ==>
              |rows[i].cells| == width && rows[i].cells[c] == PrimaryCell(cols[c], runs[c], rows[i].index)
  {
    hide Indices, Find;
    var part := UpToPrimary(runs, c);
    var rows := Join(cols, part, width);
    forall i | 0 <= i < |rows|
      ensures rows[i] == JoinRow(cols, part, width, rows[i].index)
    {}
  }

  /** The rows of that moment leave something to fill exactly when the deliveries do. */
  lemma {:induction false} WantingIsLeft(cols: seq<Column>, runs: seq<ColumnRun>, c: nat, width: nat)
    requires c < |runs| <= |cols| <= width
    ensures var rows := Join(cols, UpToPrimary(runs, c), width);
            && (forall r :: 0 <= r < |rows| ==> c < |rows[r].cells|)
            && (Table.Wanting(rows, c, runs[c].primaryOutcome) <==> LeftToFill(cols, runs, c))
  {
    var rows := Join(cols, UpToPrimary(runs, c), width);
    PrimaryRows(cols, runs, c, width);
    forall x | true
      ensures (exists i :: 0 <= i < |rows| && rows[i].index == x) <==> Seen(cols, runs, c, x)
    {
      SeenRows(cols, runs, c, width, x);
    }
    hide Seen, PrimaryCell, Join;
    if rows != [] {
      assert Seen(cols, runs, c, rows[0].index);
    }
    if Table.Unusable(rows, c) {
      var r :| 0 <= r < |rows| && !rows[r].cells[c].Ok();
      assert Seen(cols, runs, c, rows[r].index) && PrimaryCell(cols[c], runs[c], rows[r].index).status != Success;
    }
    if exists x :: Seen(cols, runs, c, x) && PrimaryCell(cols[c], runs[c], x).status != Success {
      var x :| Seen(cols, runs, c, x) && PrimaryCell(cols[c], runs[c], x).status != Success;
      var i :| 0 <= i < |rows| && rows[i].index == x;
      assert !rows[i].cells[c].Ok();
    }
  }

  /** A finished table has walked a fallback exactly when one was configured and something was left to fill. */
  lemma {:induction false} FallbackExactly(cols: seq<Column>, runs: seq<ColumnRun>, width: nat, c: nat)
    requires c < |runs| <= |cols| <= width && Table.RulesUpTo(cols, runs, width, |runs|)
    ensures runs[c].fallback.Some? <==> cols[c].fallback != [] && LeftToFill(cols, runs, c)
  {
    WantingIsLeft(cols, runs, c, width);
    assert Table.FallbackRule(cols, runs, width, c);
    assert runs[..c] + [Table.PrimaryOnly(runs[c])] == UpToPrimary(runs, c);
    hide LeftToFill, Table.Wanting, Join;
  }
}

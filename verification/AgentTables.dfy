/**
 * A table read against an honest agent holds the agent's own table: a row for every index under which the agent has an
 * object, and in every cell that object.
 */
module AgentTables {
  import opened Bytes
  import opened Oids
  import opened OidOrder
  import opened Trees
  import opened Values
  import opened Operations
  import opened OperationLaws
  import opened Engine
  import opened Runs
  import opened Agents
  import opened Walks
  import opened Joins
  import opened TableWalks
  import opened TableHistory
  import opened TableRuns
  import opened Fallbacks
  import Table

  // ----- against an honest agent -----

  /** The object of a column in one row. */
  function Instance(root: Text, index: Text): Text { root + [DOT] + index }

  /** What the library makes of the agent's object for a cell. */
  function ObjectCell(root: Text, index: Text, expected: byte, mib: seq<Text>, values: Text -> Ber,
                      lim: Limits): TableCell {
    if Instance(root, index) in mib then
      var (status, value) := CopyValue(values(Instance(root, index)), lim);
      var asked := expected == 0x05 || expected == value.tag;
      TableCell(value, if status == Success && !asked then TypeMismatch else status)
    else TableCell(Value(0x05, 0, []), Missing)
  }

  /**
   * The cell that the agent's objects stand for: the column's own, or its fallback's when that was walked and is
   * needed.
   */
  function AgentCell(col: Column, walked: bool, index: Text, mib: seq<Text>, values: Text -> Ber,
                     lim: Limits): TableCell {
    var first := ObjectCell(col.oid, index, col.expected, mib, values, lim);
    if first.status == Success || !walked || Instance(col.fallback, index) !in mib then first
    else ObjectCell(col.fallback, index, col.fallbackExpected, mib, values, lim)
  }

  /** The cells of a whole subtree of an agent whose values do not change. */
  ghost predicate Holds(got: seq<Cell>, root: Text, mib: seq<Text>, values: Text -> Ber, lim: Limits) {
    && NamesOf(got, Members(mib, root))
    && forall i :: 0 <= i < |got| ==> (got[i].status, got[i].value) == CopyValue(values(got[i].oid), lim)
  }

  lemma {:induction false} InstanceUnder(root: Text, index: Text)
    ensures Under(root, Instance(root, index)) && Suffix(root, Instance(root, index)) == index
  {}

  lemma {:induction false} UnderInstance(root: Text, name: Text)
    requires Under(root, name)
    ensures name == Instance(root, Suffix(root, name))
  {}

  /** Members below a root are the agent's instances of it. */
  lemma {:induction false} MemberIs(mib: seq<Text>, root: Text, name: Text)
    requires SortedMib(mib) && Canonical(root)
    ensures name in Members(mib, root) <==> name in mib && Under(root, name)
  {
    MembersExact(mib, root, name);
    hide Canonical, Under, StrictPrefix, ArcsOf, Members;
    if name in mib {
      UnderIsPrefix(root, name);
    }
  }

  lemma {:induction false} FindHeld(root: Text, got: seq<Cell>, mib: seq<Text>, index: Text)
    requires forall i :: 0 <= i < |got| ==> Under(root, got[i].oid)
    ensures var f := Find(root, got, index);
            if f.Some? then f.value in got && f.value.oid == Instance(root, index)
            else forall i :: 0 <= i < |got| ==> got[i].oid != Instance(root, index)
    decreases |got|
  {
    hide Under, Instance, Suffix;
    InstanceUnder(root, index);
    if got != [] {
      var before, last := got[..|got| - 1], got[|got| - 1];
      FindHeld(root, before, mib, index);
      UnderInstance(root, last.oid);
      assert forall i :: 0 <= i < |before| ==> got[i] == before[i];
    }
  }

  /** What the join finds in such a walk is the agent's object. */
  lemma {:induction false} FoundIsObject(got: seq<Cell>, root: Text, index: Text, expected: byte, mib: seq<Text>,
                                         values: Text -> Ber, lim: Limits)
    requires SortedMib(mib) && Canonical(root) && Holds(got, root, mib, values, lim)
    ensures var f := Find(root, got, index);
            && (f.Some? <==> Instance(root, index) in mib)
            && (f.Some? ==> Typed(f.value, expected) == ObjectCell(root, index, expected, mib, values, lim))
  {
    hide Canonical, Under, Members, CopyValue, Instance, Suffix, Find, SortedMib;
    forall i | 0 <= i < |got|
      ensures Under(root, got[i].oid) && got[i].oid in mib
    {
      assert got[i].oid in Members(mib, root);
      MemberIs(mib, root, got[i].oid);
    }
    FindHeld(root, got, mib, index);
    InstanceUnder(root, index);
    MemberIs(mib, root, Instance(root, index));
    var f := Find(root, got, index);
    if f.Some? {
      var i :| 0 <= i < |got| && got[i] == f.value;
    }
  }

  lemma {:induction false} SuffixIsInstance(got: seq<Cell>, root: Text, index: Text, mib: seq<Text>,
                                            values: Text -> Ber, lim: Limits)
    requires SortedMib(mib) && Canonical(root) && Holds(got, root, mib, values, lim)
    ensures index in Suffixes(root, got) <==> Instance(root, index) in mib
  {
    hide Canonical, Members, CopyValue, Instance, Suffixes, Find, SortedMib, Holds;
    FoundIsObject(got, root, index, NULLTYPE, mib, values, lim);
    FindNone(root, got, index);
  }

  /** Every walk of a column succeeded, and each holds its subtree. */
  ghost predicate ColumnHolds(col: Column, run: ColumnRun, mib: seq<Text>, values: Text -> Ber, lim: Limits) {
    && Canonical(col.oid) && Holds(run.primary, col.oid, mib, values, lim)
    && (run.fallback.Some? ==> Canonical(col.fallback) && Holds(run.fallback.value, col.fallback, mib, values, lim))
  }

  lemma {:induction false} CellOfAgent(col: Column, run: ColumnRun, index: Text, mib: seq<Text>, values: Text -> Ber,
                                       lim: Limits)
    requires SortedMib(mib) && ColumnHolds(col, run, mib, values, lim)
    ensures JoinCell(col, run, index) == AgentCell(col, run.fallback.Some?, index, mib, values, lim)
    ensures index in RunSuffixes(col, run) <==>
              Instance(col.oid, index) in mib || (run.fallback.Some? && Instance(col.fallback, index) in mib)
  {
    hide Canonical, Instance, Find, SortedMib, Suffixes, CopyValue, Typed, Holds;
    FoundIsObject(run.primary, col.oid, index, col.expected, mib, values, lim);
    SuffixIsInstance(run.primary, col.oid, index, mib, values, lim);
    if run.fallback.Some? {
      FoundIsObject(run.fallback.value, col.fallback, index, col.fallbackExpected, mib, values, lim);
      SuffixIsInstance(run.fallback.value, col.fallback, index, mib, values, lim);
    }
  }

  /** A walk that the log shows to have ended with Success holds the agent's subtree. */
  lemma {:induction false} LoggedHolds(w: World, es: seq<Event>, k: nat, root: Text, got: seq<Cell>, agent: Agent,
                                       values: Text -> Ber, lim: Limits)
    requires Initial(w, lim) && ParsedEvents(es, lim) && SortedMib(agent.mib)
    requires k < |w.ops| && w.ops[k].walking && HonestRun(w, es, k, agent, lim)
    requires forall name, v :: agent.says(name, v) ==> v == values(name)
    requires WalkLogged(Run(w, es, lim).completions, k, root, got, Success)
    ensures Holds(got, root, agent.mib, values, lim)
  {
    hide Initial, ParsedEvents, SortedMib, HonestRun, Run, Whole, Members, CopyValue;
    var log := Run(w, es, lim).completions;
    var i :| 0 <= i < |log| && Logs(log[i], k, root, got, Success);
    WalkComplete(w, es, k, i, agent, lim);
    var seen := log[i].state;
    WholeNames(seen, agent, lim);
    forall j | 0 <= j < |got|
      ensures (got[j].status, got[j].value) == CopyValue(values(got[j].oid), lim)
    {
      WholeOfConstants(seen, agent, values, j, lim);
    }
  }

  lemma {:induction false} WholeNames(op: Op, agent: Agent, lim: Limits)
    requires Whole(op, agent, lim)
    ensures NamesOf(op.taken, Members(agent.mib, op.root))
  {}

  /** The agent has an object of this index in column c, in one before it or in a fallback of such that is walked. */
  ghost predicate KnownTo(cols: seq<Column>, c: nat, index: Text, mib: seq<Text>, values: Text -> Ber, lim: Limits)
    requires c < |cols|
    decreases c, 0
  {
    || Instance(cols[c].oid, index) in mib
    || exists d :: 0 <= d < c && HasObject(cols[d], FallbackWalked(cols, d, mib, values, lim), index, mib)
  }

  /**
   * The agent's own condition for walking the fallback of column c: one is configured, and either no index is known by
   * then or the column's object under some known index is missing or unusable.
   */
  ghost predicate FallbackWalked(cols: seq<Column>, c: nat, mib: seq<Text>, values: Text -> Ber, lim: Limits)
    requires c < |cols|
    decreases c, 1
  {
    && cols[c].fallback != []
    && ((forall x :: !KnownTo(cols, c, x, mib, values, lim))
        || exists x :: KnownTo(cols, c, x, mib, values, lim)
                       && ObjectCell(cols[c].oid, x, cols[c].expected, mib, values, lim).status != Success)
  }

  ghost predicate WalkedAlike(cols: seq<Column>, runs: seq<ColumnRun>, c: nat, mib: seq<Text>, values: Text -> Ber,
                              lim: Limits)
    requires c < |runs| <= |cols|
  {
    runs[c].fallback.Some? <==> FallbackWalked(cols, c, mib, values, lim)
  }

  /** What has been delivered by the primary walk of column c is what the agent has. */
  lemma {:induction false} SeenIsKnown(cols: seq<Column>, runs: seq<ColumnRun>, c: nat, x: Text, mib: seq<Text>,
                                       values: Text -> Ber, lim: Limits)
    requires c < |runs| <= |cols| && SortedMib(mib)
    requires forall d :: 0 <= d < |runs| ==> ColumnHolds(cols[d], runs[d], mib, values, lim)
    requires forall d :: 0 <= d < c ==> WalkedAlike(cols, runs, d, mib, values, lim)
    ensures Seen(cols, runs, c, x) <==> KnownTo(cols, c, x, mib, values, lim)
    ensures PrimaryCell(cols[c], runs[c], x) == ObjectCell(cols[c].oid, x, cols[c].expected, mib, values, lim)
  {
    hide Canonical, Instance, Find, SortedMib, Suffixes, CopyValue, Typed, Holds, FallbackWalked, HasObject,
      RunSuffixes;
    assert ColumnHolds(cols[c], runs[c], mib, values, lim);
    FoundIsObject(runs[c].primary, cols[c].oid, x, cols[c].expected, mib, values, lim);
    SuffixIsInstance(runs[c].primary, cols[c].oid, x, mib, values, lim);
    forall d | 0 <= d < c
      ensures DeliveredBy(cols, runs, d, x) <==> HasObject(cols[d], FallbackWalked(cols, d, mib, values, lim), x, mib)
    {
      assert ColumnHolds(cols[d], runs[d], mib, values, lim) && WalkedAlike(cols, runs, d, mib, values, lim);
      CellOfAgent(cols[d], runs[d], x, mib, values, lim);
      ObjectIs(cols[d], runs[d].fallback.Some?, x, mib);
    }
    hide DeliveredBy;
  }

  /** A fallback was walked exactly when the agent's objects leave something to fill. */
  lemma {:induction false} FallbackOfAgent(cols: seq<Column>, runs: seq<ColumnRun>, width: nat, c: nat, mib: seq<Text>,
                                           values: Text -> Ber, lim: Limits)
    requires c < |runs| <= |cols| <= width && SortedMib(mib) && Table.RulesUpTo(cols, runs, width, |runs|)
    requires forall d :: 0 <= d < |runs| ==> ColumnHolds(cols[d], runs[d], mib, values, lim)
    requires runs[c].primaryOutcome == Success
    requires forall d :: 0 <= d < c ==> WalkedAlike(cols, runs, d, mib, values, lim)
    ensures WalkedAlike(cols, runs, c, mib, values, lim)
  {
    FallbackExactly(cols, runs, width, c);
    hide Table.RulesUpTo, Seen, KnownTo, PrimaryCell, ObjectCell, SortedMib, ColumnHolds;
    forall x | true
      ensures Seen(cols, runs, c, x) <==> KnownTo(cols, c, x, mib, values, lim)
      ensures PrimaryCell(cols[c], runs[c], x) == ObjectCell(cols[c].oid, x, cols[c].expected, mib, values, lim)
    {
      SeenIsKnown(cols, runs, c, x, mib, values, lim);
    }
  }

  lemma {:induction false} FallbacksOfAgent(cols: seq<Column>, runs: seq<ColumnRun>, width: nat, n: nat, mib: seq<Text>,
                                            values: Text -> Ber, lim: Limits)
    requires n <= |runs| <= |cols| <= width && SortedMib(mib) && Table.RulesUpTo(cols, runs, width, |runs|)
    requires forall c :: 0 <= c < |runs| ==>
               ColumnHolds(cols[c], runs[c], mib, values, lim) && runs[c].primaryOutcome == Success
    ensures forall c :: 0 <= c < n ==> WalkedAlike(cols, runs, c, mib, values, lim)
  {
    hide Table.RulesUpTo, SortedMib, ColumnHolds, WalkedAlike;
    if n > 0 {
      FallbacksOfAgent(cols, runs, width, n - 1, mib, values, lim);
      FallbackOfAgent(cols, runs, width, n - 1, mib, values, lim);
    }
  }

  /**
   * One row for every index under which the agent has an object in a column, or in a fallback column that is walked.
   */
  ghost predicate RowsOfAgent(cols: seq<Column>, rows: seq<Row>, index: Text, mib: seq<Text>, values: Text -> Ber,
                              lim: Limits)
  {
    && (forall i, j :: 0 <= i < j < |rows| ==> rows[i].index != rows[j].index)
    && ((exists i :: 0 <= i < |rows| && rows[i].index == index) <==>
        (exists c :: 0 <= c < |cols| && HasObject(cols[c], FallbackWalked(cols, c, mib, values, lim), index, mib)))
  }

  /** Every cell is the agent's object. */
  ghost predicate CellsOfAgent(cols: seq<Column>, rows: seq<Row>, mib: seq<Text>, values: Text -> Ber, lim: Limits)
  {
    forall i, c :: 0 <= i < |rows| && 0 <= c < |cols| ==>
      && c < |rows[i].cells|
      && rows[i].cells[c] ==
         AgentCell(cols[c], FallbackWalked(cols, c, mib, values, lim), rows[i].index, mib, values, lim)
  }

  /** The join of walks that hold the agent's subtrees has the agent's rows. */
  lemma {:induction false} JoinRowsOfAgent(cols: seq<Column>, runs: seq<ColumnRun>, width: nat, rows: seq<Row>,
                                           index: Text,
                                           mib: seq<Text>, values: Text -> Ber, lim: Limits)
    requires |runs| == |cols| && rows == Join(cols, runs, width) && SortedMib(mib)
    requires forall c :: 0 <= c < |cols| ==> ColumnHolds(cols[c], runs[c], mib, values, lim)
    requires forall c :: 0 <= c < |cols| ==> WalkedAlike(cols, runs, c, mib, values, lim)
    ensures RowsOfAgent(cols, rows, index, mib, values, lim)
  {
    hide FallbackWalked, SortedMib, Join, JoinCell, AgentCell, RunSuffixes, ColumnHolds, HasObject;
    JoinIndices(cols, runs, width, index);
    forall c | 0 <= c < |cols|
      ensures DeliveredBy(cols, runs, c, index) <==>
                HasObject(cols[c], FallbackWalked(cols, c, mib, values, lim), index, mib)
    {
      assert WalkedAlike(cols, runs, c, mib, values, lim);
      CellOfAgent(cols[c], runs[c], index, mib, values, lim);
      ObjectIs(cols[c], runs[c].fallback.Some?, index, mib);
    }
    hide DeliveredBy;
  }

  /** And the agent's cells. */
  lemma {:induction false} JoinCellsOfAgent(cols: seq<Column>, runs: seq<ColumnRun>, width: nat, rows: seq<Row>,
                                            mib: seq<Text>, values: Text -> Ber, lim: Limits)
    requires |runs| == |cols| <= width && rows == Join(cols, runs, width) && SortedMib(mib)
    requires forall c :: 0 <= c < |cols| ==> ColumnHolds(cols[c], runs[c], mib, values, lim)
    requires forall c :: 0 <= c < |cols| ==> WalkedAlike(cols, runs, c, mib, values, lim)
    ensures CellsOfAgent(cols, rows, mib, values, lim)
  {
    hide FallbackWalked, SortedMib, JoinCell, AgentCell, RunSuffixes, ColumnHolds, Indices;
    forall i, c | 0 <= i < |rows| && 0 <= c < |cols|
      ensures c < |rows[i].cells|
      ensures rows[i].cells[c] ==
                AgentCell(cols[c], FallbackWalked(cols, c, mib, values, lim), rows[i].index, mib, values, lim)
    {
      assert WalkedAlike(cols, runs, c, mib, values, lim);
      CellOfAgent(cols[c], runs[c], rows[i].index, mib, values, lim);
    }
  }

  // ----- the table of a run -----

  /** The walks that the log shows for walk k from position n on make a finished table, and all of them succeeded. */
  ghost predicate Made(log: seq<Completion>, n: nat, k: nat, cols: seq<Column>, width: nat, runs: seq<ColumnRun>) {
    && n <= |log| && 0 < |cols| <= width
    && Driven(cols, width, Own(log[n..], k))
    && Replayed(cols, width, Own(log[n..], k)) == Over(runs)
    && forall i :: 0 <= i < |Own(log[n..], k)| ==> Own(log[n..], k)[i].state.status == Success
  }

  /** Every walk that such a table was built from ended with Success and is in the log. */
  ghost predicate Succeeded(cols: seq<Column>, runs: seq<ColumnRun>, log: seq<Completion>, k: nat) {
    && |runs| == |cols| && ColumnsLogged(cols, runs, |runs|, log, k)
    && forall c :: 0 <= c < |cols| ==>
         && runs[c].primaryOutcome == Success && runs[c].outcome == Success
         && (runs[c].fallback.Some? ==> cols[c].fallback != [])
  }

  lemma {:induction false} LoggedOutcome(own: seq<Completion>, k: nat, root: Text, got: seq<Cell>, outcome: Status)
    requires WalkLogged(own, k, root, got, outcome)
    requires forall i :: 0 <= i < |own| ==> own[i].state.status == Success
    ensures outcome == Success
  {}

  lemma {:induction false} MadeSucceeds(log: seq<Completion>, n: nat, k: nat, cols: seq<Column>, width: nat,
                                        runs: seq<ColumnRun>)
    requires Made(log, n, k, cols, width, runs)
    ensures Done(cols, width, runs, log, k) && Succeeded(cols, runs, log, k)
  {
    hide Replayed, Driven, Own, WalkLogged, Table.FallbackRule, Join, Underway;
    var own := Own(log[n..], k);
    forall i | 0 <= i < |own|
      ensures own[i] in log && own[i].op == k
    {
      OwnIsLogged(log[n..], k, i);
    }
    ReplaySound(cols, width, own, log, k);
    ReplaySound(cols, width, own, own, k);
    assert Done(cols, width, runs, own, k) && Done(cols, width, runs, log, k);
    forall c | 0 <= c < |cols|
      ensures runs[c].primaryOutcome == Success && runs[c].outcome == Success
    {
      var col, run := cols[c], runs[c];
      assert ColumnLogged(col, run, own, k);
      LoggedOutcome(own, k, col.oid, run.primary, run.primaryOutcome);
      if run.fallback.Some? {
        LoggedOutcome(own, k, col.fallback, run.fallback.value, run.outcome);
      }
    }
    FallbacksConfigured(cols, width, runs, own, k);
  }

  lemma {:induction false} FallbacksConfigured(cols: seq<Column>, width: nat, runs: seq<ColumnRun>,
                                               log: seq<Completion>, k: nat)
    requires Done(cols, width, runs, log, k)
    ensures forall c :: 0 <= c < |cols| && runs[c].fallback.Some? ==> cols[c].fallback != []
  {
    hide Join, ColumnsLogged;
    forall c | 0 <= c < |cols| && runs[c].fallback.Some?
      ensures cols[c].fallback != []
    {
      assert Table.FallbackRule(cols, runs, width, c);
    }
  }

  /** The table that the log shows is the agent's. */
  lemma {:induction false} TableOfLog(w: World, es: seq<Event>, n: nat, k: nat, agent: Agent, values: Text -> Ber,
                                      cols: seq<Column>, width: nat, runs: seq<ColumnRun>, index: Text, lim: Limits)
    requires Initial(w, lim) && ParsedEvents(es, lim) && SortedMib(agent.mib)
    requires k < |w.ops| && w.ops[k].walking && HonestRun(w, es, k, agent, lim)
    requires forall name, v :: agent.says(name, v) ==> v == values(name)
    requires KeptColumns(cols, lim) && Made(Run(w, es, lim).completions, n, k, cols, width, runs)
    ensures |runs| == |cols|
    ensures var rows := Join(cols, runs, width);
            && RowsOfAgent(cols, rows, index, agent.mib, values, lim)
            && CellsOfAgent(cols, rows, agent.mib, values, lim)
            && (TableStatus(cols, runs, rows) == Success <==> Table.CellsOk(rows, |cols|))
  {
    hide Initial, ParsedEvents, SortedMib, HonestRun, Run, Canonical, Done, ColumnLogged, ColumnHolds, Join,
      RowsOfAgent, CellsOfAgent, WalkedAlike, Table.RulesUpTo, Made;
    var log := Run(w, es, lim).completions;
    MadeSucceeds(log, n, k, cols, width, runs);
    MadeSizes(log, n, k, cols, width, runs);
    forall c | 0 <= c < |cols|
      ensures ColumnHolds(cols[c], runs[c], agent.mib, values, lim)
    {
      ColumnOfAgent(w, es, k, agent, values, cols[c], runs[c], lim);
    }
    DoneRules(cols, width, runs, log, k);
    FallbacksOfAgent(cols, runs, width, |cols|, agent.mib, values, lim);
    JoinRowsOfAgent(cols, runs, width, Join(cols, runs, width), index, agent.mib, values, lim);
    JoinCellsOfAgent(cols, runs, width, Join(cols, runs, width), agent.mib, values, lim);
  }

  /**
   * The table of an honest agent. In a run in which a table drives walk k, when the table is over and all of its walks
   * have succeeded, the rows are exactly the indices under which the agent has an object, each once; every cell is the
   * agent's object there; and the table is a Success exactly when no cell is unusable.
   */
  lemma {:induction false} TableOfAgent(t: Reader, w: World, before: seq<Event>, after: seq<Event>, agent: Agent,
                                        values: Text -> Ber, runs: seq<ColumnRun>, index: Text, lim: Limits)
    requires Initial(w, lim) && ParsedEvents(before, lim) && ParsedEvents(after, lim)
    requires TableRun(t, w, before, after, lim)
    requires t.k < |w.ops| && w.ops[t.k].walking && SortedMib(agent.mib)
    requires HonestRun(w, TableEvents(t, before, after), t.k, agent, lim)
    requires forall name, v :: agent.says(name, v) ==> v == values(name)
    requires Stage(t, Run(w, TableEvents(t, before, after), lim)) == Over(runs)
    requires AllSucceeded(t, Run(w, TableEvents(t, before, after), lim).completions)
    ensures |runs| == |t.cols|
    ensures var rows := Join(t.cols, runs, t.width);
            && RowsOfAgent(t.cols, rows, index, agent.mib, values, lim)
            && CellsOfAgent(t.cols, rows, agent.mib, values, lim)
            && (TableStatus(t.cols, runs, rows) == Success <==> Table.CellsOk(rows, |t.cols|))
  {
    hide Initial, ParsedEvent, SortedMib, HonestRun, Run, Canonical, KeptColumns, Join, RowsOfAgent, CellsOfAgent,
      Replayed, Own,
      Driven, Conducted, TableStatus;
    var es := TableEvents(t, before, after);
    EventsParsed(t, before, after, lim);
    TableDrives(t, w, before, after, lim);
    assert Made(Run(w, es, lim).completions, t.from, t.k, t.cols, t.width, runs);
    TableOfLog(w, es, t.from, t.k, agent, values, t.cols, t.width, runs, index, lim);
  }

  lemma {:induction false} DoneRules(cols: seq<Column>, width: nat, runs: seq<ColumnRun>, log: seq<Completion>, k: nat)
    requires Done(cols, width, runs, log, k)
    ensures |runs| == |cols| && Table.RulesUpTo(cols, runs, width, |runs|)
  {
    hide Join, ColumnsLogged;
  }

  /** Every walk that the table has made ended with Success. */
  ghost predicate AllSucceeded(t: Reader, log: seq<Completion>) {
    t.from <= |log| &&
    forall i :: 0 <= i < |Own(log[t.from..], t.k)| ==> Own(log[t.from..], t.k)[i].state.status == Success
  }

  lemma {:induction false} EventsParsed(t: Reader, before: seq<Event>, after: seq<Event>, lim: Limits)
    requires t.cols != [] && ParsedEvents(before, lim) && ParsedEvents(after, lim)
    ensures ParsedEvents(TableEvents(t, before, after), lim)
  {
    hide Parsed;
    var es := TableEvents(t, before, after);
    forall i | 0 <= i < |es|
      ensures ParsedEvent(es[i], lim)
    {
      if i < |before| {
        assert es[i] == before[i];
      } else if i > |before| {
        assert es[i] == after[i - |before| - 1];
      }
    }
  }

  lemma {:induction false} MadeSizes(log: seq<Completion>, n: nat, k: nat, cols: seq<Column>, width: nat,
                                     runs: seq<ColumnRun>)
    requires Made(log, n, k, cols, width, runs)
    ensures |cols| <= width
  {}

  /** The agent has an object of this index in the column, or in its fallback if that was walked. */
  ghost predicate HasObject(col: Column, walked: bool, index: Text, mib: seq<Text>) {
    Instance(col.oid, index) in mib || (walked && Instance(col.fallback, index) in mib)
  }

  lemma {:induction false} ObjectIs(col: Column, walked: bool, index: Text, mib: seq<Text>)
    ensures HasObject(col, walked, index, mib) <==>
              Instance(col.oid, index) in mib || (walked && Instance(col.fallback, index) in mib)
  {}

  lemma {:induction false} ColumnOfAgent(w: World, es: seq<Event>, k: nat, agent: Agent, values: Text -> Ber,
                                         col: Column, run: ColumnRun, lim: Limits)
    requires Initial(w, lim) && ParsedEvents(es, lim) && SortedMib(agent.mib)
    requires k < |w.ops| && w.ops[k].walking && HonestRun(w, es, k, agent, lim)
    requires forall name, v :: agent.says(name, v) ==> v == values(name)
    requires ColumnLogged(col, run, Run(w, es, lim).completions, k)
    requires run.primaryOutcome == Success && run.outcome == Success
    requires Canonical(col.oid) && (run.fallback.Some? ==> Canonical(col.fallback))
    ensures ColumnHolds(col, run, agent.mib, values, lim)
  {
    hide Initial, ParsedEvents, SortedMib, HonestRun, Run, Canonical, Holds, WalkLogged;
    LoggedHolds(w, es, k, col.oid, run.primary, agent, values, lim);
    if run.fallback.Some? {
      LoggedHolds(w, es, k, col.fallback, run.fallback.value, agent, values, lim);
    }
  }
}

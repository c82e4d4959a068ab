/** SNMPOperation as an object: fields updated in place, each method proved against its specification function. */
module Operation {
  import opened Bytes
  import opened Oids
  import opened Trees
  import opened Messages
  import opened Values
  import opened Operations
  import opened OperationLaws

  class SNMPOperation {
    const dev: Device
    const walking: bool
    const capacity: nat
    const streaming: bool
    var mode: byte
    var cells: seq<Cell>
    var root: Text
    var cursor: Text
    var status: Status
    var completed: bool
    var offset: nat
    var batch: nat
    var batchLimit: nat
    var id: nat
    var agentError: int
    var agentErrorIndex: int
    var attempts: nat
    var sent: bool
    var sentAt: uint32
    var startedAt: uint32
    ghost var state: Op

    /** The fields agree with the abstract state. */
    ghost predicate Valid()
      reads this
    {
      state == Op(dev, walking, mode, cells, capacity, root, cursor, streaming, status, completed, offset, batch,
                  batchLimit, id, agentError, agentErrorIndex, attempts, sent, sentAt, startedAt,
                  state.ids, state.sends, state.delivered, state.taken, state.showing, state.replies, state.settled,
                  state.run, state.first, state.answered)
    }

    predicate Pending()
      reads this`status
    {
      status == Status.Pending
    }

    constructor (device: Device, walk: bool, slots: nat, stream: bool, kind: byte)
      ensures Valid() && dev == device && walking == walk && capacity == slots && streaming == stream && mode == kind
      ensures cells == [] && root == [] && status == NotStarted && id == 0 && !state.settled && state.sends == 0
      ensures state.ids == 0
    {
      dev, walking, capacity, streaming, mode := device, walk, slots, stream, kind;
      cells, root, cursor, status, completed := [], [], [], NotStarted, false;
      offset, batch, batchLimit, id, agentError, agentErrorIndex := 0, 0, 0, 0, 0, 0;
      attempts, sent, sentAt, startedAt := 0, false, 0, 0;
      state := Op(device, walk, kind, [], slots, [], [], stream, NotStarted, false, 0, 0, 0, 0, 0, 0, 0, false, 0, 0,
                  0, 0, [], [], None, [], false, 0, 0, false);
    }

    // ----- configuration -----

    /** The scan for a name that is already configured. */
    method Configured(name: Text) returns (found: bool)
      ensures found == exists i :: 0 <= i < |cells| && cells[i].oid == name
    {
      var i := 0;
      while i < |cells|
        invariant 0 <= i <= |cells|
        invariant forall j :: 0 <= j < i ==> cells[j].oid != name
      {
        if cells[i].oid == name {
          return true;
        }
        i := i + 1;
      }
      return false;
    }

    /** add: nothing is committed unless everything is valid. */
    method Add(oid: Text, expected: byte, value: Option<Value>, lim: Limits) returns (s: Status)
      requires Valid()
      modifies this`cells, this`state
      ensures Valid() && (s, state) == Operations.Add(old(state), oid, expected, value, lim)
    {
      hide EncodeText, DecodeText, CheckValue;
      if Pending() {
        return Busy;
      }
      if |cells| == capacity {
        return CapacityExceeded;
      }
      var wire := EncodeText(oid, lim);
      var parsed := if wire.None? then None else DecodeText(wire.value, lim);
      if parsed.None? {
        return InvalidOID;
      }
      var found := Configured(parsed.value);
      if found {
        return InvalidOID;
      }
      if value.Some? {
        s := CheckValue(value.value, dev.version, lim);
        if s != Success {
          return;
        }
      }
      var v := if value.Some? then value.value else EMPTY;
      cells := cells + [Cell(parsed.value, v, NotStarted, expected)];
      state := state.(cells := cells, settled := false);
      s := Success;
    }

    /** The results come back, except that the first slot still holds the checked root. */
    method Restore(accepted: bool, results: seq<Cell>, ghost before: Op)
      requires Valid() && state == before.(cells := cells, settled := state.settled) && results == before.cells
      requires accepted ==> |cells| == 1
      modifies this`cells, this`root, this`state
      ensures Valid()
      ensures state == if accepted then
                         before.(root := old(cells)[0].oid, settled := false,
                                 cells := if results == [] then [] else results[0 := old(cells)[0]])
                       else before
    {
      if accepted {
        var first := cells[0];
        root := first.oid;
        cells := if results == [] then [] else results[0 := first];
        state := before.(root := root, cells := cells, settled := false);
      } else {
        cells := results;
        state := before;
      }
    }

    /** setRoot: `add` checks the root in the first result slot, which is not restored. */
    method SetRoot(text: Text, lim: Limits) returns (s: Status)
      requires Valid()
      modifies this`cells, this`root, this`state
      ensures Valid() && (s, state) == Operations.SetRoot(old(state), text, lim)
    {
      ghost var before := state;
      var results := cells;
      cells := [];
      state := state.(cells := []);
      hide Operations.Add, Operations.SetRoot, Valid;
      s := Add(text, NULLTYPE, None, lim);
      RootIs(before, text, lim, s, state);
      ValidCells();
      Restore(s == Success, results, before);
    }

    lemma {:induction false} ValidCells()
      requires Valid()
      ensures state.cells == cells && state.status == status && state.capacity == capacity
    {}

    /** addRange: consecutive instances of a column, all of them or none. */
    method AddRange(column: Text, first: uint32, count: nat, expected: byte, lim: Limits) returns (s: Status)
      requires Valid() && |cells| <= capacity
      modifies this`cells, this`state
      ensures Valid() && (s, state) == AddedRange(old(state), column, first, count, expected, lim)
    {
      hide Operations.Add, RangeName, Valid;
      ghost var before := state;
      ValidCells();
      if Pending() {
        return Busy;
      }
      if count > capacity - |cells| || (count > 0 && count - 1 > MAX32 - first) {
        return CapacityExceeded;
      }
      var original := cells;
      var i := 0;
      while i < count
        invariant 0 <= i <= count && Valid()
        invariant AddAll(before, column, first, i, expected, lim) == (Success, state)
        modifies this`cells, this`state
      {
        AddAllStops(before, column, first, i + 1, count, expected, lim);
        var name := RangeName(column, first + i);
        if |name| >= lim.oidText {
          s := InvalidOID;
        } else {
          s := Add(name, expected, None, lim);
        }
        if s != Success {
          Rollback(original, before);
          return;
        }
        i := i + 1;
      }
      s := Success;
    }

    /** A failed range leaves nothing behind. */
    method Rollback(original: seq<Cell>, ghost before: Op)
      requires Valid() && before.cells == original && state == before.(cells := state.cells, settled := state.settled)
      modifies this`cells, this`state
      ensures Valid() && state == before
    {
      cells := original;
      state := before;
    }

    // ----- scheduling and completion -----

    /** The part of the reset that concerns the request in flight. */
    method ResetProgress(names: nat)
      modifies this`startedAt, this`agentError, this`agentErrorIndex, this`completed, this`offset, this`sent,
               this`batchLimit,
               this`attempts, this`id
      ensures startedAt == 0 && agentError == 0 && agentErrorIndex == 0 && !completed && offset == 0 && !sent
      ensures batchLimit == names && attempts == 0 && id == 0
    {
      startedAt, agentError, agentErrorIndex, completed, offset, sent := 0, 0, 0, false, 0, false;
      batchLimit, attempts, id := names, 0, 0;
    }

    /** Every result of the run becomes pending; only a SET keeps its values. */
    method ResetResults()
      modifies this`cells
      ensures cells == ResetCells(old(cells), mode)
    {
      ghost var configured := cells;
      var results := cells;
      var i := 0;
      while i < |results|
        invariant 0 <= i <= |results| == |configured|
        invariant forall j :: 0 <= j < i ==> results[j] == ResetCell(configured[j], mode)
        invariant forall j :: i <= j < |results| ==> results[j] == configured[j]
      {
        var cell := results[i].(status := Status.Pending);
        if mode != SET {
          cell := cell.(value := EMPTY);
        }
        results := results[i := cell];
        i := i + 1;
      }
      cells := results;
      assert cells == ResetCells(configured, mode);
    }

    /** A walk starts over: nothing collected, the cursor at the root, bulk requests where the version has them. */
    method ResetWalk()
      modifies this`cells, this`cursor, this`mode
      ensures cells == if walking then [] else old(cells)
      ensures cursor == if walking then root else old(cursor)
      ensures mode == if !walking then old(mode) else if dev.version == 0 then GETNEXT else GETBULK
    {
      if walking {
        cells := [];
        cursor := root;
        mode := if dev.version == 0 then GETNEXT else GETBULK;
      }
    }

    /** The walk, the request in flight and the results, in the order of the source. */
    method ResetFields()
      modifies this`cells, this`cursor, this`mode, this`startedAt, this`agentError, this`agentErrorIndex,
               this`completed,
               this`offset, this`sent, this`batchLimit, this`attempts, this`id, this`status
      ensures cursor == (if walking then root else old(cursor)) && status == Status.Pending
      ensures mode == if !walking then old(mode) else if dev.version == 0 then GETNEXT else GETBULK
      ensures cells == ResetCells(if walking then [] else old(cells), mode)
      ensures startedAt == 0 && agentError == 0 && agentErrorIndex == 0 && !completed && offset == 0 && !sent
      ensures batchLimit == |cells| && attempts == 0 && id == 0
    {
      hide ResetCells;
      ResetWalk();
      ResetProgress(|cells|);
      ResetResults();
      status := Status.Pending;
    }

    /** The reset that an accepted start performs. */
    method Reset()
      requires Valid()
      modifies this
      ensures Valid() && state == Scheduled(old(state))
    {
      hide Scheduled, ResetCells;
      ghost var before := state;
      ResetFields();
      ScheduledIs(before, if walking then [] else before.cells, mode);
      state := Scheduled(before);
    }

    /** Pending cells inherit the terminal status. */
    method SettleResults(outcome: Status)
      modifies this`cells
      ensures cells == SettleAll(old(cells), outcome)
    {
      ghost var before := cells;
      var results := cells;
      var i := 0;
      while i < |results|
        invariant 0 <= i <= |results| == |before|
        invariant forall j :: 0 <= j < i ==> results[j] == Operations.Settle(before[j], outcome)
        invariant forall j :: i <= j < |results| ==> results[j] == before[j]
      {
        if results[i].status == Status.Pending {
          results := results[i := results[i].(status := outcome)];
        }
        i := i + 1;
      }
      cells := results;
      assert cells == SettleAll(before, outcome);
    }

    /** The end of a run, before the slot is freed and the handler called. */
    method Settle(outcome: Status)
      requires Valid()
      modifies this`cells, this`status, this`completed, this`state
      ensures Valid() && state == Finished(old(state), outcome)
    {
      hide SettleAll;
      SettleResults(outcome);
      status, completed := outcome, true;
      state := Finished(state, outcome);
    }

    // ----- replies -----

    /** A matched reply is noted before anything else is decided. */
    method Note(m: Message)
      requires Valid()
      modifies this`agentError, this`agentErrorIndex, this`state
      ensures Valid() && state == Noted(old(state), m)
    {
      agentError, agentErrorIndex := m.errorStatus, m.errorIndex;
      state := Noted(state, m);
    }

    /** Ask again with a new request: with the same terms, a shorter batch, or without bulk. */
    method AskAgain(kind: byte, limit: nat)
      requires Valid()
      modifies this`mode, this`batchLimit, this`sent, this`attempts, this`state
      ensures Valid() && state == Again(old(state).(mode := kind, batchLimit := limit))
    {
      mode, batchLimit := kind, limit;
      sent, attempts := false, 0;
      state := Again(state.(mode := kind, batchLimit := limit));
    }

    /** The completeness check: the requested names, all of them, in order, and nothing else. */
    method Answers(m: Message) returns (ok: bool)
      requires Valid() && offset + batch <= |cells|
      ensures ok == Complete(state, m)
    {
      var i := 0;
      while i < batch
        invariant 0 <= i <= batch && i <= |m.bindings|
        invariant forall j :: 0 <= j < i ==> m.bindings[j].name == cells[offset + j].oid
      {
        if i == |m.bindings| || m.bindings[i].name != cells[offset + i].oid {
          return false;
        }
        i := i + 1;
      }
      return i == |m.bindings|;
    }

    /** Copy a complete reply over the batch. */
    method Copy(bs: seq<Binding>, lim: Limits) returns (results: seq<Cell>)
      requires offset + batch <= |cells| && |bs| == batch
      ensures results == StoredCells(cells, offset, batch, bs, lim)
    {
      hide CommitCell, CommitCells;
      results := cells;
      var i := 0;
      while i < batch
        invariant 0 <= i <= batch && |results| == |cells|
        invariant forall j :: 0 <= j < i ==> results[offset + j] == CommitCell(cells[offset + j], bs[j], lim)
        invariant forall j :: 0 <= j < |cells| && !(offset <= j < offset + i) ==> results[j] == cells[j]
      {
        results := results[offset + i := CommitCell(results[offset + i], bs[i], lim)];
        i := i + 1;
      }
      StoredIs(cells, results, offset, batch, bs, lim);
    }

    /** Results up to `next` are settled. */
    method Store(results: seq<Cell>, next: nat)
      requires Valid()
      modifies this`cells, this`offset, this`state
      ensures Valid() && state == old(state).(cells := results, offset := next)
    {
      cells, offset := results, next;
      state := state.(cells := results, offset := next);
    }

    /** The verdict over all results. */
    method Judge() returns (s: Status)
      requires cells != []
      ensures s == Verdict(cells)
    {
      s := Success;
      var i := 0;
      while i < |cells|
        invariant 0 <= i <= |cells|
        invariant s == if AllOk(cells[..i]) then Success else if |cells| == 1 then cells[0].status else Partial
      {
        AllOkSnoc(cells, i);
        if !cells[i].Ok() {
          s := if |cells| == 1 then cells[i].status else Partial;
        }
        i := i + 1;
      }
      assert cells[..|cells|] == cells;
    }

    // ----- walks -----

    /** A value is handed to the streaming callback. */
    ghost method Show(cell: Cell)
      requires Valid()
      modifies this`state
      ensures Valid() && state == Shown(old(state), cell)
    {
      state := Shown(state, cell);
    }

    method Advance(cell: Cell)
      requires Valid()
      modifies this`cursor, this`state
      ensures Valid() && state == Advanced(old(state), cell)
    {
      cursor := cell.oid;
      state := Advanced(state, cell);
    }

    method Collect(cell: Cell)
      requires Valid()
      modifies this`cells, this`cursor, this`state
      ensures Valid() && state == Collected(old(state), cell)
    {
      cells := cells + [cell];
      cursor := cell.oid;
      state := Collected(state, cell);
    }

    // ----- sending -----

    /** The first transmission of a walk or read fixes its start; `t` is the true time behind `now`. */
    method Stamp(now: uint32, ghost t: nat)
      requires Valid()
      modifies this`startedAt, this`state
      ensures Valid() && state == old(state).(startedAt := now, first := t)
    {
      startedAt := now;
      state := state.(startedAt := now, first := t);
    }

    method CountAttempt()
      requires Valid()
      modifies this`attempts, this`state
      ensures Valid() && state == old(state).(attempts := old(state).attempts + 1)
    {
      attempts := attempts + 1;
      state := state.(attempts := attempts);
    }

    method SetBatch(n: nat)
      requires Valid()
      modifies this`batch, this`state
      ensures Valid() && state == old(state).(batch := n)
    {
      batch := n;
      state := state.(batch := n);
    }

    /** The request gets a new ID unless it is a repetition. */
    method Identify(nextId: nat)
      requires Valid()
      modifies this`id, this`state
      ensures Valid()
      ensures state == Identified(old(state), nextId)
    {
      state := state.(sends := state.sends + 1, answered := false);
      if !sent {
        id := nextId + 1;
        state := state.(id := id, ids := state.ids + 1);
      }
    }

    method MarkSent(now: uint32)
      requires Valid()
      modifies this`sent, this`sentAt, this`state
      ensures Valid() && state == Transmitted(old(state), now)
    {
      sent, sentAt := true, now;
      state := Transmitted(state, now);
    }
  }

  /** The results with one batch committed. */
  function StoredCells(cells: seq<Cell>, offset: nat, batch: nat, bs: seq<Binding>, lim: Limits): seq<Cell>
    requires offset + batch <= |cells| && |bs| == batch
  {
    cells[..offset] + CommitCells(cells[offset..offset + batch], bs, lim) + cells[offset + batch..]
  }

  lemma {:induction false} StoredIs(before: seq<Cell>, after: seq<Cell>, offset: nat, batch: nat, bs: seq<Binding>,
                                    lim: Limits)
    requires offset + batch <= |before| == |after| && |bs| == batch
    requires forall j :: 0 <= j < batch ==> after[offset + j] == CommitCell(before[offset + j], bs[j], lim)
    requires forall j :: 0 <= j < |before| && !(offset <= j < offset + batch) ==> after[j] == before[j]
    ensures after == StoredCells(before, offset, batch, bs, lim)
  {
    hide CommitCell;
    var want := before[..offset] + CommitCells(before[offset..offset + batch], bs, lim) + before[offset + batch..];
    forall j | 0 <= j < |after|
      ensures after[j] == want[j]
    {
      if offset <= j < offset + batch {
        assert after[offset + (j - offset)] == CommitCell(before[offset + (j - offset)], bs[j - offset], lim);
      }
    }
  }

  /** The bookkeeping of a transmission: a new ID unless the request is repeated. */
  function Identified(op: Op, nextId: nat): Op {
    var counted := op.(sends := op.sends + 1, answered := false);
    if op.sent then counted else counted.(id := nextId + 1, ids := op.ids + 1)
  }

  lemma {:induction false} AllOkSnoc(cells: seq<Cell>, i: nat)
    requires i < |cells|
    ensures AllOk(cells[..i + 1]) == (AllOk(cells[..i]) && cells[i].Ok())
  {
    assert forall j :: 0 <= j < i ==> cells[..i][j] == cells[j];
    assert forall j :: 0 <= j <= i ==> cells[..i + 1][j] == cells[j];
  }

  lemma {:induction false} ScheduledIs(op: Op, cells: seq<Cell>, mode: byte)
    requires cells == if op.walking then [] else op.cells
    requires mode == if !op.walking then op.mode else if op.dev.version == 0 then GETNEXT else GETBULK
    ensures Scheduled(op) ==
            Op(op.dev, op.walking, mode, ResetCells(cells, mode), op.capacity, op.root,
               if op.walking then op.root else op.cursor, op.streaming, Status.Pending, false, 0, op.batch, |cells|,
               0, 0, 0, 0, false, op.sentAt, 0, 0, 0, [], [], None, [], false, op.run + 1, op.first, false)
  {
    hide ResetCells;
  }

  /** The instance of a column with one more index. */
  function RangeName(column: Text, index: nat): Text { column + [DOT] + Decimal(index) }

  /** Additions up to and including the first one that fails. */
  function AddAll(op: Op, column: Text, first: nat, n: nat, expected: byte, lim: Limits): (Status, Op) {
    if n == 0 then (Success, op)
    else
      var (s, o) := AddAll(op, column, first, n - 1, expected, lim);
      if s != Success then (s, o)
      else if |RangeName(column, first + n - 1)| >= lim.oidText then (InvalidOID, o)
      else Operations.Add(o, RangeName(column, first + n - 1), expected, None, lim)
  }

  /** What addRange does: everything, or an error and nothing. */
  function AddedRange(op: Op, column: Text, first: nat, count: nat, expected: byte, lim: Limits): (Status, Op) {
    if op.Pending() then (Busy, op)
    else if count > op.capacity - |op.cells| || (count > 0 && count - 1 > MAX32 - first) then (CapacityExceeded, op)
    else
      var (s, o) := AddAll(op, column, first, count, expected, lim);
      (s, if s == Success then o else op)
  }

  lemma {:induction false} AddAllStops(op: Op, column: Text, first: nat, n: nat, m: nat, expected: byte, lim: Limits)
    requires n <= m
    ensures AddAll(op, column, first, n, expected, lim).0 != Success ==>
              AddAll(op, column, first, m, expected, lim) == AddAll(op, column, first, n, expected, lim)
    ensures var o := AddAll(op, column, first, n, expected, lim).1;
            o == op.(cells := o.cells, settled := o.settled)
    decreases m
  {
    hide Operations.Add, RangeName;
    if n < m {
      AddAllStops(op, column, first, n, m - 1, expected, lim);
    } else if n > 0 {
      AddAllStops(op, column, first, n - 1, m - 1, expected, lim);
      AddFrame(AddAll(op, column, first, n - 1, expected, lim).1, RangeName(column, first + n - 1), expected, None,
               lim);
    }
  }

  /**
   * An accepted range appends exactly the instances a.first, a.first + 1, and so on of the arcs a that the column text
   * spells, in order and in canonical text.
   */
  lemma {:induction false} RangeAppends(op: Op, column: Text, first: nat, count: nat, expected: byte, lim: Limits)
    requires count > 0 ==> first + count - 1 <= MAX32
    requires AddAll(op, column, first, count, expected, lim).0 == Success
    ensures var cells := AddAll(op, column, first, count, expected, lim).1.cells;
            && |cells| == |op.cells| + count && cells[..|op.cells|] == op.cells
            && forall j :: |op.cells| <= j < |cells| ==>
                 cells[j] == Cell(Print(ArcsOf(column) + [first + j - |op.cells|]), EMPTY, NotStarted, expected)
    decreases count
  {
    hide Operations.Add, Canonical, RangeName, Print, ArcsOf;
    if count > 0 {
      RangeAppends(op, column, first, count - 1, expected, lim);
      var o := AddAll(op, column, first, count - 1, expected, lim).1;
      InstanceAdded(o, column, first + count - 1, expected, lim);
      var r := Operations.Add(o, RangeName(column, first + count - 1), expected, None, lim).1;
      assert r.cells == AddAll(op, column, first, count, expected, lim).1.cells;
      assert r.cells[..|op.cells|] == o.cells[..|op.cells|];
      assert |o.cells| - |op.cells| == count - 1;
    }
  }

  lemma {:induction false} InstanceAdded(op: Op, column: Text, index: nat, expected: byte, lim: Limits)
    requires index <= MAX32
    requires Operations.Add(op, RangeName(column, index), expected, None, lim).0 == Success
    ensures Operations.Add(op, RangeName(column, index), expected, None, lim).1.cells ==
            op.cells + [Cell(Print(ArcsOf(column) + [index]), EMPTY, NotStarted, expected)]
  {
    var name := RangeName(column, index);
    assert name == column + ([DOT] + Decimal(index));
    ParseInstance(column, index);
    assert Parse(name).Some? ==> Parse(name).value == ArcsOf(column) + [index];
    hide Parse, ArcsOf, Print, RangeName;
    AddedName(op, name, expected, lim);
  }

  lemma {:induction false} AddedName(op: Op, oid: Text, expected: byte, lim: Limits)
    requires Operations.Add(op, oid, expected, None, lim).0 == Success
    ensures Parse(oid).Some?
    ensures Operations.Add(op, oid, expected, None, lim).1.cells ==
            op.cells + [Cell(Print(Parse(oid).value), EMPTY, NotStarted, expected)]
  {
    TextRoundTrip(oid, lim);
    hide DecodeText, Print, Parse, Canonical, ArcsOf;
  }

  /** What setRoot makes of the addition to the emptied results. */
  lemma {:induction false} RootIs(op: Op, text: Text, lim: Limits, s: Status, added: Op)
    requires (s, added) == Operations.Add(op.(cells := []), text, NULLTYPE, None, lim)
    ensures added == op.(cells := added.cells, settled := added.settled)
    ensures s == Success ==> |added.cells| == 1
    ensures Operations.SetRoot(op, text, lim) ==
            (s, if s == Success then
                  op.(root := added.cells[0].oid, cells := if op.cells == [] then [] else op.cells[0 := added.cells[0]],
                      settled := false)
                else op)
  {
    AddFrame(op.(cells := []), text, NULLTYPE, None, lim);
    AddAppends(op.(cells := []), text, NULLTYPE, None, lim);
    hide Operations.Add;
  }

  lemma {:induction false} AddAppends(op: Op, oid: Text, expected: byte, value: Option<Value>, lim: Limits)
    ensures Operations.Add(op, oid, expected, value, lim).0 == Success ==>
              |Operations.Add(op, oid, expected, value, lim).1.cells| == |op.cells| + 1
  {}
}

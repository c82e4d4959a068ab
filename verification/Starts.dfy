/** Exactly what starting, cancelling, adding a range and an unexpected packet do. */
module Starts {
  import opened Bytes
  import opened Oids
  import opened Trees
  import opened Values
  import opened Operations
  import opened Framing
  import opened Acceptance
  import opened Engine
  import opened EngineLaws
  import opened StepLaws
  import opened Correlation
  import opened Outcomes
  import Operation

  // ----- start and cancel -----

  /** A device with a port and a timeout that the wrapping clock can tell, and something to ask for. */
  ghost predicate Askable(op: Op) {
    && op.dev.status == Success && op.dev.port != 0 && 1 <= op.dev.timeoutMs <= 0x7FFF_FFFF
    && if op.walking then op.root != [] else op.cells != []
  }

  /** The reset of a start: a SET keeps its values, a walk loses its results and asks in bulk under SNMPv2. */
  ghost predicate Restarted(op: Op, next: Op) {
    && next == op.(status := Status.Pending, mode := next.mode, cells := next.cells, cursor := next.cursor,
                   batchLimit := |next.cells|, startedAt := 0, agentError := 0, agentErrorIndex := 0,
                   completed := false, offset := 0, sent := false, attempts := 0, id := 0,
                   ids := 0, sends := 0, delivered := [], taken := [], showing := None, replies := [],
                   settled := false, run := op.run + 1, answered := false)
    && (if op.walking then
          next.mode == (if op.dev.version == 0 then GETNEXT else GETBULK) && next.cells == [] && next.cursor == op.root
        else next.mode == op.mode && |next.cells| == |op.cells| && next.cursor == op.cursor)
    && forall i :: 0 <= i < |next.cells| ==>
         var c := op.cells[i];
         next.cells[i] ==
         Cell(c.oid, if op.mode == SET then c.value else Value(0x05, 0, []), Status.Pending, c.expected)
  }

  /**
   * A start succeeds exactly when the operation is idle and can be asked, the client has begun and a slot is free; the
   * first such slot is taken. Otherwise nothing changes, and the answer names the first thing that was wrong.
   */
  lemma {:induction false} StartExact(w: World, k: nat)
    requires k < |w.ops|
    ensures var op, (s, r) := w.ops[k], Schedule(w, k);
            if op.status == Status.Pending then s == Busy && r == w
            else if !w.begun then s == NotStarted && r == w
            else if op.dev.status != Success then s == op.dev.status && r == w
            else if !Askable(op) then s == InvalidConfiguration && r == w
            else if FREE !in w.slots then s == CapacityExceeded && r == w
            else
              && s == Success && Restarted(op, r.ops[k])
              && exists i :: 0 <= i < |w.slots| && w.slots[i] == FREE && FREE !in w.slots[..i]
                             && r == w.(slots := w.slots[i := k], ops := w.ops[k := r.ops[k]])
  {
    var i := FreeSlot(w.slots);
    FirstFree(w.slots);
    ScheduledIs(w.ops[k]);
    hide Scheduled, FreeSlot, Restarted;
    if i < |w.slots| {
      assert w.slots[i] == FREE;
    }
  }

  lemma {:induction false} FirstFree(slots: seq<int>)
    ensures FREE !in slots[..FreeSlot(slots)]
  {
    if slots != [] && slots[0] != FREE {
      FirstFree(slots[1..]);
      var n := FreeSlot(slots[1..]);
      assert slots[..n + 1] == [slots[0]] + slots[1..][..n];
    }
  }

  lemma {:induction false} ScheduledIs(op: Op)
    ensures Restarted(op, Scheduled(op))
  {}

  /** Cancelling ends a pending operation as Cancelled and leaves any other alone. */
  lemma {:induction false} CancelExact(w: World, k: nat, done: seq<Act>, lim: Limits)
    ensures var r := RunAct(w, Cancel(k, done), lim);
            if k < |w.ops| && w.ops[k].status == Status.Pending then EndsAs(w, r, k, w.ops[k], Cancelled) else r == w
  {
    hide FinishOp, EndsAs;
    if k < |w.ops| && w.ops[k].Pending() {
      FinishEnds(w, k, w.ops[k], Cancelled, done, lim);
    }
  }

  /** A packet that answers no request in flight changes nothing. */
  lemma {:induction false} UnaddressedIgnored(w: World, p: Packet, env: ReplyEnv, lim: Limits)
    requires Inv(w, lim) && forall k :: 0 <= k < |w.ops| ==> !Addressed(w.ops[k], p)
    ensures Receive(w, p, env, lim) == w
  {
    hide Inv, Receive;
    forall k | 0 <= k < |w.ops| && Expects(w.ops[k])
      ensures !Matches(w.ops[k], p.m, p.peer, p.port)
    {
      assert !Addressed(w.ops[k], p);
    }
    UnexpectedIgnored(w, p, env, lim);
  }

  // ----- ranges -----

  ghost function InstanceText(column: Text, index: nat): Text { column + [46] + Decimal(index) }
  ghost function InstanceName(column: Text, index: nat): Text { Print(ArcsOf(column) + [index]) }

  /** The instance has a name, and the operation does not have it yet. */
  ghost predicate FreeInstance(op: Op, column: Text, index: nat, lim: Limits) {
    && Keeps(InstanceText(column, index), InstanceName(column, index), lim)
    && forall i :: 0 <= i < |op.cells| ==> op.cells[i].oid != InstanceName(column, index)
  }

  /** The text of an instance spells the column's arcs and the index, or nothing. */
  lemma {:induction false} InstanceKept(column: Text, index: nat, name: Text, lim: Limits)
    requires index <= MAX32 && Keeps(InstanceText(column, index), name, lim)
    ensures name == InstanceName(column, index) && Narrow(ArcsOf(column) + [index])
    ensures |InstanceText(column, index)| < lim.oidText
  {
    var t := InstanceText(column, index);
    var arcs: Arcs :| SpellsArcs(t, arcs, lim) && name == Print(arcs);
    TextSpells(t, lim);
    assert t == column + ([DOT] + Decimal(index));
    ParseInstance(column, index);
    var ds :| Numerals(ds, arcs) && t == Joined(ds);
    JoinedParses(ds, arcs);
    hide Parse, Print, Numerals, Joined, Decimal, EncodeText;
  }

  lemma {:induction false} InstancesDiffer(column: Text, a: nat, b: nat)
    requires Narrow(ArcsOf(column) + [a]) && Narrow(ArcsOf(column) + [b]) && a != b
    ensures InstanceName(column, a) != InstanceName(column, b)
  {
    hide ArcsOf, Print;
    ParsePrint(ArcsOf(column) + [a]);
    ParsePrint(ArcsOf(column) + [b]);
    assert (ArcsOf(column) + [a])[|ArcsOf(column)|] == a;
    assert (ArcsOf(column) + [b])[|ArcsOf(column)|] == b;
  }

  ghost predicate AllFree(op: Op, column: Text, first: nat, n: nat, lim: Limits) {
    forall x: nat :: first <= x < first + n ==> FreeInstance(op, column, x, lim)
  }

  /** The operation with the first n instances of a range. */
  ghost predicate Extended(op: Op, o: Op, column: Text, first: nat, n: nat) {
    && o.status == op.status && o.capacity == op.capacity
    && |o.cells| == |op.cells| + n && o.cells[..|op.cells|] == op.cells
    && forall j :: |op.cells| <= j < |o.cells| ==> o.cells[j].oid == InstanceName(column, first + j - |op.cells|)
  }

  /** What is free and not one of the instances before it is free behind them, and the other way round. */
  lemma {:induction false} StillFree(op: Op, o: Op, column: Text, first: nat, n: nat, lim: Limits)
    requires first + n <= MAX32 && Extended(op, o, column, first, n) && AllFree(op, column, first, n, lim)
    ensures FreeInstance(op, column, first + n, lim) <==> FreeInstance(o, column, first + n, lim)
  {
    hide Keeps, InstanceName, InstanceText, Narrow;
    var name := InstanceName(column, first + n);
    if FreeInstance(op, column, first + n, lim) {
      InstanceKept(column, first + n, name, lim);
      forall j | 0 <= j < |o.cells|
        ensures o.cells[j].oid != name
      {
        if j < |op.cells| {
          assert o.cells[j] == op.cells[j];
        } else {
          var x := first + j - |op.cells|;
          assert FreeInstance(op, column, x, lim);
          InstanceKept(column, x, InstanceName(column, x), lim);
          InstancesDiffer(column, x, first + n);
        }
      }
    }
    assert forall j :: 0 <= j < |op.cells| ==> op.cells[j] == o.cells[j];
  }

  lemma {:induction false} InstanceExact(o: Op, column: Text, index: nat, expected: byte, lim: Limits)
    requires index <= MAX32 && o.status != Status.Pending && |o.cells| < o.capacity
    ensures Add(o, InstanceText(column, index), expected, None, lim).0 == Success <==>
            FreeInstance(o, column, index, lim)
  {
    var t, name := InstanceText(column, index), InstanceName(column, index);
    hide Add, Keeps, InstanceText, InstanceName, Settable, Narrow;
    AddExact(o, t, expected, None, lim);
    if FreeInstance(o, column, index, lim) {
      assert Addable(o, t, name, None, lim);
    }
    if Add(o, t, expected, None, lim).0 == Success {
      var x :| Addable(o, t, x, None, lim);
      InstanceKept(column, index, x, lim);
    }
  }

  lemma {:induction false} AllExact(op: Op, column: Text, first: nat, n: nat, expected: byte, lim: Limits)
    requires (n > 0 ==> first + n - 1 <= MAX32) && op.status != Status.Pending && |op.cells| + n <= op.capacity
    ensures Operation.AddAll(op, column, first, n, expected, lim).0 == Success <==> AllFree(op, column, first, n, lim)
  {
    hide *;
    if n == 0 {
      NoneAdded(op, column, first, expected, lim);
    } else {
      AllExact(op, column, first, n - 1, expected, lim);
      OneMore(op, column, first, n - 1, expected, lim);
      FreeSnoc(op, column, first, n - 1, lim);
    }
  }

  lemma {:induction false} NoneAdded(op: Op, column: Text, first: nat, expected: byte, lim: Limits)
    ensures Operation.AddAll(op, column, first, 0, expected, lim).0 == Success && AllFree(op, column, first, 0, lim)
  {
    hide FreeInstance, Add;
  }

  lemma {:induction false} FreeSnoc(op: Op, column: Text, first: nat, n: nat, lim: Limits)
    ensures AllFree(op, column, first, n + 1, lim) <==>
            AllFree(op, column, first, n, lim) && FreeInstance(op, column, first + n, lim)
  {
    hide FreeInstance;
    if AllFree(op, column, first, n + 1, lim) {
      assert FreeInstance(op, column, first + n, lim);
    }
  }

  /** The step of the range. */
  lemma {:induction false} OneMore(op: Op, column: Text, first: nat, n: nat, expected: byte, lim: Limits)
    requires first + n <= MAX32 && op.status != Status.Pending && |op.cells| + n < op.capacity
    requires Operation.AddAll(op, column, first, n, expected, lim).0 == Success <==> AllFree(op, column, first, n, lim)
    ensures Operation.AddAll(op, column, first, n + 1, expected, lim).0 == Success <==>
            AllFree(op, column, first, n, lim) && FreeInstance(op, column, first + n, lim)
  {
    hide Add, FreeInstance, Print, ArcsOf, AllFree, InstanceText;
    var (s, o) := Operation.AddAll(op, column, first, n, expected, lim);
    AddAllNext(op, column, first, n, expected, lim);
    hide Operation.AddAll;
    if s == Success {
      RangeExtends(op, column, first, n, expected, lim);
      StillFree(op, o, column, first, n, lim);
      InstanceExact(o, column, first + n, expected, lim);
      FreeFits(o, column, first + n, lim);
    }
  }

  lemma {:induction false} AddAllNext(op: Op, column: Text, first: nat, n: nat, expected: byte, lim: Limits)
    ensures var (s, o) := Operation.AddAll(op, column, first, n, expected, lim);
            var t := InstanceText(column, first + n);
            Operation.AddAll(op, column, first, n + 1, expected, lim) ==
            if s != Success then (s, o) else if |t| >= lim.oidText then (InvalidOID, o)
            else Add(o, t, expected, None, lim)
  {
    hide Add;
  }

  lemma {:induction false} RangeExtends(op: Op, column: Text, first: nat, n: nat, expected: byte, lim: Limits)
    requires n > 0 ==> first + n - 1 <= MAX32
    requires Operation.AddAll(op, column, first, n, expected, lim).0 == Success
    ensures Extended(op, Operation.AddAll(op, column, first, n, expected, lim).1, column, first, n)
  {
    hide Operation.AddAll, Print, ArcsOf;
    Operation.RangeAppends(op, column, first, n, expected, lim);
    Operation.AddAllStops(op, column, first, n, n, expected, lim);
  }

  lemma {:induction false} FreeFits(op: Op, column: Text, index: nat, lim: Limits)
    requires index <= MAX32
    ensures FreeInstance(op, column, index, lim) ==> |InstanceText(column, index)| < lim.oidText
  {
    if FreeInstance(op, column, index, lim) {
      InstanceKept(column, index, InstanceName(column, index), lim);
    }
  }

  /** A range is added exactly when it fits the operation and the arcs, and all its instances are nameable and new. */
  lemma {:induction false} RangeExact(op: Op, column: Text, first: nat, count: nat, expected: byte, lim: Limits)
    ensures var s := Operation.AddedRange(op, column, first, count, expected, lim).0;
            s == Success <==>
              && op.status != Status.Pending && |op.cells| + count <= op.capacity
              && (count > 0 ==> first + count - 1 <= 0xFFFF_FFFF)
              && AllFree(op, column, first, count, lim)
  {
    hide Operation.AddAll, AllFree;
    if op.status != Status.Pending && |op.cells| + count <= op.capacity && (count > 0 ==> first + count - 1 <= MAX32) {
      AllExact(op, column, first, count, expected, lim);
    }
  }
}

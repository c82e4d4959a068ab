/** The scheduler invariant, request correlation and the walk deadline, through arbitrary user code. */
module EngineLaws {
  import opened Bytes
  import opened Oids
  import opened Trees
  import opened Values
  import opened Operations
  import opened OperationLaws
  import opened ReplyLaws
  import opened Engine

  // ----- the invariant -----

  /** An operation is pending exactly when it occupies exactly one slot. */
  ghost predicate SlotsOk(w: World) {
    && |w.slots| > 0
    && (forall i :: 0 <= i < |w.slots| && w.slots[i] != FREE ==>
          0 <= w.slots[i] < |w.ops| && w.ops[w.slots[i]].Pending())
    && (forall i, j :: 0 <= i < j < |w.slots| && w.slots[i] != FREE ==> w.slots[i] != w.slots[j])
    && (forall k :: 0 <= k < |w.ops| && w.ops[k].Pending() ==> k in w.slots && w.begun)
  }

  /** IDs are never shared and never exceed the counter. */
  ghost predicate IdsOk(w: World) {
    && w.nextId <= MAX_ID
    && (forall k :: 0 <= k < |w.ops| ==> w.ops[k].id <= w.nextId)
    && (forall k, l :: 0 <= k < l < |w.ops| && w.ops[k].id != 0 ==> w.ops[k].id != w.ops[l].id)
  }

  ghost predicate OpsOk(w: World, lim: Limits) {
    forall k :: 0 <= k < |w.ops| ==> OpInv(w.ops[k], lim)
  }

  /** Two transmissions under one ID are the same request, byte for byte. */
  ghost predicate SameRequest(a: Sent, b: Sent) {
    a.(at := 0) == b.(at := 0)
  }

  /** The datagram in flight for a sent operation is the one its fields describe. */
  ghost predicate InFlight(op: Op, k: nat, e: Sent, lim: Limits) {
    op.batch == Packed(op, lim) && SameRequest(e, Entry(k, op, 0, lim))
  }

  ghost predicate WireMatch(op: Op, k: nat, e: Sent, lim: Limits) {
    op.Pending() && op.sent && !op.answered && e.id == op.id ==> InFlight(op, k, e, lim)
  }

  ghost predicate OnWire(wire: seq<Sent>, id: nat) { exists i :: 0 <= i < |wire| && wire[i].id == id }

  /** A transmission either opens an ID above all earlier ones or repeats an earlier datagram. */
  ghost predicate NewOrRepeat(wire: seq<Sent>, i: nat)
    requires i < |wire|
  {
    || (forall j :: 0 <= j < i ==> wire[j].id < wire[i].id)
    || (exists j :: 0 <= j < i && SameRequest(wire[j], wire[i]))
  }

  ghost predicate WireOk(w: World, lim: Limits) {
    && (forall i :: 0 <= i < |w.wire| ==> 1 <= w.wire[i].id <= w.nextId && NewOrRepeat(w.wire, i))
    && (forall i, j :: 0 <= i < j < |w.wire| && w.wire[i].id == w.wire[j].id ==> SameRequest(w.wire[i], w.wire[j]))
    && (forall k, i :: 0 <= k < |w.ops| && 0 <= i < |w.wire| ==> WireMatch(w.ops[k], k, w.wire[i], lim))
    && (forall k :: 0 <= k < |w.ops| && w.ops[k].Pending() && w.ops[k].sent && !w.ops[k].answered ==>
          w.ops[k].batch == Packed(w.ops[k], lim) && OnWire(w.wire, w.ops[k].id))
  }

  /** What every completion handler has found. */
  ghost predicate CompletionsOk(completions: seq<Completion>, lim: Limits) {
    forall i :: 0 <= i < |completions| ==> Ended(completions[i].state, lim)
  }

  ghost predicate Inv(w: World, lim: Limits) {
    SlotsOk(w) && IdsOk(w) && OpsOk(w, lim) && WireOk(w, lim) && CompletionsOk(w.completions, lim)
  }

  lemma {:induction false} OccupiedPending(w: World, i: nat)
    requires SlotsOk(w) && i < |w.slots| && w.slots[i] != FREE
    ensures 0 <= w.slots[i] < |w.ops| && w.ops[w.slots[i]].Pending()
  {}

  lemma {:induction false} InvSlots(w: World, lim: Limits)
    requires Inv(w, lim)
    ensures SlotsOk(w)
  {}

  // ----- replacing one operation -----

  /** An ID that operation k may carry. */
  ghost predicate IdFits(w: World, k: nat, id: nat) {
    id <= w.nextId && forall l :: 0 <= l < |w.ops| && l != k && id != 0 ==> w.ops[l].id != id
  }

  ghost predicate WireFits(w: World, k: nat, op: Op, lim: Limits) {
    op.Pending() && op.sent && !op.answered ==>
      && op.batch == Packed(op, lim) && OnWire(w.wire, op.id)
      && forall i :: 0 <= i < |w.wire| ==> WireMatch(op, k, w.wire[i], lim)
  }

  /** Finishing replaces the operation, so what it was before does not matter. */
  lemma {:induction false} FinishOverwrites(w: World, k: nat, before: Op, op: Op, outcome: Status, done: seq<Act>,
                                            lim: Limits)
    requires k < |w.ops|
    ensures FinishOp(Put(w, k, before), k, op, outcome, done, lim) == FinishOp(w, k, op, outcome, done, lim)
  {
    hide RunActs;
    assert Release(Put(w, k, before), k, op, outcome) == Release(w, k, op, outcome);
  }

  /** Any legal successor may replace an operation that stays pending, or stays idle. */
  lemma {:induction false} PutKeeps(w: World, k: nat, op: Op, lim: Limits)
    requires Inv(w, lim) && k < |w.ops|
    requires OpInv(op, lim) && op.Pending() == w.ops[k].Pending()
    requires IdFits(w, k, op.id) && WireFits(w, k, op, lim)
    ensures Inv(Put(w, k, op), lim)
  {
    hide OpInv, InFlight, SameRequest, NewOrRepeat, OnWire;
    var r := Put(w, k, op);
    assert SlotsOk(r);
    assert IdsOk(r);
    assert OpsOk(r, lim);
    assert WireOk(r, lim);
  }

  lemma {:induction false} ReleaseKeeps(w: World, k: nat, op: Op, outcome: Status, lim: Limits)
    requires Inv(w, lim) && k < |w.ops|
    requires Ended(Finished(op, outcome), lim) && outcome != Status.Pending
    requires IdFits(w, k, op.id)
    ensures Inv(Release(w, k, op, outcome), lim)
    ensures !Release(w, k, op, outcome).ops[k].Pending()
  {
    hide OpInv, InFlight, SameRequest, NewOrRepeat, OnWire, SettleAll;
    var r := Release(w, k, op, outcome);
    forall l | 0 <= l < |r.ops| && r.ops[l].Pending()
      ensures l in r.slots
    {
      assert l in w.slots;
      var i :| 0 <= i < |w.slots| && w.slots[i] == l;
      assert r.slots[i] == l;
    }
    assert SlotsOk(r);
    assert IdsOk(r);
    assert OpsOk(r, lim);
    assert WireOk(r, lim);
    assert CompletionsOk(r.completions, lim);
  }

  lemma {:induction false} ReserveSlots(w: World, i: nat, k: nat, op: Op)
    requires SlotsOk(w) && w.begun && k < |w.ops| && i < |w.slots| && w.slots[i] == FREE
    requires !w.ops[k].Pending() && op.Pending()
    ensures SlotsOk(w.(slots := w.slots[i := k], ops := w.ops[k := op]))
  {
    var r := w.(slots := w.slots[i := k], ops := w.ops[k := op]);
    forall l | 0 <= l < |r.ops| && r.ops[l].Pending()
      ensures l in r.slots
    {
      if l == k {
        assert r.slots[i] == k;
      } else {
        var j :| 0 <= j < |w.slots| && w.slots[j] == l;
        assert r.slots[j] == l;
      }
    }
  }

  lemma {:induction false} ReserveKeeps(w: World, i: nat, k: nat, op: Op, lim: Limits)
    requires Inv(w, lim) && w.begun && k < |w.ops| && i < |w.slots| && w.slots[i] == FREE
    requires !w.ops[k].Pending() && op.Pending() && OpInv(op, lim) && op.id == 0 && !op.sent
    ensures Inv(w.(slots := w.slots[i := k], ops := w.ops[k := op]), lim)
  {
    hide SlotsOk, IdsOk, OpsOk, WireOk, CompletionsOk, OpInv;
    var r := w.(slots := w.slots[i := k], ops := w.ops[k := op]);
    ReserveSlots(w, i, k, op);
    ReserveIds(w, r, k, op);
    ReserveWire(w, r, k, op, lim);
    ReserveOps(w, r, k, op, lim);
  }

  lemma {:induction false} ReserveIds(w: World, r: World, k: nat, op: Op)
    requires IdsOk(w) && k < |w.ops| && op.id == 0 && r.ops == w.ops[k := op] && r.nextId == w.nextId
    ensures IdsOk(r)
  {}

  lemma {:induction false} ReserveOps(w: World, r: World, k: nat, op: Op, lim: Limits)
    requires OpsOk(w, lim) && k < |w.ops| && OpInv(op, lim) && r.ops == w.ops[k := op]
    ensures OpsOk(r, lim)
  {
    hide OpInv;
  }

  lemma {:induction false} ReserveWire(w: World, r: World, k: nat, op: Op, lim: Limits)
    requires WireOk(w, lim) && k < |w.ops| && !op.sent
    requires r.ops == w.ops[k := op] && r.wire == w.wire && r.nextId == w.nextId
    ensures WireOk(r, lim)
  {
    hide InFlight, SameRequest, NewOrRepeat, OnWire, Packed;
    forall l, n | 0 <= l < |r.ops| && 0 <= n < |r.wire|
      ensures WireMatch(r.ops[l], l, r.wire[n], lim)
    {
      if l != k {
        assert WireMatch(w.ops[l], l, w.wire[n], lim);
      }
    }
  }

  lemma {:induction false} ScheduleKeeps(w: World, k: nat, lim: Limits)
    requires Inv(w, lim) && k < |w.ops|
    ensures Inv(Schedule(w, k).1, lim)
  {
    var (s, r) := Schedule(w, k);
    if s == Success {
      AdmissionBegun(w.ops[k], w.begun);
      assert OpInv(w.ops[k], lim);
      ScheduledKeeps(w.ops[k], lim);
      hide OpInv, Scheduled, FreeSlot;
      ReserveKeeps(w, FreeSlot(w.slots), k, Scheduled(w.ops[k]), lim);
    }
  }

  lemma {:induction false} AdmissionBegun(op: Op, begun: bool)
    requires Admission(op, begun) == Success
    ensures Admission(op, true) == Success && !op.Pending() && begun
  {}

  // ----- user code -----

  /** After user code, an operation that still waits under a request ID is exactly as it was. */
  ghost predicate Quiet(a: Op, b: Op) { b.Pending() && b.id != 0 ==> b == a }

  ghost predicate EvolvesAll(w: World, r: World) {
    |r.ops| == |w.ops| && forall k :: 0 <= k < |w.ops| ==> Evolves(w.ops[k], r.ops[k])
  }

  /** What user code cannot do: send, allocate IDs, or touch an operation except by ending or starting its run. */
  ghost predicate Calm(w: World, r: World) {
    && r.nextId == w.nextId && r.wire == w.wire && r.clock == w.clock && r.begun == w.begun
    && w.completions <= r.completions
    && SlotsStay(w, r)
    && EvolvesAll(w, r)
    && forall k :: 0 <= k < |w.ops| ==> Quiet(w.ops[k], r.ops[k])
  }

  /** An operation that still waits under a request ID keeps its slot. */
  ghost predicate SlotsStay(w: World, r: World) {
    && |r.slots| == |w.slots| && |r.ops| == |w.ops|
    && forall j :: 0 <= j < |w.slots| && 0 <= w.slots[j] < |w.ops| && Waits(r.ops[w.slots[j]]) ==>
         r.slots[j] == w.slots[j]
  }

  ghost predicate Waits(op: Op) { op.Pending() && op.id != 0 }

  lemma {:induction false} CalmTransitive(a: World, b: World, c: World)
    requires Calm(a, b) && Calm(b, c)
    ensures Calm(a, c)
  {
    hide Evolves;
    forall k | 0 <= k < |a.ops|
      ensures Evolves(a.ops[k], c.ops[k]) && Quiet(a.ops[k], c.ops[k])
    {
      assert Quiet(a.ops[k], b.ops[k]) && Quiet(b.ops[k], c.ops[k]);
      EvolvesTransitive(a.ops[k], b.ops[k], c.ops[k]);
    }
  }

  lemma {:induction false} EvolvesSame(op: Op)
    ensures Evolves(op, op)
  {}

  lemma {:induction false} CalmSame(w: World)
    ensures Calm(w, w)
  {
    hide Evolves;
    forall k | 0 <= k < |w.ops|
      ensures Evolves(w.ops[k], w.ops[k])
    {
      EvolvesSame(w.ops[k]);
    }
  }

  /** Changing one operation, and slots at will, is calm when that operation only ends or starts a run. */
  lemma {:induction false} CalmPut(w: World, k: nat, op: Op, slots: seq<int>)
    requires k < |w.ops| && |slots| == |w.slots|
    requires Evolves(w.ops[k], op) && Quiet(w.ops[k], op)
    requires SlotsStay(w, Put(w, k, op).(slots := slots))
    ensures Calm(w, Put(w, k, op).(slots := slots))
  {
    hide Evolves;
    forall l | 0 <= l < |w.ops|
      ensures Evolves(w.ops[l], Put(w, k, op).ops[l])
    {
      EvolvesSame(w.ops[l]);
    }
  }

  lemma {:induction false} ConfigureEvolves(op: Op, root: Text, lim: Limits)
    requires op.walking
    ensures var r := SetRoot(op, root, lim).1;
            Evolves(op, r) && Quiet(op, r) && r.id == op.id && r.Pending() == op.Pending() && (op.Pending() ==> r == op)
  {
    hide Add;
    AddFrame(op.(cells := []), root, NULLTYPE, None, lim);
    AddBusy(op.(cells := []), root, NULLTYPE, None, lim);
  }

  lemma {:induction false} AddBusy(op: Op, oid: Text, expected: byte, value: Option<Value>, lim: Limits)
    ensures Add(op, oid, expected, value, lim).0 == Success ==> !op.Pending()
    ensures op.Pending() ==> Add(op, oid, expected, value, lim) == (Busy, op)
  {}

  lemma {:induction false} AddEvolves(op: Op, oid: Text, expected: byte, value: Option<Value>, lim: Limits)
    requires !op.walking
    ensures var r := Add(op, oid, expected, value, lim).1;
            Evolves(op, r) && Quiet(op, r) && r.id == op.id && r.Pending() == op.Pending() && (op.Pending() ==> r == op)
  {
    hide EncodeText, DecodeText, CheckValue;
    var r := Add(op, oid, expected, value, lim).1;
    assert r == op || (|r.cells| == |op.cells| + 1 && r.cells[..|op.cells|] == op.cells);
    assert forall i :: 0 <= i < |op.cells| ==> r.cells[i] == op.cells[i];
  }

  lemma {:induction false} RunActKeeps(w: World, act: Act, lim: Limits)
    requires Inv(w, lim)
    ensures Inv(RunAct(w, act, lim), lim) && Calm(w, RunAct(w, act, lim))
    decreases act, 0
  {
    hide Calm, Inv, Schedule, FinishOp, Finished, Evolves, OpInv, IdFits, SetRoot, Add;
    CalmSame(w);
    match act
    case Start(k) =>
      if k < |w.ops| {
        ScheduleKeeps(w, k, lim);
        ScheduleCalm(w, k);
      }
    case Cancel(k, done) =>
      if k < |w.ops| && w.ops[k].Pending() {
        CancelReady(w, k, lim);
        FinishOpKeeps(w, k, w.ops[k], Cancelled, done, lim);
      }
    case Configure(k, root) =>
      if k < |w.ops| && w.ops[k].walking {
        ConfigureKeeps(w, k, root, lim);
      }
    case AddName(k, name, expected, value) =>
      if k < |w.ops| && !w.ops[k].walking {
        AddNameKeeps(w, k, name, expected, value, lim);
      }
  }

  lemma {:induction false} CancelReady(w: World, k: nat, lim: Limits)
    requires Inv(w, lim) && k < |w.ops| && w.ops[k].Pending()
    ensures Ended(Finished(w.ops[k], Cancelled), lim) && Evolves(w.ops[k], Finished(w.ops[k], Cancelled))
    ensures IdFits(w, k, w.ops[k].id)
  {
    assert OpInv(w.ops[k], lim);
    hide OpInv, Evolves, Finished;
    CancelFinishes(w.ops[k], lim);
    IdsOkFits(w, k);
  }

  lemma {:induction false} IdsOkFits(w: World, k: nat)
    requires IdsOk(w) && k < |w.ops|
    ensures IdFits(w, k, w.ops[k].id)
  {}

  lemma {:induction false} ConfigureKeeps(w: World, k: nat, root: Text, lim: Limits)
    requires Inv(w, lim) && k < |w.ops| && w.ops[k].walking
    ensures var r := Put(w, k, SetRoot(w.ops[k], root, lim).1); Inv(r, lim) && Calm(w, r)
  {
    var op := w.ops[k];
    var next := SetRoot(op, root, lim).1;
    assert OpInv(op, lim);
    SetRootKeeps(op, root, lim);
    ConfigureEvolves(op, root, lim);
    SetRootUnsettles(op, root, lim);
    IdleKeeps(w, k, next, lim);
    CalmPut(w, k, next, w.slots);
  }

  lemma {:induction false} SetRootUnsettles(op: Op, root: Text, lim: Limits)
    ensures SetRoot(op, root, lim).1 == op || !SetRoot(op, root, lim).1.settled
  {
    hide Add;
  }

  lemma {:induction false} AddUnsettles(op: Op, oid: Text, expected: byte, value: Option<Value>, lim: Limits)
    ensures Add(op, oid, expected, value, lim).1 == op || !Add(op, oid, expected, value, lim).1.settled
  {}

  lemma {:induction false} AddNameKeeps(w: World, k: nat, name: Text, expected: byte, value: Option<Value>, lim: Limits)
    requires Inv(w, lim) && k < |w.ops| && !w.ops[k].walking
    ensures var r := Put(w, k, Add(w.ops[k], name, expected, value, lim).1); Inv(r, lim) && Calm(w, r)
  {
    var op := w.ops[k];
    var next := Add(op, name, expected, value, lim).1;
    assert OpInv(op, lim);
    AddKeeps(op, name, expected, value, lim);
    AddEvolves(op, name, expected, value, lim);
    AddUnsettles(op, name, expected, value, lim);
    IdleKeeps(w, k, next, lim);
    CalmPut(w, k, next, w.slots);
  }

  /** Reconfiguring an idle operation. */
  lemma {:induction false} IdleKeeps(w: World, k: nat, next: Op, lim: Limits)
    requires Inv(w, lim) && k < |w.ops|
    requires Shape(next, lim) && next.id == w.ops[k].id && next.Pending() == w.ops[k].Pending()
    requires next == w.ops[k] || (!next.Pending() && !next.settled)
    ensures Inv(Put(w, k, next), lim)
  {
    IdsOkFits(w, k);
    if next == w.ops[k] {
      assert Put(w, k, next) == w;
    } else {
      PutKeeps(w, k, next, lim);
    }
  }

  lemma {:induction false} ScheduleCalm(w: World, k: nat)
    requires k < |w.ops|
    ensures Calm(w, Schedule(w, k).1)
  {
    var (s, r) := Schedule(w, k);
    if s == Success {
      ScheduledEvolves(w.ops[k]);
      hide Evolves, Scheduled;
      CalmPut(w, k, Scheduled(w.ops[k]), r.slots);
      assert r == Put(w, k, Scheduled(w.ops[k])).(slots := r.slots);
    } else {
      CalmSame(w);
    }
  }

  lemma {:induction false} ScheduledEvolves(op: Op)
    ensures Evolves(op, Scheduled(op)) && Quiet(op, Scheduled(op))
  {}

  lemma {:induction false} CancelFinishes(op: Op, lim: Limits)
    requires OpInv(op, lim) && op.Pending()
    ensures Ended(Finished(op, Cancelled), lim) && Evolves(op, Finished(op, Cancelled))
  {
    BusyFinishes(op, Cancelled, lim);
    FinishedKeeps(op, Cancelled, lim);
    FinishEvolves(op, Cancelled, lim);
  }

  /**
   * Finishing an operation keeps the invariant even though the completion handler may start, cancel and
   * configure anything, including the operation that just finished.
   */
  lemma {:induction false} FinishOpKeeps(w: World, k: nat, op: Op, outcome: Status, done: seq<Act>, lim: Limits)
    requires Inv(w, lim) && k < |w.ops|
    requires Ended(Finished(op, outcome), lim) && outcome != Status.Pending
    requires IdFits(w, k, op.id) && Evolves(w.ops[k], Finished(op, outcome))
    ensures Inv(FinishOp(w, k, op, outcome, done, lim), lim)
    ensures Calm(w, FinishOp(w, k, op, outcome, done, lim))
    decreases done, 1
  {
    hide Evolves, OpInv, Finished;
    ReleaseKeeps(w, k, op, outcome, lim);
    var released := Release(w, k, op, outcome);
    CalmPut(w, k, Finished(op, outcome), released.slots) by {
      FinishedIdle(op, outcome);
    }
    RunActsKeeps(released, done, lim);
    CalmTransitive(w, released, RunActs(released, done, lim));
  }

  lemma {:induction false} FinishedIdle(op: Op, outcome: Status)
    ensures Finished(op, outcome).status == outcome
  {}

  lemma {:induction false} RunActsKeeps(w: World, acts: seq<Act>, lim: Limits)
    requires Inv(w, lim)
    ensures Inv(RunActs(w, acts, lim), lim) && Calm(w, RunActs(w, acts, lim))
    decreases acts, 0
  {
    hide Inv, Calm;
    if acts == [] {
      CalmSame(w);
    } else {
      RunActKeeps(w, acts[0], lim);
      var next := RunAct(w, acts[0], lim);
      RunActsKeeps(next, acts[1..], lim);
      CalmTransitive(w, next, RunActs(next, acts[1..], lim));
    }
  }
}

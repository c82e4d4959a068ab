/** Where the engine meets what its interface promises, and exactly when it does not. */
module Consequences {
  import opened Bytes
  import opened Oids
  import opened Trees
  import opened Messages
  import opened Values
  import opened Operations
  import opened OperationLaws
  import opened Engine
  import opened EngineLaws
  import opened StepLaws

  // ----- completion handlers -----

  lemma {:induction false} FreeSlotExists(slots: seq<int>)
    requires FREE in slots
    ensures FreeSlot(slots) < |slots|
  {}

  /**
   * When a completion handler runs, the scheduler invariant holds, the finished operation is out of its slot, and
   * a start of any operation is decided by admission alone: it never fails for lack of a slot.
   */
  lemma {:induction false} HandlerFindsASlot(w: World, k: nat, op: Op, outcome: Status, j: nat, lim: Limits)
    requires Inv(w, lim) && k < |w.ops| && w.ops[k].Pending() && j < |w.ops|
    requires Finishing(op, outcome, lim) && op.id == w.ops[k].id && (op.walking || op.Pending())
    ensures var r := Release(w, k, op, outcome);
            && Inv(r, lim) && !r.ops[k].Pending() && k !in r.slots
            && Engine.Schedule(r, j).0 == Admission(r.ops[j], r.begun)
  {
    FinishedKeeps(op, outcome, lim);
    IdsOkFits(w, k);
    ReleaseKeeps(w, k, op, outcome, lim);
    SlotFreed(w, k, op, outcome);
    hide Inv, Finishing, Release, Admission, FreeSlot;
    FreeSlotExists(Release(w, k, op, outcome).slots);
  }

  lemma {:induction false} SlotFreed(w: World, k: nat, op: Op, outcome: Status)
    requires SlotsOk(w) && k < |w.ops| && w.ops[k].Pending()
    ensures var r := Release(w, k, op, outcome); FREE in r.slots && k !in r.slots && r.begun == w.begun
  {
    hide Finished;
    var r := Release(w, k, op, outcome);
    var i :| 0 <= i < |w.slots| && w.slots[i] == k;
    assert r.slots[i] == FREE;
  }

  /** What a start has established stays true while the run lasts. */
  lemma {:induction false} RunIsStartable(w: World, k: nat, lim: Limits)
    requires Inv(w, lim) && k < |w.ops| && w.ops[k].Pending()
    ensures w.begun && Startable(w.ops[k].dev)
    ensures if w.ops[k].walking then w.ops[k].root != [] else w.ops[k].cells != []
  {
    InvOp(w, k, lim);
    hide IdsOk, OpsOk, WireOk;
  }

  lemma {:induction false} FinishedAdmitted(op: Op, outcome: Status)
    requires outcome != Status.Pending && Startable(op.dev) && (if op.walking then op.root != [] else op.cells != [])
    ensures Admission(Finished(op, outcome), true) == Success
  {}

  /** So the completion handler of a run can always start the operation that has just finished again. */
  lemma {:induction false} HandlerCanRestart(w: World, k: nat, op: Op, outcome: Status, lim: Limits)
    requires Inv(w, lim) && k < |w.ops| && w.ops[k].Pending()
    requires Finishing(op, outcome, lim) && op.id == w.ops[k].id && (op.walking || op.Pending())
    requires op.dev == w.ops[k].dev && op.walking == w.ops[k].walking && op.root == w.ops[k].root
    ensures Engine.Schedule(Release(w, k, op, outcome), k).0 == Success
  {
    HandlerFindsASlot(w, k, op, outcome, k, lim);
    RunIsStartable(w, k, lim);
    hide Inv, DoneInv, Finished, Admission, Startable;
    FinishedAdmitted(op, outcome);
  }

  // ----- reconfiguring a walk -----

  /**
   * A root is accepted exactly when the walk is idle, has a result slot to check it in, and can keep a spelling of it.
   */
  lemma {:induction false} RootAccepted(op: Op, root: Text, lim: Limits)
    ensures SetRoot(op, root, lim).0 == Success <==> !op.Pending() && op.capacity > 0 && CanonicalForm(root, lim).Some?
    ensures SetRoot(op, root, lim).0 == Success ==>
              var r := SetRoot(op, root, lim).1;
              Some(r.root) == CanonicalForm(root, lim) && r == op.(root := r.root, cells := r.cells, settled := false)
  {
    hide EncodeText, DecodeText;
  }

  /**
   * Giving a walk another root keeps its retained results exactly when there are none, or the first one has the
   * root's kept spelling for a name and was never started. So a usable first result is always lost; the others stay.
   */
  lemma {:induction false} RootKeepsResults(op: Op, root: Text, lim: Limits)
    requires !op.Pending() && op.capacity > 0 && CanonicalForm(root, lim).Some?
    ensures var scratch := Cell(CanonicalForm(root, lim).value, EMPTY, NotStarted, NULLTYPE);
            var r := SetRoot(op, root, lim).1;
            && (r.cells == op.cells <==> op.cells == [] || op.cells[0] == scratch)
            && (op.cells != [] && op.cells[0].Ok() ==>
                  r.cells != op.cells && r.cells[0] == scratch && r.status == op.status)
            && |r.cells| == |op.cells| && forall i :: 1 <= i < |op.cells| ==> r.cells[i] == op.cells[i]
  {
    RootAccepted(op, root, lim);
    RootCell(op.(cells := []), root, lim);
    hide EncodeText, DecodeText, Add, CanonicalForm;
  }

  lemma {:induction false} RootCell(op: Op, root: Text, lim: Limits)
    requires op.cells == [] && Add(op, root, NULLTYPE, None, lim).0 == Success
    ensures CanonicalForm(root, lim).Some?
    ensures Add(op, root, NULLTYPE, None, lim).1.cells ==
            [Cell(CanonicalForm(root, lim).value, EMPTY, NotStarted, NULLTYPE)]
  {
    hide EncodeText, DecodeText;
    var cell := Cell(CanonicalForm(root, lim).value, EMPTY, NotStarted, NULLTYPE);
    assert op.cells + [cell] == [cell];
  }

  // ----- restarting a write -----

  lemma {:induction false} EchoStored(op: Op, m: Message, lim: Limits)
    requires !op.walking && op.offset == 0 && op.batch == |op.cells| > 0 && Complete(op, m)
    ensures var s := Commit(op, m, lim);
            && s.Finish? && s.op.cells == CommitCells(op.cells, m.bindings, lim)
            && s.op.walking == op.walking && s.op.mode == op.mode
  {
    hide CommitCells, Verdict;
    WholeBatch(op.cells, CommitCells(op.cells, m.bindings, lim));
  }

  lemma {:induction false} WholeBatch(cells: seq<Cell>, c: seq<Cell>)
    ensures cells[0..|cells|] == cells && cells[..0] + c + cells[|cells|..] == c
  {}

  lemma {:induction false} EchoRestarted(c: Cell, b: Binding, outcome: Status, lim: Limits)
    ensures var again := ResetCell(Settle(CommitCell(c, b, lim), outcome), SET);
            again.oid == c.oid && again.value == CopyValue(b.value, lim).1
  {
    hide CopyValue;
  }

  lemma {:induction false} RestartedCells(op: Op, outcome: Status)
    requires !op.walking && op.mode == SET
    ensures Scheduled(Finished(op, outcome)).cells == ResetCells(SettleAll(op.cells, outcome), SET)
  {
    hide ResetCells, SettleAll;
  }

  /** What a SET sends when it is started again after its reply. */
  function Restarted(op: Op, m: Message, outcome: Status, lim: Limits): Op
    requires op.offset < |op.cells| && op.offset + op.batch <= |op.cells| && !op.walking
  {
    Scheduled(Finished(Commit(op, m, lim).op, outcome))
  }

  lemma {:induction false} RestartedEcho(op: Op, m: Message, outcome: Status, lim: Limits)
    requires !op.walking && op.mode == SET && op.offset == 0 && op.batch == |op.cells| > 0 && Complete(op, m)
    ensures var again := Restarted(op, m, outcome, lim).cells;
            |again| == |op.cells| &&
            forall i :: 0 <= i < |op.cells| ==>
              again[i].oid == op.cells[i].oid && again[i].value == CopyValue(m.bindings[i].value, lim).1
  {
    hide CopyValue, CommitCell, Commit, Scheduled, Finished, Settle, ResetCell;
    EchoStored(op, m, lim);
    RestartedCells(Commit(op, m, lim).op, outcome);
    forall i | 0 <= i < |op.cells|
      ensures var again := Restarted(op, m, outcome, lim).cells;
              again[i].oid == op.cells[i].oid && again[i].value == CopyValue(m.bindings[i].value, lim).1
    {
      EchoRestarted(op.cells[i], m.bindings[i], outcome, lim);
    }
  }

  /**
   * A SET that is started again sends what the previous reply echoed, not what was configured: the two agree
   * exactly when the echo did.
   */
  lemma {:induction false} RestartedSetSendsTheEcho(op: Op, m: Message, outcome: Status, lim: Limits)
    requires !op.walking && op.mode == SET && op.offset == 0 && op.batch == |op.cells| > 0 && Complete(op, m)
    ensures |Restarted(op, m, outcome, lim).cells| == |op.cells|
    ensures var again := Restarted(op, m, outcome, lim).cells;
            (forall i :: 0 <= i < |op.cells| ==> again[i].value == op.cells[i].value) <==>
            (forall i :: 0 <= i < |op.cells| ==> CopyValue(m.bindings[i].value, lim).1 == op.cells[i].value)
  {
    hide CopyValue, Restarted;
    RestartedEcho(op, m, outcome, lim);
  }
}

/** Replies, transmissions and clock ticks keep the engine's invariant; user code runs inside all of them. */
module StepLaws {
  import opened Bytes
  import opened Oids
  import opened Messages
  import opened Values
  import opened Operations
  import opened OperationLaws
  import opened ReplyLaws
  import opened Engine
  import opened EngineLaws

  // ----- what a reply may change -----

  /** An operation that waits under a request ID was waiting before; its ID and its clock readings have not changed. */
  ghost predicate Timely(a: Op, b: Op) {
    Waits(b) ==>
      && Waits(a) && b.id == a.id && (b.sent ==> a.sent && b.sentAt == a.sentAt)
      && b.startedAt == a.startedAt && b.first == a.first && (a.answered ==> b.answered)
      && b.dev == a.dev && b.sends == a.sends
  }

  /** The operation would accept a reply to its current request. */
  ghost predicate Expects(op: Op) { Waits(op) && op.sent }

  /** Handling a reply sends nothing and allocates no IDs. */
  ghost predicate Tame(w: World, r: World) {
    && r.nextId == w.nextId && r.wire == w.wire && r.clock == w.clock && r.begun == w.begun
    && w.completions <= r.completions
    && SlotsStay(w, r)
    && EvolvesAll(w, r)
    && forall k :: 0 <= k < |w.ops| ==> Timely(w.ops[k], r.ops[k])
  }

  lemma {:induction false} CalmIsTame(w: World, r: World)
    requires Calm(w, r)
    ensures Tame(w, r)
  {
    hide Evolves;
    forall k | 0 <= k < |w.ops|
      ensures Timely(w.ops[k], r.ops[k])
    {
      assert Quiet(w.ops[k], r.ops[k]);
    }
  }

  lemma {:induction false} TameTransitive(a: World, b: World, c: World)
    requires Tame(a, b) && Tame(b, c)
    ensures Tame(a, c)
  {
    hide Evolves;
    forall k | 0 <= k < |a.ops|
      ensures Evolves(a.ops[k], c.ops[k]) && Timely(a.ops[k], c.ops[k])
    {
      assert Timely(a.ops[k], b.ops[k]) && Timely(b.ops[k], c.ops[k]);
      EvolvesTransitive(a.ops[k], b.ops[k], c.ops[k]);
    }
    forall j | 0 <= j < |a.slots| && 0 <= a.slots[j] < |a.ops| && Waits(c.ops[a.slots[j]])
      ensures c.slots[j] == a.slots[j]
    {
      assert Timely(b.ops[a.slots[j]], c.ops[a.slots[j]]);
      assert b.slots[j] == a.slots[j];
    }
  }

  lemma {:induction false} TamePut(w: World, k: nat, op: Op)
    requires k < |w.ops| && Evolves(w.ops[k], op) && Timely(w.ops[k], op)
    ensures Tame(w, Put(w, k, op))
  {
    hide Evolves;
    forall l | 0 <= l < |w.ops|
      ensures Evolves(w.ops[l], Put(w, k, op).ops[l])
    {
      EvolvesSame(w.ops[l]);
    }
  }

  // ----- one operation under a reply -----

  /** While its bindings are read, an operation keeps its identity. */
  ghost predicate SameRun(a: Op, b: Op) {
    && b.run == a.run && b.id == a.id && b.walking == a.walking && b.dev == a.dev
    && b.startedAt == a.startedAt && b.first == a.first && b.streaming == a.streaming && b.capacity == a.capacity
    && (a.answered ==> b.answered) && (b.sent ==> a.sent && b.sentAt == a.sentAt) && b.sends == a.sends
  }

  function StepOp(s: Step): Op { s.op }

  lemma {:induction false} ReplyHeadEvolves(op: Op, m: Message)
    requires op.Pending() && (op.walking || op.offset < |op.cells|)
    ensures var o := StepOp(ReplyHead(op, m)); Evolves(op, o) && SameRun(op, o) && o.Pending()
  {
    hide CellsKept, NoSuchName, ReplyHead;
    var o := StepOp(ReplyHead(op, m));
    HeadCells(op, m);
    if !op.walking && o == StepOp(NoSuchName(Noted(op, m))) {
      NoSuchNameKept(op, Noted(op, m));
    } else {
      SameCellsKept(op, o);
    }
  }

  lemma {:induction false} HeadCells(op: Op, m: Message)
    requires op.walking || op.offset < |op.cells|
    ensures var o := StepOp(ReplyHead(op, m));
            || (!op.walking && o == StepOp(NoSuchName(Noted(op, m))))
            || (SameRun(op, o) && o.status == op.status && o.cells == op.cells && o.offset == op.offset
                && o.delivered == op.delivered && o.taken == op.taken)
  {
    hide NoSuchName;
  }

  lemma {:induction false} NoSuchNameKept(op: Op, noted: Op)
    requires op.Pending() && op.offset < |op.cells| && noted.cells == op.cells && noted.offset == op.offset
    requires SameRun(op, noted) && noted.status == op.status
    ensures var o := StepOp(NoSuchName(noted)); CellsKept(op, o) && SameRun(op, o) && o.Pending()
  {
    hide CellsKept, SameRun, FrontKept;
    var o := StepOp(NoSuchName(noted));
    NoSuchNameTerms(noted);
    SameRunTransitive(op, noted, o);
    hide NoSuchName;
    KeptFrom(op, o);
  }

  /** What noSuchName leaves alone. */
  lemma {:induction false} NoSuchNameTerms(op: Op)
    requires op.offset < |op.cells|
    ensures var o := StepOp(NoSuchName(op));
            SameRun(op, o) && o.status == op.status && op.offset <= o.offset && FrontKept(op.cells, o.cells, op.offset)
  {
    hide FrontKept;
    FrontMissing(op.cells, op.offset);
    FrontSame(op.cells, op.offset);
  }

  /** The names stay, and so do the results in front of an offset. */
  ghost predicate FrontKept(cells: seq<Cell>, next: seq<Cell>, offset: nat) {
    |next| == |cells| &&
    forall i :: 0 <= i < |cells| ==> next[i].oid == cells[i].oid && (i < offset ==> next[i] == cells[i])
  }

  lemma {:induction false} FrontMissing(cells: seq<Cell>, offset: nat)
    requires offset < |cells|
    ensures FrontKept(cells, cells[offset := cells[offset].(status := Missing)], offset)
  {}

  lemma {:induction false} FrontSame(cells: seq<Cell>, offset: nat)
    ensures FrontKept(cells, cells, offset)
  {}

  lemma {:induction false} SameRunTransitive(a: Op, b: Op, c: Op)
    requires SameRun(a, b) && SameRun(b, c)
    ensures SameRun(a, c)
  {}

  lemma {:induction false} KeptFrom(a: Op, b: Op)
    requires a.Pending() && a.offset <= b.offset && FrontKept(a.cells, b.cells, a.offset)
    ensures CellsKept(a, b)
  {}

  lemma {:induction false} CommittedKept(cells: seq<Cell>, offset: nat, end: nat, bs: seq<Binding>, lim: Limits)
    requires offset <= end <= |cells| && |bs| == end - offset
    ensures FrontKept(cells, cells[..offset] + CommitCells(cells[offset..end], bs, lim) + cells[end..], offset)
  {
    hide CopyValue;
    var next := cells[..offset] + CommitCells(cells[offset..end], bs, lim) + cells[end..];
    forall i | 0 <= i < |cells|
      ensures next[i].oid == cells[i].oid
    {
      if offset <= i < end {
        assert next[i] == CommitCell(cells[i], bs[i - offset], lim);
      }
    }
  }

  lemma {:induction false} CommitEvolves(op: Op, m: Message, lim: Limits)
    requires op.Pending() && !op.walking && op.offset < |op.cells| && op.offset + op.batch <= |op.cells|
    ensures var o := StepOp(Commit(op, m, lim)); Evolves(op, o) && SameRun(op, o) && o.Pending()
  {
    hide CommitCells, Verdict, CellsKept, FrontKept;
    var o := StepOp(Commit(op, m, lim));
    if Complete(op, m) {
      CommittedTerms(op, m, lim);
      hide Commit;
      KeptFrom(op, o);
    } else {
      SameCellsKept(op, op);
    }
  }

  lemma {:induction false} CommittedTerms(op: Op, m: Message, lim: Limits)
    requires !op.walking && op.offset < |op.cells| && op.offset + op.batch <= |op.cells| && Complete(op, m)
    ensures var o := StepOp(Commit(op, m, lim));
            && o == Again(op.(cells := o.cells, offset := o.offset)) && op.offset <= o.offset
            && FrontKept(op.cells, o.cells, op.offset)
  {
    hide CommitCells, Verdict, FrontKept;
    CommittedKept(op.cells, op.offset, op.offset + op.batch, m.bindings, lim);
  }

  /** Between two replies nobody is half answered and no callback is being shown anything. */
  ghost predicate Ready(op: Op) {
    op.Pending() ==> (op.walking ==> op.showing == None) && (op.sent ==> !op.answered)
  }

  ghost predicate ReadyBut(w: World, k: int) {
    forall l :: 0 <= l < |w.ops| && l != k ==> Ready(w.ops[l])
  }

  ghost predicate AllReady(w: World) { ReadyBut(w, -1) }

  lemma {:induction false} UnsentReady(op: Op, lim: Limits)
    requires OpInv(op, lim) && !Waits(op)
    ensures Ready(op)
  {}

  lemma {:induction false} CalmReady(w: World, r: World, k: int, lim: Limits)
    requires Calm(w, r) && ReadyBut(w, k) && Inv(r, lim)
    ensures ReadyBut(r, k)
    ensures 0 <= k < |w.ops| && !Waits(r.ops[k]) ==> AllReady(r)
  {
    hide Evolves, Ready, OpInv;
    forall l | 0 <= l < |r.ops| && (l != k || !Waits(r.ops[l]))
      ensures Ready(r.ops[l])
    {
      if Waits(r.ops[l]) {
        assert Quiet(w.ops[l], r.ops[l]);
        assert Ready(w.ops[l]);
      } else {
        assert OpInv(r.ops[l], lim);
        UnsentReady(r.ops[l], lim);
      }
    }
  }

  lemma {:induction false} ResolveFinish(w: World, k: nat, op: Op, outcome: Status, done: seq<Act>, lim: Limits)
    requires Inv(w, lim) && k < |w.ops| && ReadyBut(w, k)
    requires Ended(Finished(op, outcome), lim) && outcome != Status.Pending
    requires Evolves(w.ops[k], Finished(op, outcome)) && op.id == w.ops[k].id
    ensures var r := FinishOp(w, k, op, outcome, done, lim);
            Inv(r, lim) && Tame(w, r) && AllReady(r) && !Waits(r.ops[k])
    ensures Calm(w, FinishOp(w, k, op, outcome, done, lim))
  {
    assert IdFits(w, k, op.id) by { IdsOkFits(w, k); }
    hide Inv, Evolves, ReadyBut, OpInv, IdFits, Calm, Tame, FinishOp, Finished;
    FinishOpKeeps(w, k, op, outcome, done, lim);
    var r := FinishOp(w, k, op, outcome, done, lim);
    CalmIsTame(w, r);
    FinishReleases(w, k, op, outcome, done, lim);
    CalmReady(w, r, k, lim);
  }

  /** A legal finish satisfies what ResolveFinish asks for. */
  lemma {:induction false} LegalFinish(a: Op, op: Op, outcome: Status, lim: Limits)
    requires Finishing(op, outcome, lim) && Evolves(a, op) && (op.walking || op.Pending())
    ensures Ended(Finished(op, outcome), lim) && outcome != Status.Pending && Evolves(a, Finished(op, outcome))
  {
    FinishedKeeps(op, outcome, lim);
    FinishEvolves(op, outcome, lim);
    hide Evolves, OpInv;
    assert outcome != Status.Pending;
    EvolvesTransitive(a, op, Finished(op, outcome));
  }

  lemma {:induction false} ResolveContinue(w: World, k: nat, op: Op, lim: Limits)
    requires Inv(w, lim) && k < |w.ops| && Waits(w.ops[k]) && ReadyBut(w, k)
    requires OpInv(op, lim) && op.Pending() && !op.sent && (op.walking ==> op.showing == None)
    requires Evolves(w.ops[k], op) && SameRun(w.ops[k], op)
    ensures var r := Put(w, k, op); Inv(r, lim) && Tame(w, r) && AllReady(r)
  {
    IdsOkFits(w, k);
    TamePut(w, k, op);
    hide Inv, Evolves, OpInv, IdFits;
    PutKeeps(w, k, op, lim);
  }

  lemma {:induction false} ResolveKeeps(w: World, k: nat, s: Step, done: seq<Act>, lim: Limits)
    requires Inv(w, lim) && k < |w.ops| && Waits(w.ops[k]) && ReadyBut(w, k)
    requires StepKeeps(w.ops[k], s, lim) && !s.Bindings?
    requires Evolves(w.ops[k], s.op) && SameRun(w.ops[k], s.op) && s.op.Pending()
    requires s.op.walking ==> s.op.showing == None
    ensures var r := Resolve(w, k, s, done, lim);
            Inv(r, lim) && Tame(w, r) && AllReady(r) && (Waits(r.ops[k]) ==> !r.ops[k].sent)
  {
    hide Inv, Evolves, OpInv, Finishing, Tame, FinishOp, ReadyBut;
    match s
    case Finish(op, outcome) =>
      LegalFinish(w.ops[k], op, outcome, lim);
      ResolveFinish(w, k, op, outcome, done, lim);
    case Continue(op) => ResolveContinue(w, k, op, lim);
  }

  /** Whatever the completion handler does, the finished operation is not waiting under its old ID. */
  lemma {:induction false} FinishReleases(w: World, k: nat, op: Op, outcome: Status, done: seq<Act>, lim: Limits)
    requires Inv(w, lim) && k < |w.ops| && Ended(Finished(op, outcome), lim) && outcome != Status.Pending
    requires IdFits(w, k, op.id)
    ensures !Waits(FinishOp(w, k, op, outcome, done, lim).ops[k])
  {
    hide OpInv, Evolves;
    ReleaseKeeps(w, k, op, outcome, lim);
    var released := Release(w, k, op, outcome);
    RunActsKeeps(released, done, lim);
    assert Quiet(released.ops[k], RunActs(released, done, lim).ops[k]);
  }

  // ----- the binding loop of a walk -----

  ghost predicate NamedBindings(bs: seq<Binding>, lim: Limits) {
    forall i :: 0 <= i < |bs| ==> Canonical(bs[i].name) && |bs[i].name| < lim.oidText
  }

  ghost predicate AllOffered(replies: seq<Message>, bs: seq<Binding>) {
    forall i :: 0 <= i < |bs| ==> Offered(replies, bs[i])
  }

  lemma {:induction false} FirstOffered(replies: seq<Message>, bs: seq<Binding>)
    requires bs != [] && AllOffered(replies, bs)
    ensures Offered(replies, bs[0]) && AllOffered(replies, bs[1..])
  {
    hide Offered;
  }

  lemma {:induction false} LastOffered(replies: seq<Message>)
    requires replies != [] && replies[|replies| - 1].errorStatus == 0
    ensures AllOffered(replies, replies[|replies| - 1].bindings)
  {
    var r := |replies| - 1;
    forall i | 0 <= i < |replies[r].bindings|
      ensures Offered(replies, replies[r].bindings[i])
    {}
  }

  /** A walk in the middle of a reply. */
  ghost predicate Reading(op: Op) {
    Waits(op) && op.walking && op.sent && op.answered && op.showing == None
  }

  lemma {:induction false} PutAnswered(w: World, k: nat, op: Op, lim: Limits)
    requires Inv(w, lim) && k < |w.ops| && w.ops[k].Pending()
    requires OpInv(op, lim) && op.Pending() && op.answered
    requires Evolves(w.ops[k], op) && SameRun(w.ops[k], op)
    requires Waits(w.ops[k])
    ensures var r := Put(w, k, op); Inv(r, lim) && Tame(w, r)
    ensures ReadyBut(w, k) ==> ReadyBut(Put(w, k, op), k)
  {
    IdsOkFits(w, k);
    TamePut(w, k, op);
    hide Evolves, OpInv, Ready;
    PutKeeps(w, k, op, lim);
  }

  /** A refused value ends the run, whether or not the callback has already done so itself. */
  lemma {:induction false} RefusedFinish(op: Op, outcome: Status, lim: Limits)
    requires OpInv(op, lim) && op.walking && outcome != Status.Pending
    ensures Ended(Finished(op, outcome), lim) && Evolves(op, Finished(op, outcome))
  {
    if op.Pending() {
      BusyFinishes(op, outcome, lim);
      LegalFinish(op, op, outcome, lim) by { EvolvesSame(op); }
    } else {
      RefusedIdle(op, outcome, lim);
    }
  }

  lemma {:induction false} RefusedIdle(op: Op, outcome: Status, lim: Limits)
    requires OpInv(op, lim) && op.walking && outcome != Status.Pending && !op.Pending()
    ensures Ended(Finished(op, outcome), lim) && Evolves(op, Finished(op, outcome))
  {
    hide SettleAll, DoneInv, NamedCells, BusyInv, Startable, ValidDevice, Canonical;
    if op.settled {
      FinishedWalk(op, outcome, lim);
    }
    SettledNames(op.cells, outcome, lim);
  }

  /** The world while a streaming callback runs, and after it. */
  lemma {:induction false} ShowKeeps(w: World, k: nat, cell: Cell, acts: seq<Act>, lim: Limits)
    requires Inv(w, lim) && k < |w.ops| && Reading(w.ops[k]) && ReadyBut(w, k)
    requires OpInv(Shown(w.ops[k], cell), lim)
    ensures var w1 := RunActs(Put(w, k, Shown(w.ops[k], cell)), acts, lim);
            && Inv(w1, lim) && Tame(w, w1) && ReadyBut(w1, k)
            && (Waits(w1.ops[k]) ==> w1.ops[k] == Shown(w.ops[k], cell))
            && (!Waits(w1.ops[k]) ==> AllReady(w1))
            && w1.ops[k].walking
  {
    hide Inv, Tame, Evolves, OpInv, ReadyBut, Shown, RunActs, Calm, SameRun;
    var op := Shown(w.ops[k], cell);
    ShownEvolves(w.ops[k], cell);
    PutAnswered(w, k, op, lim);
    var w0 := Put(w, k, op);
    RunActsKeeps(w0, acts, lim);
    var w1 := RunActs(w0, acts, lim);
    CalmIsTame(w0, w1);
    TameTransitive(w, w0, w1);
    CalmReady(w0, w1, k, lim);
    CalmWalking(w0, w1, k);
  }

  lemma {:induction false} ShownEvolves(op: Op, cell: Cell)
    ensures Evolves(op, Shown(op, cell)) && SameRun(op, Shown(op, cell))
    ensures var s := Shown(op, cell);
            s.Pending() == op.Pending() && s.answered == op.answered && s.walking == op.walking
  {}

  lemma {:induction false} CalmWalking(w: World, r: World, k: nat)
    requires Calm(w, r) && k < |w.ops|
    ensures |r.ops| == |w.ops| && r.ops[k].walking == w.ops[k].walking && Quiet(w.ops[k], r.ops[k])
  {
    assert Evolves(w.ops[k], r.ops[k]);
  }

  lemma {:induction false} AdvanceEvolves(op: Op, cell: Cell)
    requires op.Pending() && op.walking
    ensures Evolves(op, Collected(op, cell)) && SameRun(op, Collected(op, cell))
    ensures Evolves(op, Advanced(op, cell)) && SameRun(op, Advanced(op, cell))
  {}

  lemma {:induction false} WalkEndEvolves(op: Op, any: bool)
    requires op.Pending() && op.walking && op.showing == None
    ensures var o := StepOp(WalkEnd(op, any)); Evolves(op, o) && SameRun(op, o) && o.Pending() && o.showing == None
  {}

  lemma {:induction false} WalkLoopShown(w: World, k: nat, bs: seq<Binding>, any: bool, shows: seq<Show>,
                                         done: seq<Act>, lim: Limits)
    requires k < |w.ops| && bs != [] && w.ops[k].streaming && VisitBinding(w.ops[k], bs[0], lim).Deliver?
    ensures var op, cell, show := w.ops[k], VisitBinding(w.ops[k], bs[0], lim).cell, FirstShow(shows);
            var w1 := RunActs(Put(w, k, Shown(op, cell)), show.acts, lim);
            WalkLoop(w, k, bs, any, shows, done, lim) ==
            if !show.accept then FinishOp(w1, k, w1.ops[k], CapacityExceeded, done, lim)
            else if !w1.ops[k].Pending() || w1.ops[k].id != op.id then w1
            else WalkLoop(Put(w1, k, Advanced(w1.ops[k], cell)), k, bs[1..], true, LaterShows(shows), done, lim)
  {}

  lemma {:induction false} WalkLoopCollected(w: World, k: nat, bs: seq<Binding>, any: bool, shows: seq<Show>,
                                             done: seq<Act>, lim: Limits)
    requires k < |w.ops| && bs != [] && !w.ops[k].streaming && VisitBinding(w.ops[k], bs[0], lim).Deliver?
    ensures var op, cell := w.ops[k], VisitBinding(w.ops[k], bs[0], lim).cell;
            WalkLoop(w, k, bs, any, shows, done, lim) ==
            if |op.cells| == op.capacity then FinishOp(w, k, op, CapacityExceeded, done, lim)
            else WalkLoop(Put(w, k, Collected(op, cell)), k, bs[1..], true, shows, done, lim)
  {}

  lemma {:induction false} WalkLoopOver(w: World, k: nat, bs: seq<Binding>, any: bool, shows: seq<Show>,
                                        done: seq<Act>, lim: Limits)
    requires k < |w.ops|
    ensures bs == [] ==> WalkLoop(w, k, bs, any, shows, done, lim) == Resolve(w, k, WalkEnd(w.ops[k], any), done, lim)
    ensures bs != [] && VisitBinding(w.ops[k], bs[0], lim).Stop? ==>
              WalkLoop(w, k, bs, any, shows, done, lim) ==
              FinishOp(w, k, w.ops[k], VisitBinding(w.ops[k], bs[0], lim).outcome, done, lim)
  {}

  lemma {:induction false} WalkLoopKeeps(w: World, k: nat, bs: seq<Binding>, any: bool, shows: seq<Show>,
                                         done: seq<Act>, lim: Limits)
    requires Inv(w, lim) && k < |w.ops| && Reading(w.ops[k]) && ReadyBut(w, k) && NamedBindings(bs, lim)
    requires AllOffered(w.ops[k].replies, bs)
    ensures var r := WalkLoop(w, k, bs, any, shows, done, lim); Inv(r, lim) && Tame(w, r) && AllReady(r)
    decreases |bs|, 1
  {
    hide Inv, Tame, Evolves, OpInv, Ready, ReadyBut, VisitBinding, WalkEnd, FinishOp, Resolve, WalkLoop, Finished,
      AllOffered;
    InvOp(w, k, lim);
    var op := w.ops[k];
    WalkLoopOver(w, k, bs, any, shows, done, lim);
    if bs == [] {
      WalkEndKeeps(op, any, lim);
      WalkEndEvolves(op, any);
      ResolveKeeps(w, k, WalkEnd(op, any), done, lim);
    } else if VisitBinding(op, bs[0], lim).Stop? {
      StopOutcome(op, bs[0], lim);
      RefusedFinish(op, VisitBinding(op, bs[0], lim).outcome, lim);
      ResolveFinish(w, k, op, VisitBinding(op, bs[0], lim).outcome, done, lim);
    } else if op.streaming {
      StreamedKeeps(w, k, bs, any, shows, done, lim);
    } else {
      CollectedKeeps(w, k, bs, any, shows, done, lim);
    }
  }

  lemma {:induction false} FirstNamed(bs: seq<Binding>, lim: Limits)
    requires bs != [] && NamedBindings(bs, lim)
    ensures Canonical(bs[0].name) && |bs[0].name| < lim.oidText && NamedBindings(bs[1..], lim)
  {}

  lemma {:induction false} CollectedKeeps(w: World, k: nat, bs: seq<Binding>, any: bool, shows: seq<Show>,
                                          done: seq<Act>, lim: Limits)
    requires Inv(w, lim) && k < |w.ops| && Reading(w.ops[k]) && ReadyBut(w, k) && NamedBindings(bs, lim)
    requires AllOffered(w.ops[k].replies, bs)
    requires bs != [] && !w.ops[k].streaming && VisitBinding(w.ops[k], bs[0], lim).Deliver?
    ensures var r := WalkLoop(w, k, bs, any, shows, done, lim); Inv(r, lim) && Tame(w, r) && AllReady(r)
    decreases |bs|, 0
  {
    InvOp(w, k, lim);
    var op, cell := w.ops[k], VisitBinding(w.ops[k], bs[0], lim).cell;
    FirstNamed(bs, lim);
    FirstOffered(op.replies, bs);
    WalkLoopCollected(w, k, bs, any, shows, done, lim);
    CapacityLeft(op, lim);
    DeliverKeeps(op, bs[0], lim);
    AdvanceEvolves(op, cell);
    hide Inv, Tame, Evolves, OpInv, Ready, ReadyBut, VisitBinding, FinishOp, WalkLoop, Finished, NamedBindings,
      AllOffered;
    if |op.cells| == op.capacity {
      RefusedFinish(op, CapacityExceeded, lim);
      ResolveFinish(w, k, op, CapacityExceeded, done, lim);
    } else {
      var next := Collected(op, cell);
      PutAnswered(w, k, next, lim);
      var w1 := Put(w, k, next);
      WalkLoopKeeps(w1, k, bs[1..], true, shows, done, lim);
      TameTransitive(w, w1, WalkLoop(w1, k, bs[1..], true, shows, done, lim));
    }
  }

  lemma {:induction false} StreamedKeeps(w: World, k: nat, bs: seq<Binding>, any: bool, shows: seq<Show>,
                                         done: seq<Act>, lim: Limits)
    requires Inv(w, lim) && k < |w.ops| && Reading(w.ops[k]) && ReadyBut(w, k) && NamedBindings(bs, lim)
    requires AllOffered(w.ops[k].replies, bs)
    requires bs != [] && w.ops[k].streaming && VisitBinding(w.ops[k], bs[0], lim).Deliver?
    ensures var r := WalkLoop(w, k, bs, any, shows, done, lim); Inv(r, lim) && Tame(w, r) && AllReady(r)
    decreases |bs|, 0
  {
    InvOp(w, k, lim);
    var op, cell := w.ops[k], VisitBinding(w.ops[k], bs[0], lim).cell;
    FirstNamed(bs, lim);
    FirstOffered(op.replies, bs);
    WalkLoopShown(w, k, bs, any, shows, done, lim);
    DeliverKeeps(op, bs[0], lim);
    hide Inv, Tame, Evolves, OpInv, Ready, ReadyBut, VisitBinding, FinishOp, WalkLoop, RunActs, Finished,
      NamedBindings, AllOffered;
    var show := FirstShow(shows);
    ShowKeeps(w, k, cell, show.acts, lim);
    var w1 := RunActs(Put(w, k, Shown(op, cell)), show.acts, lim);
    if !show.accept {
      InvOp(w1, k, lim);
      RefusedFinish(w1.ops[k], CapacityExceeded, lim);
      ResolveFinish(w1, k, w1.ops[k], CapacityExceeded, done, lim);
      TameTransitive(w, w1, FinishOp(w1, k, w1.ops[k], CapacityExceeded, done, lim));
    } else if w1.ops[k].Pending() && w1.ops[k].id == op.id {
      assert w1.ops[k] == Shown(op, cell);
      var next := Advanced(w1.ops[k], cell);
      AdvanceEvolves(w1.ops[k], cell);
      PutAnswered(w1, k, next, lim);
      var w2 := Put(w1, k, next);
      WalkLoopKeeps(w2, k, bs[1..], true, LaterShows(shows), done, lim);
      TameTransitive(w1, w2, WalkLoop(w2, k, bs[1..], true, LaterShows(shows), done, lim));
      TameTransitive(w, w1, WalkLoop(w2, k, bs[1..], true, LaterShows(shows), done, lim));
    }
  }

  lemma {:induction false} InvOp(w: World, k: nat, lim: Limits)
    requires Inv(w, lim) && k < |w.ops|
    ensures OpInv(w.ops[k], lim)
  {}

  lemma {:induction false} StopOutcome(op: Op, b: Binding, lim: Limits)
    requires VisitBinding(op, b, lim).Stop?
    ensures VisitBinding(op, b, lim).outcome != Status.Pending
  {}

  lemma {:induction false} CapacityLeft(op: Op, lim: Limits)
    requires OpInv(op, lim) && op.Pending() && op.walking
    ensures |op.cells| <= op.capacity
  {}
}

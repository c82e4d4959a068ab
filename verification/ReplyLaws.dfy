/** What matched replies do to an operation, and that nothing settled in a run is ever rewritten. */
module ReplyLaws {
  import opened Bytes
  import opened Oids
  import opened OidOrder
  import opened Trees
  import opened Messages
  import opened Values
  import opened Operations
  import opened OperationLaws

  // ----- reads and writes -----

  lemma {:induction false} BackedGrows(cells: seq<Cell>, replies: seq<Message>, m: Message, lim: Limits)
    requires AllBacked(cells, replies, lim)
    ensures AllBacked(cells, replies + [m], lim)
  {
    hide CopyValue;
    forall i | 0 <= i < |cells| && cells[i].Ok()
      ensures Backed(cells[i], replies + [m], lim)
    {
      var c := cells[i];
      assert Backed(c, replies, lim);
      var r, j :| 0 <= r < |replies| && 0 <= j < |replies[r].bindings|
                  && replies[r].bindings[j].name == c.oid
                  && CopyValue(replies[r].bindings[j].value, lim) == (Success, c.value)
                  && (c.expected != NULLTYPE ==> c.expected == c.value.tag);
      assert (replies + [m])[r] == replies[r];
    }
  }

  lemma {:induction false} FoundGrows(c: Cell, replies: seq<Message>, m: Message, lim: Limits)
    requires Found(c, replies, lim)
    ensures Found(c, replies + [m], lim)
  {
    hide CopyValue;
    var r, j :| 0 <= r < |replies| && 0 <= j < |replies[r].bindings| && replies[r].errorStatus == 0
                && replies[r].bindings[j].name == c.oid && replies[r].bindings[j].value.Tag() != ENDOFMIBVIEW
                && CopyValue(replies[r].bindings[j].value, lim) == (c.status, c.value);
    assert (replies + [m])[r] == replies[r];
  }

  lemma {:induction false} NotedGathering(op: Op, m: Message, lim: Limits)
    requires Gathering(op, lim)
    ensures Gathering(Noted(op, m), lim)
  {
    hide Found, NamesOf;
    forall i | 0 <= i < |op.taken|
      ensures Found(op.taken[i], op.replies + [m], lim)
    {
      FoundGrows(op.taken[i], op.replies, m, lim);
    }
  }

  lemma {:induction false} NotedKeeps(op: Op, m: Message, lim: Limits)
    requires op.Pending() && OpInv(op, lim)
    ensures OpInv(Noted(op, m), lim) && Noted(op, m).Pending()
  {
    hide Canonical, NamedCells, AllBacked, Chain, Log2, MaxIds, SettledUpTo, ValidDevice, NamesOf, Gathering;
    if op.walking {
      NotedGathering(op, m, lim);
    } else {
      BackedGrows(op.cells, op.replies, m, lim);
    }
  }

  lemma {:induction false} MissingCell(cells: seq<Cell>, offset: nat, replies: seq<Message>, lim: Limits)
    requires offset < |cells| && SettledUpTo(cells, offset) && AllBacked(cells, replies, lim) && NamedCells(cells, lim)
    ensures var next := cells[offset := cells[offset].(status := Missing)];
            && SettledUpTo(next, offset + 1) && AllBacked(next, replies, lim) && NamedCells(next, lim)
            && !AllOk(next)
  {
    hide Canonical;
    var next := cells[offset := cells[offset].(status := Missing)];
    forall i | 0 <= i < |next| && next[i].Ok()
      ensures Backed(next[i], replies, lim)
    {
      assert next[i] == cells[i];
    }
    assert NamedCell(cells[offset], lim);
    assert !next[offset].Ok();
  }

  /** Settling one more cell, or giving up an unanswered ID, keeps the traffic measure. */
  lemma {:induction false} ProgressKeeps(op: Op, next: Op)
    requires op.offset < |op.cells| && op.batchLimit > 0 && TrafficInv(op) && op.sent
    requires |next.cells| == |op.cells| && op.offset < next.offset <= |next.cells| && next.batchLimit == op.batchLimit
    requires next.ids == op.ids && next.sends == op.sends && next.dev == op.dev && !next.sent && next.attempts == 0
    ensures TrafficInv(next)
    ensures next.ids <= MaxIds(|next.cells|) && next.sends <= next.ids * (next.dev.retries + 1)
  {
    hide Log2;
    RepeatedProduct(op.ids - 1, op.ids, op.dev.retries);
    assert op.ids + (|op.cells| - next.offset) + Log2(op.batchLimit) <= MaxIds(|op.cells|);
  }

  lemma {:induction false} NoSuchNameKeeps(op: Op, lim: Limits)
    requires op.Pending() && OpInv(op, lim) && op.sent && !op.walking && op.mode == GET
    ensures StepKeeps(op, NoSuchName(op), lim)
  {
    hide Canonical, NamedCells, AllBacked, Chain, Log2, MaxIds, SettledUpTo, ValidDevice, NamesOf, AllOk;
    if op.batch > 1 {
      LimitOne(op);
      ShrinkKeeps(op, 1, lim);
    } else {
      MissingCell(op.cells, op.offset, op.replies, lim);
      var next := op.(cells := op.cells[op.offset := op.cells[op.offset].(status := Missing)], offset := op.offset + 1);
      ProgressKeeps(op, Again(next));
    }
  }

  lemma {:induction false} LimitOne(op: Op)
    requires 1 < op.batch <= op.batchLimit
    ensures Log2(1) + 1 <= Log2(op.batchLimit)
  {
    assert Log2(op.batchLimit) == 1 + Log2(op.batchLimit / 2);
  }

  /** The three ways on from a reply are all sound: a legal finish, a new request, or a look at the bindings. */
  ghost predicate StepKeeps(op: Op, s: Step, lim: Limits) {
    match s
    case Finish(o, outcome) => Finishing(o, outcome, lim)
    case Continue(o) => OpInv(o, lim) && o.Pending() && !o.sent
    case Bindings(o) => OpInv(o, lim) && o.Pending() && o.sent
  }

  lemma {:induction false} ReplyHeadKeeps(op: Op, m: Message, lim: Limits)
    requires op.Pending() && OpInv(op, lim) && op.sent
    ensures StepKeeps(op, ReplyHead(op, m), lim)
    ensures ReplyHead(op, m).Bindings? ==> ReplyHead(op, m).op == Noted(op, m) && m.errorStatus == 0
  {
    NotedKeeps(op, m, lim);
    var o := Noted(op, m);
    hide OpInv, NoSuchName, Finishing;
    var s := ReplyHead(op, m);
    if s.Finish? && s.op == o && (o.walking || s.outcome != Success) && s.outcome != Status.Pending {
      BusyFinishes(o, s.outcome, lim);
    } else if !o.walking && o.mode == GET && m.errorStatus == 2 && o.dev.version == 0 {
      NoSuchNameKeeps(o, lim);
    } else if m.errorStatus == 1 && o.batch > 1 && o.mode != SET {
      BatchFacts(o, lim);
      Halved(o.batch, o.batchLimit);
      ShrinkKeeps(o, o.batch / 2, lim);
    } else if s.Continue? {
      FallbackKeeps(o, lim);
    }
  }

  lemma {:induction false} BatchFacts(op: Op, lim: Limits)
    requires op.Pending() && OpInv(op, lim) && op.sent
    ensures op.walking ==> op.batch == 1
    ensures !op.walking ==>
              1 <= op.batch <= op.batchLimit && op.offset < |op.cells| && op.offset + op.batch <= |op.cells|
  {}

  /** A walk that gives up bulk requests keeps its cursor and everything delivered. */
  lemma {:induction false} FallbackKeeps(op: Op, lim: Limits)
    requires op.Pending() && OpInv(op, lim) && op.walking
    ensures OpInv(Again(op.(mode := GETNEXT)), lim)
    ensures OpInv(Again(op), lim)
  {
    hide Canonical, NamedCells, Chain, ValidDevice, NamesOf;
  }

  // ----- committing a batch -----

  /** `next` is `cells` with the bindings committed from `offset` on. */
  ghost predicate CommittedFrom(cells: seq<Cell>, next: seq<Cell>, offset: nat, bs: seq<Binding>, lim: Limits) {
    |next| == |cells| && forall i :: 0 <= i < |cells| ==>
      next[i] == if offset <= i < offset + |bs| then CommitCell(cells[i], bs[i - offset], lim) else cells[i]
  }

  lemma {:induction false} CommitIsFrom(cells: seq<Cell>, offset: nat, end: nat, bs: seq<Binding>, lim: Limits)
    requires offset <= end <= |cells| && |bs| == end - offset
    ensures CommittedFrom(cells, cells[..offset] + CommitCells(cells[offset..end], bs, lim) + cells[end..],
                          offset, bs, lim)
  {
    hide CommitCell;
  }

  lemma {:induction false} CommittedNames(cells: seq<Cell>, next: seq<Cell>, offset: nat, bs: seq<Binding>, lim: Limits)
    requires CommittedFrom(cells, next, offset, bs, lim) && NamedCells(cells, lim)
    ensures NamedCells(next, lim)
  {
    hide Canonical, CopyValue;
    forall i | 0 <= i < |next|
      ensures NamedCell(next[i], lim)
    {
      assert NamedCell(cells[i], lim);
    }
  }

  lemma {:induction false} CommittedSettles(cells: seq<Cell>, next: seq<Cell>, offset: nat, bs: seq<Binding>,
                                            lim: Limits)
    requires CommittedFrom(cells, next, offset, bs, lim) && SettledUpTo(cells, offset) && offset + |bs| <= |cells|
    ensures SettledUpTo(next, offset + |bs|)
  {
    hide CommitCell;
    forall i | 0 <= i < |next|
      ensures next[i].status == Status.Pending <==> offset + |bs| <= i
    {
      if offset <= i < offset + |bs| {
        CommittedSettled(cells[i], bs[i - offset], lim);
      }
    }
  }

  lemma {:induction false} CommittedBacks(cells: seq<Cell>, next: seq<Cell>, offset: nat, m: Message,
                                          replies: seq<Message>, lim: Limits)
    requires CommittedFrom(cells, next, offset, m.bindings, lim) && offset + |m.bindings| <= |cells|
    requires forall i :: 0 <= i < |m.bindings| ==> m.bindings[i].name == cells[offset + i].oid
    requires AllBacked(cells, replies, lim) && |replies| > 0 && replies[|replies| - 1] == m
    ensures AllBacked(next, replies, lim)
  {
    hide CommitCell, Backed;
    forall i | 0 <= i < |next| && next[i].Ok()
      ensures Backed(next[i], replies, lim)
    {
      if offset <= i < offset + |m.bindings| {
        assert m.bindings[i - offset].name == cells[offset + (i - offset)].oid;
        CommittedBacked(cells[i], m.bindings[i - offset], replies, i - offset, lim);
      }
    }
  }

  lemma {:induction false} CommittedCells(cells: seq<Cell>, offset: nat, end: nat, m: Message, replies: seq<Message>,
                                          lim: Limits)
    requires offset <= end <= |cells| && |m.bindings| == end - offset
    requires forall i :: 0 <= i < end - offset ==> m.bindings[i].name == cells[offset + i].oid
    requires SettledUpTo(cells, offset) && AllBacked(cells, replies, lim) && NamedCells(cells, lim)
    requires |replies| > 0 && replies[|replies| - 1] == m
    ensures var next := cells[..offset] + CommitCells(cells[offset..end], m.bindings, lim) + cells[end..];
            && |next| == |cells| && SettledUpTo(next, end) && AllBacked(next, replies, lim) && NamedCells(next, lim)
  {
    hide CommittedFrom, SettledUpTo, AllBacked, NamedCells, CommitCells;
    var next := cells[..offset] + CommitCells(cells[offset..end], m.bindings, lim) + cells[end..];
    CommitIsFrom(cells, offset, end, m.bindings, lim);
    CommittedNames(cells, next, offset, m.bindings, lim);
    CommittedSettles(cells, next, offset, m.bindings, lim);
    CommittedBacks(cells, next, offset, m, replies, lim);
  }

  lemma {:induction false} CommittedSettled(c: Cell, b: Binding, lim: Limits)
    ensures CommitCell(c, b, lim).status != Status.Pending && CommitCell(c, b, lim).oid == c.oid
  {}

  lemma {:induction false} CommittedBacked(c: Cell, b: Binding, replies: seq<Message>, i: nat, lim: Limits)
    requires b.name == c.oid && |replies| > 0
    requires i < |replies[|replies| - 1].bindings| && replies[|replies| - 1].bindings[i] == b
    requires CommitCell(c, b, lim).Ok()
    ensures Backed(CommitCell(c, b, lim), replies, lim)
  {
    hide CopyValue;
    var r := |replies| - 1;
    assert replies[r].bindings[i].name == c.oid;
  }

  lemma {:induction false} CommitKeeps(op: Op, m: Message, lim: Limits)
    requires op.Pending() && OpInv(op, lim) && op.sent && !op.walking
    requires |op.replies| > 0 && op.replies[|op.replies| - 1] == m
    ensures StepKeeps(op, Commit(op, m, lim), lim)
    ensures !Commit(op, m, lim).Bindings?
  {
    hide Canonical, NamedCells, AllBacked, Log2, MaxIds, SettledUpTo, ValidDevice, AllOk;
    BatchFacts(op, lim);
    if !Complete(op, m) {
      BusyFinishes(op, ProtocolError, lim);
    } else {
      var end := op.offset + op.batch;
      CommittedCells(op.cells, op.offset, end, m, op.replies, lim);
      var cells := op.cells[..op.offset] + CommitCells(op.cells[op.offset..end], m.bindings, lim) + op.cells[end..];
      var next := Again(op.(cells := cells, offset := end));
      ProgressKeeps(op, next);
      VerdictSound(cells);
    }
  }

  lemma {:induction false} VerdictSound(cells: seq<Cell>)
    requires cells != []
    ensures Verdict(cells) == Success <==> AllOk(cells)
    ensures SettledUpTo(cells, |cells|) ==> Verdict(cells) != Status.Pending
  {
    if |cells| == 1 && !AllOk(cells) {
      assert !cells[0].Ok();
    }
  }

  // ----- walks -----

  lemma {:induction false} ChainSnoc(root: Text, names: seq<Text>, name: Text)
    requires Chain(root, names) && Canonical(name) && Under(root, name)
    requires Canonical(root) && Compare(name, Last(root, names)) > 0
    ensures Chain(root, names + [name])
  {
    hide Canonical, Under, Lex, ArcsOf;
    var more := names + [name];
    forall i, j | 0 <= i < j < |more|
      ensures Compare(more[i], more[j]) < 0
    {
      if j == |names| {
        LexSwap(ArcsOf(name), ArcsOf(Last(root, names)));
        if i < |names| - 1 {
          BelowTransitive(ArcsOf(more[i]), ArcsOf(Last(root, names)), ArcsOf(name));
        }
      }
    }
  }

  /** The binding came with a successful reply. */
  ghost predicate Offered(replies: seq<Message>, b: Binding) {
    exists r, i :: 0 <= r < |replies| && 0 <= i < |replies[r].bindings| && replies[r].errorStatus == 0
                   && replies[r].bindings[i] == b
  }

  lemma {:induction false} OfferedFound(op: Op, b: Binding, lim: Limits)
    requires Offered(op.replies, b) && VisitBinding(op, b, lim).Deliver?
    ensures Found(VisitBinding(op, b, lim).cell, op.replies, lim)
  {
    hide CopyValue, Compare, Under;
    var r, i :| 0 <= r < |op.replies| && 0 <= i < |op.replies[r].bindings| && op.replies[r].errorStatus == 0
                && op.replies[r].bindings[i] == b;
    assert op.replies[r].bindings[i].name == b.name;
  }

  /** One more cell taken. */
  lemma {:induction false} TakenGathering(op: Op, cell: Cell, lim: Limits)
    requires Gathering(op, lim) && Found(cell, op.replies, lim)
    ensures op.streaming ==> Gathering(Shown(op, cell), lim) && Gathering(Advanced(Shown(op, cell), cell), lim)
    ensures !op.streaming ==> Gathering(Collected(op, cell), lim)
  {
    hide Found;
  }

  /** A binding that is delivered extends the chain: it is new, greater and below the root. */
  lemma {:induction false} DeliverKeeps(op: Op, b: Binding, lim: Limits)
    requires op.Pending() && OpInv(op, lim) && op.walking && op.showing == None && op.id != 0
    requires Canonical(b.name) && |b.name| < lim.oidText && Offered(op.replies, b)
    requires VisitBinding(op, b, lim).Deliver?
    ensures var cell := VisitBinding(op, b, lim).cell;
            && cell.oid == b.name
            && (op.streaming ==> OpInv(Shown(op, cell), lim) && OpInv(Advanced(Shown(op, cell), cell), lim))
            && (!op.streaming && |op.cells| < op.capacity ==> OpInv(Collected(op, cell), lim))
  {
    hide Canonical, Under, Compare, CopyValue, ValidDevice;
    var cell := VisitBinding(op, b, lim).cell;
    VisitFacts(op, b, lim);
    OfferedFound(op, b, lim);
    TakenGathering(op, cell, lim);
    CompareSwapped(b.name, op.cursor);
    ChainSnoc(op.root, op.delivered, b.name);
    hide Chain, Gathering, VisitBinding, Found, Offered, NamedCells, OpInv, Advanced, Collected, Shown;
    if op.streaming {
      StreamedInv(op, cell, lim);
    } else if |op.cells| < op.capacity {
      CollectedInv(op, cell, lim);
    }
  }

  lemma {:induction false} StreamedInv(op: Op, cell: Cell, lim: Limits)
    requires op.Pending() && OpInv(op, lim) && op.walking && op.showing == None && op.id != 0 && op.streaming
    requires Chain(op.root, op.delivered + [cell.oid]) && |cell.oid| < lim.oidText
    requires Gathering(Shown(op, cell), lim) && Gathering(Advanced(Shown(op, cell), cell), lim)
    ensures OpInv(Shown(op, cell), lim) && OpInv(Advanced(Shown(op, cell), cell), lim)
  {
    hide Chain, Gathering, NamedCells, Canonical, ValidDevice;
  }

  lemma {:induction false} CollectedInv(op: Op, cell: Cell, lim: Limits)
    requires op.Pending() && OpInv(op, lim) && op.walking && op.showing == None && op.id != 0 && !op.streaming
    requires Chain(op.root, op.delivered + [cell.oid]) && |cell.oid| < lim.oidText && |op.cells| < op.capacity
    requires Gathering(Collected(op, cell), lim) && Canonical(cell.oid)
    ensures OpInv(Collected(op, cell), lim)
  {
    CollectedNames(op, cell, lim);
    hide Chain, Gathering, NamedCells, Canonical, ValidDevice;
  }

  lemma {:induction false} CollectedNames(op: Op, cell: Cell, lim: Limits)
    requires NamedCells(op.cells, lim) && Canonical(cell.oid) && |cell.oid| < lim.oidText
    ensures NamedCells(Collected(op, cell).cells, lim)
  {
    hide Canonical;
    var next := Collected(op, cell);
    forall i | 0 <= i < |next.cells|
      ensures NamedCell(next.cells[i], lim)
    {
      if i < |op.cells| {
        assert NamedCell(op.cells[i], lim);
      }
    }
  }

  lemma {:induction false} VisitFacts(op: Op, b: Binding, lim: Limits)
    requires VisitBinding(op, b, lim).Deliver?
    ensures Compare(b.name, op.cursor) > 0 && Under(op.root, b.name)
    ensures VisitBinding(op, b, lim).cell.oid == b.name
  {}

  lemma {:induction false} CompareSwapped(a: Text, b: Text)
    ensures Compare(a, b) == -Compare(b, a)
  {
    LexSwap(ArcsOf(a), ArcsOf(b));
  }

  lemma {:induction false} WalkEndKeeps(op: Op, any: bool, lim: Limits)
    requires op.Pending() && OpInv(op, lim) && op.walking && op.sent
    ensures StepKeeps(op, WalkEnd(op, any), lim)
    ensures !WalkEnd(op, any).Bindings?
  {
    hide OpInv, Finishing;
    FallbackKeeps(op, lim);
    BusyFinishes(op, ProtocolError, lim);
  }

  // ----- nothing settled is rewritten -----

  /**
   * What one run can do to an operation. Until the next accepted start, names stay, cells in front of the
   * offset stay, a completed result stays, and the names delivered by a walk only grow at the end.
   */
  ghost predicate Evolves(a: Op, b: Op) {
    && a.run <= b.run
    && (a.run == b.run && !a.walking ==> CellsKept(a, b))
    && (a.run == b.run && a.walking ==> a.delivered <= b.delivered && a.taken <= b.taken)
    && a.walking == b.walking
    && (a.run == b.run && b.Pending() ==> a.Pending())
  }

  ghost predicate CellsKept(a: Op, b: Op) {
    && a.offset <= b.offset
    && |a.cells| <= |b.cells|
    && (forall i :: 0 <= i < |a.cells| ==> b.cells[i].oid == a.cells[i].oid)
    && (forall i :: 0 <= i < |a.cells| && (i < a.offset || !a.Pending()) ==> b.cells[i] == a.cells[i])
  }

  lemma {:induction false} SameCellsKept(a: Op, b: Op)
    requires b.cells == a.cells && a.offset <= b.offset
    ensures CellsKept(a, b)
  {}

  lemma {:induction false} EvolvesTransitive(a: Op, b: Op, c: Op)
    requires Evolves(a, b) && Evolves(b, c)
    ensures Evolves(a, c)
  {}

  lemma {:induction false} SettlingKeeps(cells: seq<Cell>, offset: nat, outcome: Status)
    requires SettledUpTo(cells, offset) || SettledUpTo(cells, |cells|)
    ensures forall i :: 0 <= i < |cells| && i < offset ==> SettleAll(cells, outcome)[i] == cells[i]
    ensures forall i :: 0 <= i < |cells| ==> SettleAll(cells, outcome)[i].oid == cells[i].oid
  {}

  lemma {:induction false} FinishEvolves(op: Op, outcome: Status, lim: Limits)
    requires Finishing(op, outcome, lim) && (op.walking || op.Pending())
    ensures Evolves(op, Finished(op, outcome))
  {
    hide NamedCells, AllBacked, AllOk, MaxIds, Shape, DoneInv, SettledUpTo, SettleAll;
    if !op.walking {
      SettlingKeeps(op.cells, op.offset, outcome);
    }
  }
}

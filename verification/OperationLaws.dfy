/** What every operation keeps: integrity of reads, single-shot writes, safe walks, bounded traffic. */
module OperationLaws {
  import opened Bytes
  import opened Header
  import opened Oids
  import opened OidOrder
  import opened Trees
  import opened Messages
  import opened Values
  import opened Operations

  // ----- configuration -----

  predicate NamedCell(c: Cell, lim: Limits) { Canonical(c.oid) && |c.oid| < lim.oidText }

  ghost predicate NamedCells(cells: seq<Cell>, lim: Limits) {
    forall i :: 0 <= i < |cells| ==> NamedCell(cells[i], lim)
  }

  /** What configuration establishes and nothing afterwards disturbs. */
  ghost predicate Shape(op: Op, lim: Limits) {
    && ValidDevice(op.dev, lim)
    && (!op.walking ==> op.mode == GET || op.mode == SET)
    && NamedCells(op.cells, lim)
    && (op.root != [] ==> Canonical(op.root) && |op.root| < lim.oidText)
  }

  // ----- reads and writes -----

  /** A usable cell carries the value that some matched reply bound to the cell's own OID. */
  ghost predicate Backed(c: Cell, replies: seq<Message>, lim: Limits) {
    exists r, i :: 0 <= r < |replies| && 0 <= i < |replies[r].bindings|
                   && replies[r].bindings[i].name == c.oid
                   && CopyValue(replies[r].bindings[i].value, lim) == (Success, c.value)
                   && (c.expected != NULLTYPE ==> c.expected == c.value.tag)
  }

  ghost predicate AllBacked(cells: seq<Cell>, replies: seq<Message>, lim: Limits) {
    forall i :: 0 <= i < |cells| && cells[i].Ok() ==> Backed(cells[i], replies, lim)
  }

  /** Cells before the offset are settled, the others are pending. */
  ghost predicate SettledUpTo(cells: seq<Cell>, offset: nat) {
    offset <= |cells| && forall i :: 0 <= i < |cells| ==> (cells[i].status == Status.Pending <==> offset <= i)
  }

  ghost predicate BatchInv(op: Op, lim: Limits) {
    && op.offset < |op.cells|
    && SettledUpTo(op.cells, op.offset)
    && AllBacked(op.cells, op.replies, lim)
    && 1 <= op.batchLimit <= |op.cells|
    && (op.sent ==> 1 <= op.batch <= op.batchLimit && op.offset + op.batch <= |op.cells|)
    && (op.mode == SET ==>
          && op.offset == 0 && op.batchLimit == |op.cells|
          && op.sends <= (if op.sent then 1 else 0)
          && (op.sent ==> op.batch == |op.cells|))
  }

  // ----- traffic -----

  function Log2(n: nat): nat
    requires n > 0
  {
    if n == 1 then 0 else 1 + Log2(n / 2)
  }

  lemma {:induction false} Log2Monotone(a: nat, b: nat)
    requires 0 < a <= b
    ensures Log2(a) <= Log2(b)
    decreases b
  {
    if a > 1 {
      Log2Monotone(a / 2, b / 2);
    }
  }

  /** Request IDs that one run of a query of n names may use. */
  function MaxIds(n: nat): nat { if n == 0 then 0 else n + Log2(n) }

  /** The measure: cells left to settle, halvings left, and whether the current ID is still unanswered. */
  ghost predicate TrafficInv(op: Op)
    requires op.offset <= |op.cells| && op.batchLimit > 0
  {
    && op.attempts <= op.dev.retries
    && (op.sent ==> op.ids >= 1)
    && op.ids + (|op.cells| - op.offset) + Log2(op.batchLimit) <= MaxIds(|op.cells|) + (if op.sent then 1 else 0)
    && op.sends <= (if op.sent then (op.ids - 1) * (op.dev.retries + 1) + op.attempts + 1
                    else op.ids * (op.dev.retries + 1))
  }

  // ----- walks -----

  /** Names strictly increase in numeric order and all lie strictly below the root. */
  ghost predicate Chain(root: Text, names: seq<Text>) {
    && (forall i :: 0 <= i < |names| ==> Canonical(names[i]) && Under(root, names[i]))
    && (forall i, j :: 0 <= i < j < |names| ==> Compare(names[i], names[j]) < 0)
  }

  function Last(root: Text, names: seq<Text>): Text {
    if names == [] then root else names[|names| - 1]
  }

  ghost predicate NamesOf(cells: seq<Cell>, names: seq<Text>) {
    |cells| == |names| && forall i :: 0 <= i < |cells| ==> cells[i].oid == names[i]
  }

  /** A cell that a walk took holds what some matched reply bound to its name. */
  ghost predicate Found(c: Cell, replies: seq<Message>, lim: Limits) {
    exists r, i :: 0 <= r < |replies| && 0 <= i < |replies[r].bindings| && replies[r].errorStatus == 0
                   && replies[r].bindings[i].name == c.oid && replies[r].bindings[i].value.Tag() != ENDOFMIBVIEW
                   && CopyValue(replies[r].bindings[i].value, lim) == (c.status, c.value)
  }

  /**
   * What a walk has taken: the names delivered, with values found in replies; a collecting walk keeps them as results.
   */
  ghost predicate Gathering(op: Op, lim: Limits) {
    && NamesOf(op.taken, op.delivered)
    && (forall i :: 0 <= i < |op.taken| ==> Found(op.taken[i], op.replies, lim))
    && (!op.streaming ==> op.cells == op.taken)
  }

  /** Everything a walk has shown so far. */
  function ShownNames(op: Op): seq<Text> {
    if op.showing.Some? then op.delivered + [op.showing.value] else op.delivered
  }

  ghost predicate WalkInv(op: Op, lim: Limits) {
    && op.root != []
    && (op.mode == GETNEXT || (op.mode == GETBULK && op.dev.version == 1))
    && Chain(op.root, ShownNames(op))
    && op.cursor == Last(op.root, op.delivered)
    && |op.cursor| < lim.oidText
    && op.offset == 0
    && (op.sent ==> op.batch == 1)
    && Gathering(op, lim) && (!op.streaming ==> op.showing == None)
    && |op.cells| <= op.capacity
  }

  /** A pending operation. */
  ghost predicate BusyInv(op: Op, lim: Limits) {
    if op.walking then WalkInv(op, lim) && (op.id == 0 ==> !op.sent && op.showing == None)
    else BatchInv(op, lim) && TrafficInv(op) && (op.id == 0 ==> op.ids == 0 && !op.sent)
  }

  /** An operation whose run has ended. */
  ghost predicate DoneInv(op: Op, lim: Limits) {
    if op.walking then Chain(op.root, ShownNames(op)) && Gathering(op, lim)
    else
      && op.cells != []
      && SettledUpTo(op.cells, |op.cells|)
      && AllBacked(op.cells, op.replies, lim)
      && (op.status == Success <==> AllOk(op.cells))
      && op.ids <= MaxIds(|op.cells|)
      && op.sends <= op.ids * (op.dev.retries + 1)
      && (op.mode == SET ==> op.sends <= 1)
  }

  /** A device that `schedule` accepts. */
  predicate Startable(d: Device) { d.status == Success && d.port != 0 && 0 < d.timeoutMs <= MAX_ID }

  ghost predicate OpInv(op: Op, lim: Limits) {
    && Shape(op, lim)
    && (op.Pending() ==> !op.completed && Startable(op.dev) && BusyInv(op, lim))
    && (op.settled ==> !op.Pending() && DoneInv(op, lim))
  }

  /** What a completion handler finds: the run is over, and what it left is accounted for. */
  ghost predicate Ended(op: Op, lim: Limits) {
    OpInv(op, lim) && !op.Pending() && (op.walking || op.settled)
  }

  // ----- configuring and starting -----

  lemma {:induction false} AddKeeps(op: Op, oid: Text, expected: byte, value: Option<Value>, lim: Limits)
    requires Shape(op, lim)
    ensures Shape(Add(op, oid, expected, value, lim).1, lim)
    ensures Add(op, oid, expected, value, lim).0 == Success ==>
              var r := Add(op, oid, expected, value, lim).1;
              && !r.Pending() && |r.cells| == |op.cells| + 1 && NamedCell(r.cells[|op.cells|], lim)
              && r.cells[..|op.cells|] == op.cells && Some(r.cells[|op.cells|].oid) == CanonicalForm(oid, lim)
              && (forall i :: 0 <= i < |op.cells| ==> op.cells[i].oid != r.cells[|op.cells|].oid)
    ensures Add(op, oid, expected, value, lim).0 != Success ==> Add(op, oid, expected, value, lim).1 == op
  {
    hide EncodeText, DecodeText, CheckValue, Canonical, NamedCell, ValidDevice;
    var c := EncodeText(oid, lim);
    if c.Some? && DecodeText(c.value, lim).Some? {
      DecodedName(c.value, lim);
      var name := DecodeText(c.value, lim).value;
      var v := if value.Some? then value.value else EMPTY;
      var cell := Cell(name, v, NotStarted, expected);
      assert NamedCell(cell, lim) by { CellName(cell, lim); }
      var r := Add(op, oid, expected, value, lim).1;
      assert r.cells == op.cells || r.cells == op.cells + [cell];
    }
  }

  lemma {:induction false} DecodedName(c: seq<byte>, lim: Limits)
    requires DecodeText(c, lim).Some?
    ensures Canonical(DecodeText(c, lim).value) && |DecodeText(c, lim).value| < lim.oidText
  {
    WireRoundTrip(c, lim);
  }

  lemma {:induction false} CellName(c: Cell, lim: Limits)
    ensures NamedCell(c, lim) <==> Canonical(c.oid) && |c.oid| < lim.oidText
  {}

  /** The scratch buffer in which `add` encodes a name always suffices. */
  lemma {:induction false} AddBufferSuffices(oid: Text, lim: Limits)
    requires EncodeText(oid, lim).Some?
    ensures HeaderSize(|EncodeText(oid, lim).value|) + |EncodeText(oid, lim).value| <= lim.oidText
  {
    ContentsFit(oid, lim);
  }

  lemma {:induction false} SetRootKeeps(op: Op, root: Text, lim: Limits)
    requires Shape(op, lim)
    ensures Shape(SetRoot(op, root, lim).1, lim)
  {
    hide Add, Canonical, ValidDevice;
    AddKeeps(op.(cells := []), root, NULLTYPE, None, lim);
    AddFrame(op.(cells := []), root, NULLTYPE, None, lim);
    var (s, added) := Add(op.(cells := []), root, NULLTYPE, None, lim);
    if s == Success {
      CellName(added.cells[0], lim);
    }
  }

  lemma {:induction false} AddFrame(op: Op, oid: Text, expected: byte, value: Option<Value>, lim: Limits)
    ensures var r := Add(op, oid, expected, value, lim).1;
            r == op.(cells := r.cells, settled := r.settled)
  {
    hide EncodeText, DecodeText, CheckValue;
  }

  lemma {:induction false} ScheduledKeeps(op: Op, lim: Limits)
    requires Shape(op, lim) && Admission(op, true) == Success
    ensures OpInv(Scheduled(op), lim)
    ensures Scheduled(op).id == 0 && !Scheduled(op).sent && Scheduled(op).Pending()
  {
    hide Canonical, Log2;
    var next := Scheduled(op);
    forall i | 0 <= i < |next.cells|
      ensures NamedCell(next.cells[i], lim)
    {
      assert NamedCell(op.cells[i], lim);
    }
  }

  // ----- finishing -----

  /** The states in which the client finishes an operation, and with which outcomes. */
  ghost predicate Finishing(op: Op, outcome: Status, lim: Limits) {
    && outcome != Status.Pending
    && Shape(op, lim)
    && if op.walking then DoneInv(op, lim)
       else
         && op.cells != []
         && AllBacked(op.cells, op.replies, lim)
         && ((SettledUpTo(op.cells, op.offset) && op.offset < |op.cells| && outcome != Success) ||
             (SettledUpTo(op.cells, |op.cells|) && (outcome == Success <==> AllOk(op.cells))))
         && op.ids <= MaxIds(|op.cells|)
         && op.sends <= op.ids * (op.dev.retries + 1)
         && (op.mode == SET ==> op.sends <= 1)
  }

  lemma {:induction false} SettledNames(cells: seq<Cell>, status: Status, lim: Limits)
    requires NamedCells(cells, lim)
    ensures NamedCells(SettleAll(cells, status), lim)
  {
    hide Canonical;
    forall i | 0 <= i < |cells|
      ensures NamedCell(SettleAll(cells, status)[i], lim)
    {
      assert NamedCell(cells[i], lim);
    }
  }

  /** Settling turns pending cells into unusable ones and leaves every other cell as it was. */
  lemma {:induction false} SettledCells(cells: seq<Cell>, offset: nat, outcome: Status, replies: seq<Message>,
                                        lim: Limits)
    requires SettledUpTo(cells, offset) && AllBacked(cells, replies, lim) && outcome != Status.Pending
    requires offset < |cells| ==> outcome != Success
    ensures var done := SettleAll(cells, outcome);
            && SettledUpTo(done, |done|)
            && AllBacked(done, replies, lim)
            && (AllOk(done) <==> offset == |cells| && AllOk(cells))
  {
    hide Backed;
    var done := SettleAll(cells, outcome);
    assert forall i :: 0 <= i < |done| && done[i].Ok() ==> done[i] == cells[i];
    if offset < |cells| {
      assert !done[offset].Ok();
    }
  }

  lemma {:induction false} FinishedRead(op: Op, outcome: Status, lim: Limits)
    requires Finishing(op, outcome, lim) && !op.walking
    ensures DoneInv(Finished(op, outcome), lim)
  {
    hide NamedCells, AllBacked, MaxIds, Shape, SettledUpTo, AllOk, SettleAll;
    if SettledUpTo(op.cells, op.offset) && op.offset < |op.cells| && outcome != Success {
      SettledCells(op.cells, op.offset, outcome, op.replies, lim);
    } else {
      SettledCells(op.cells, |op.cells|, outcome, op.replies, lim);
    }
  }

  lemma {:induction false} FinishedWalk(op: Op, outcome: Status, lim: Limits)
    requires DoneInv(op, lim) && op.walking
    ensures DoneInv(Finished(op, outcome), lim)
  {
    hide Chain;
    assert NamesOf(op.cells, op.delivered) ==> NamesOf(SettleAll(op.cells, outcome), op.delivered);
  }

  lemma {:induction false} FinishedKeeps(op: Op, outcome: Status, lim: Limits)
    requires Finishing(op, outcome, lim)
    ensures OpInv(Finished(op, outcome), lim)
    ensures !Finished(op, outcome).Pending()
    ensures op.walking || op.Pending() ==> Ended(Finished(op, outcome), lim)
    ensures forall i :: 0 <= i < |op.cells| && op.cells[i].status != Status.Pending ==>
              Finished(op, outcome).cells[i] == op.cells[i]
  {
    if op.walking {
      FinishedWalk(op, outcome, lim);
    } else {
      FinishedRead(op, outcome, lim);
    }
    SettledNames(op.cells, outcome, lim);
    hide NamedCells, AllBacked, DoneInv, ValidDevice, SettledUpTo, AllOk, MaxIds, SettleAll, BusyInv;
  }

  lemma {:induction false} RepeatedProduct(a: nat, b: nat, r: nat)
    requires a + 1 <= b
    ensures a * (r + 1) + r + 1 <= b * (r + 1)
  {
    assert (b - a - 1) * (r + 1) >= 0;
    assert b * (r + 1) == (b - a - 1) * (r + 1) + a * (r + 1) + (r + 1);
  }

  /** Any outcome but success may end a pending read or write; a walk may end with any outcome. */
  lemma {:induction false} BusyFinishes(op: Op, outcome: Status, lim: Limits)
    requires op.Pending() && OpInv(op, lim)
    requires outcome != Status.Pending && (op.walking || outcome != Success)
    ensures Finishing(op, outcome, lim)
  {
    if !op.walking {
      if op.sent {
        assert op.ids + 1 + Log2(op.batchLimit) <= MaxIds(|op.cells|) + 1;
        RepeatedProduct(op.ids - 1, op.ids, op.dev.retries);
      }
    }
  }

  // ----- the clock -----

  lemma {:induction false} Halved(batch: nat, limit: nat)
    requires 2 <= batch <= limit
    ensures 1 <= batch / 2 <= limit && Log2(batch / 2) + 1 <= Log2(limit)
  {
    Log2Monotone(batch, limit);
  }

  /** A shorter batch limit keeps the measure: it pays for the request ID that went unanswered. */
  lemma {:induction false} ShrinkKeeps(op: Op, limit: nat, lim: Limits)
    requires op.Pending() && OpInv(op, lim) && !op.walking && op.sent && op.mode != SET
    requires 1 <= limit && limit < op.batch && Log2(limit) + 1 <= Log2(op.batchLimit)
    ensures OpInv(Again(op.(batchLimit := limit)), lim)
  {
    RepeatedProduct(op.ids - 1, op.ids, op.dev.retries);
  }

  lemma {:induction false} TickKeeps(op: Op, now: uint32, lim: Limits)
    requires op.Pending() && OpInv(op, lim)
    ensures match TickOp(op, now)
            case Expire(o) => o == op
            case Keep(o) => OpInv(o, lim) && o.Pending() && (o == op || !o.sent)
            case Send(o) => OpInv(o.(attempts := op.attempts), lim) && o.Pending() && o.sent == op.sent
                            && (if op.sent then o.attempts == op.attempts + 1 <= op.dev.retries && op.mode != SET
                                else o.attempts == op.attempts)
  {
    hide Canonical, NamedCells, AllBacked, Chain, Log2, MaxIds, SettledUpTo, ValidDevice, NamesOf, Elapsed;
    match TickOp(op, now)
    case Expire(_) =>
    case Keep(o) =>
      if o != op && !op.walking {
        Halved(op.batch, op.batchLimit);
        ShrinkKeeps(op, op.batch / 2, lim);
      }
    case Send(o) =>
  }

  // ----- sending -----

  /** The operation as `send` finds it: attempts have already been counted for a repetition. */
  ghost predicate ToSend(op: Op, lim: Limits) {
    && op.Pending() && Shape(op, lim) && !op.settled
    && if op.walking then OpInv(op, lim)
       else if op.sent then op.mode != SET && op.attempts > 0 && OpInv(op.(attempts := op.attempts - 1), lim)
                            && op.attempts <= op.dev.retries
       else OpInv(op, lim)
  }

  lemma {:induction false} TransmittedKeeps(op: Op, nextId: nat, now: uint32, lim: Limits)
    requires ToSend(op, lim) && CanSend(op, lim)
    ensures OpInv(Transmitted(Transmitting(op, nextId, lim), now), lim)
  {
    hide Canonical, NamedCells, AllBacked, Chain, Log2, MaxIds, SettledUpTo, ValidDevice, NamesOf, Packed;
    var next := Transmitted(Transmitting(op, nextId, lim), now);
    PackedBounds(op, lim);
  }

  lemma {:induction false} PackedBounds(op: Op, lim: Limits)
    ensures !op.walking && op.offset <= |op.cells| ==>
              Packed(op, lim) <= op.batchLimit && op.offset + Packed(op, lim) <= |op.cells|
    ensures op.walking ==> Packed(op, lim) <= 1
  {}

  /** Nothing fits, IDs are exhausted or the transport fails: the operation ends. */
  lemma {:induction false} SendFails(op: Op, nextId: nat, outcome: Status, lim: Limits)
    requires ToSend(op, lim) && outcome != Status.Pending && outcome != Success
    ensures Finishing(op.(batch := Packed(op, lim)), outcome, lim)
    ensures CanSend(op, lim) ==> Finishing(Transmitting(op, nextId, lim), outcome, lim)
  {
    hide Packed, OpInv, Shape, AllBacked, SettledUpTo, AllOk, MaxIds, DoneInv;
    if op.walking {
      BusyFinishes(op, outcome, lim);
      WalkSendFails(op, nextId, outcome, lim);
    } else {
      ReadSendFails(op, outcome, lim);
      var packed, tx := op.(batch := Packed(op, lim)), Transmitting(op, nextId, lim);
      SameFinishing(op, packed, outcome, lim);
      if CanSend(op, lim) {
        SameFinishing(op.(ids := tx.ids, sends := tx.sends), tx, outcome, lim);
      }
    }
  }

  /** What a walk is finished with does not depend on the request it was about to send. */
  lemma {:induction false} WalkSendFails(op: Op, nextId: nat, outcome: Status, lim: Limits)
    requires Finishing(op, outcome, lim) && op.walking
    ensures Finishing(op.(batch := Packed(op, lim)), outcome, lim)
    ensures Finishing(Transmitting(op, nextId, lim), outcome, lim)
  {
    hide Packed, Chain, NamedCells, ValidDevice, Canonical, Found, NamesOf;
  }

  /** Counting one more transmission stays within what a finished read or write may have sent. */
  lemma {:induction false} ReadSendFails(op: Op, outcome: Status, lim: Limits)
    requires ToSend(op, lim) && outcome != Status.Pending && outcome != Success && !op.walking
    ensures Finishing(op, outcome, lim)
    ensures Finishing(op.(ids := if op.sent then op.ids else op.ids + 1, sends := op.sends + 1), outcome, lim)
  {
    hide NamedCells, AllBacked, Log2, MaxIds, SettledUpTo, ValidDevice, AllOk;
    BusyFinishes(if op.sent then op.(attempts := op.attempts - 1) else op, outcome, lim);
    RepeatedProduct(op.ids, op.ids + 1, op.dev.retries);
    if op.sent {
      RepeatedProduct(op.ids - 1, op.ids, op.dev.retries);
    }
  }

  lemma {:induction false} SameFinishing(a: Op, b: Op, outcome: Status, lim: Limits)
    requires Finishing(a, outcome, lim) && !a.walking
    requires b == a.(batch := b.batch, id := b.id, answered := b.answered)
    ensures Finishing(b, outcome, lim)
  {
    hide NamedCells, AllBacked, MaxIds, SettledUpTo, ValidDevice, AllOk;
  }
}

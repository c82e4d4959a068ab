/** What is on the wire is the request: every logged datagram parses back to the names it was built from. */
module Outgoing {
  import opened Bytes
  import opened Oids
  import opened OidOrder
  import opened Trees
  import opened Messages
  import opened Values
  import opened Packing
  import opened Requests
  import opened Operations
  import opened OperationLaws
  import opened ReplyLaws
  import opened Engine
  import opened EngineLaws
  import opened StepLaws
  import opened RunLaws

  /** The cells that the current request asks for; a walk asks for what follows its cursor. */
  function Asked(op: Op): seq<Cell> {
    if op.walking then [Cell(op.cursor, EMPTY, Success, NULLTYPE)]
    else if op.offset + op.batch <= |op.cells| then op.cells[op.offset..op.offset + op.batch]
    else []
  }

  // ----- what the filling loop takes can be encoded -----

  lemma {:induction false} BodyCons(cells: seq<Cell>, i: nat, j: nat, mode: byte, lim: Limits)
    requires i < j <= |cells|
    ensures Body(cells[i..j], mode, lim) ==
            var a, b := CellOctets(cells[i], mode, lim), Body(cells[i + 1..j], mode, lim);
            if a.None? || b.None? then None else Some(a.value + b.value)
  {
    assert cells[i..j][1..] == cells[i + 1..j];
  }

  /** Whatever Fill counts has an encoding that fits the room. */
  lemma {:induction false} FillBody(cells: seq<Cell>, mode: byte, i: nat, end: nat, batch: nat, limit: nat, room: nat,
                                    lim: Limits)
    requires i <= |cells| && end <= room
    ensures var n := Fill(cells, mode, i, end, batch, limit, room, lim) - batch;
            var b := Body(cells[i..i + n], mode, lim);
            b.Some? && end + |b.value| <= room
    decreases |cells| - i
  {
    hide CellOctets, Body, Fill;
    FillStep(cells, mode, i, end, batch, limit, room, lim);
    var n := Fill(cells, mode, i, end, batch, limit, room, lim) - batch;
    NoBody(mode, lim);
    assert cells[i..i] == [];
    if n > 0 {
      BodyCons(cells, i, i + n, mode, lim);
      var b := CellOctets(cells[i], mode, lim).value;
      assert cells[i + 1..i + 1] == [];
      if n > 1 {
        FillBody(cells, mode, i + 1, end + |b|, batch + 1, limit, room, lim);
      }
    }
  }

  lemma {:induction false} NoBody(mode: byte, lim: Limits)
    ensures Body([], mode, lim) == Some([])
  {}

  /** A request that packs something has a body, and it leaves room for the envelope. */
  lemma {:induction false} PackedBody(op: Op, lim: Limits)
    requires op.batch == Packed(op, lim) && 0 < op.batch && (!op.walking ==> op.offset + op.batch <= |op.cells|)
    ensures var b := Body(Asked(op), op.mode, lim);
            op.mode != SET || !op.walking ==> b.Some? && RequestBody(op, lim) == b && |b.value| <= Room(op, lim)
  {
    hide CellOctets, Fill, BindingOctets;
    if op.walking {
      if op.mode != SET {
        CursorBody(op, lim);
      }
    } else {
      FillBody(op.cells, op.mode, op.offset, 0, 0, op.batchLimit, Room(op, lim), lim);
    }
  }

  lemma {:induction false} CursorBody(op: Op, lim: Limits)
    requires op.walking && op.mode != SET
    ensures Body(Asked(op), op.mode, lim) == BindingOctets(op.cursor, Some(NullOctets()), lim)
  {
    hide BindingOctets;
    var b := BindingOctets(op.cursor, Some(NullOctets()), lim);
    assert Asked(op)[1..] == [];
    assert CellOctets(Asked(op)[0], op.mode, lim) == b;
    assert b.Some? ==> b.value + [] == b.value;
  }

  // ----- the octets of a request parse back -----

  /** The settings under which a request is meaningful to a decoder with the same limits. */
  ghost predicate Askable(op: Op, lim: Limits) {
    && op.dev.version <= 1 && |op.dev.community| < 64 && |op.dev.community| < lim.octets
    && 0 < op.id <= MAX_ID
    && (op.mode in {GET, GETNEXT, SET} || (op.mode == GETBULK && op.dev.version == 1))
    && forall i :: 0 <= i < |Asked(op)| ==> Configured(Asked(op)[i], op.mode, op.dev.version == 1, lim)
  }

  lemma {:induction false} OctetsParse(op: Op, lim: Limits)
    requires Askable(op, lim) && (op.mode == SET ==> !op.walking)
    requires op.batch == Packed(op, lim) && 0 < op.batch && (!op.walking ==> op.offset + op.batch <= |op.cells|)
    ensures ParseFrom(RequestOctets(op, lim), lim) ==
            Some(RequestMessage(op.dev.version, op.dev.community, op.mode, op.id, Repetitions(op), Asked(op), lim))
  {
    hide Body, Packed, RequestBody, ParseFrom, Datagram, RequestMessage, Configured;
    PackedBody(op, lim);
    var body := RequestBody(op, lim).value;
    RequestRecovered(op.dev.version, op.dev.community, op.mode, op.id, Repetitions(op), Asked(op), body, lim);
  }

  lemma {:induction false} ReadsAskable(op: Op, lim: Limits)
    requires OpInv(op, lim) && Expects(op) && op.id <= MAX_ID
    requires op.mode == SET ==>
               forall i :: 0 <= i < |op.cells| ==> Configured(op.cells[i], SET, op.dev.version == 1, lim)
    ensures Askable(op, lim) && (op.mode == SET ==> !op.walking)
    ensures op.batch > 0 && (!op.walking ==> op.offset + op.batch <= |op.cells|)
    ensures op.mode == SET ==> Asked(op) == op.cells
  {
    hide AllBacked, SettledUpTo, Chain, NamesOf, Log2, MaxIds, Canonical;
    BatchFacts(op, lim);
    if op.walking {
      CursorCanonical(op, lim);
    } else {
      assert forall i :: 0 <= i < |Asked(op)| ==> Asked(op)[i] == op.cells[op.offset + i];
      assert forall i :: 0 <= i < |op.cells| ==> NamedCell(op.cells[i], lim);
      assert op.mode == SET ==> op.cells[0..|op.cells|] == op.cells;
    }
  }

  lemma {:induction false} CursorCanonical(op: Op, lim: Limits)
    requires OpInv(op, lim) && op.Pending() && op.walking
    ensures Canonical(op.cursor) && |op.cursor| < lim.oidText
  {
    hide Canonical, Under, Compare;
    assert op.delivered <= ShownNames(op);
    assert op.delivered != [] ==> ShownNames(op)[|op.delivered| - 1] == op.cursor;
  }

  /**
   * While an operation waits for a reply, a datagram is on the wire under its ID, and every such datagram parses
   * to its version, community, PDU type and ID and to exactly the names (and SET values) asked for, in order.
   * A SET carries all of its bindings.
   */
  lemma {:induction false} RequestOnWire(w: World, k: nat, i: nat, lim: Limits)
    requires Inv(w, lim) && AllReady(w) && k < |w.ops| && Expects(w.ops[k])
    requires w.ops[k].mode == SET ==>
               forall j :: 0 <= j < |w.ops[k].cells| ==>
                 Configured(w.ops[k].cells[j], SET, w.ops[k].dev.version == 1, lim)
    ensures OnWire(w.wire, w.ops[k].id)
    ensures var op := w.ops[k];
            i < |w.wire| && w.wire[i].id == op.id ==>
              && ParseFrom(w.wire[i].octets, lim) ==
                 Some(RequestMessage(op.dev.version, op.dev.community, op.mode, op.id, Repetitions(op), Asked(op), lim))
              && (op.mode == SET ==> Asked(op) == op.cells)
  {
    var op := w.ops[k];
    InvOp(w, k, lim);
    WaitingIsOnWire(w, k, lim);
    if i >= |w.wire| || w.wire[i].id != op.id {
      return;
    }
    Flying(w, k, i, lim);
    hide Inv, OpInv, AllReady, Packed, RequestOctets, ParseFrom, RequestMessage, Askable, Asked, Configured;
    ReadsAskable(op, lim);
    OctetsParse(op, lim);
  }

  lemma {:induction false} Flying(w: World, k: nat, i: nat, lim: Limits)
    requires Inv(w, lim) && AllReady(w) && k < |w.ops| && Expects(w.ops[k])
    requires i < |w.wire| && w.wire[i].id == w.ops[k].id
    ensures var op, e := w.ops[k], w.wire[i];
            && op.batch == Packed(op, lim) && op.id <= MAX_ID && e.octets == RequestOctets(op, lim)
            && e.walking == op.walking && e.mode == op.mode && e.version == op.dev.version && e.cursor == op.cursor
  {
    hide OpInv, Packed, RequestOctets, NewOrRepeat, OnWire;
    assert Ready(w.ops[k]);
    assert WireMatch(w.ops[k], k, w.wire[i], lim);
  }

  lemma {:induction false} WaitingIsOnWire(w: World, k: nat, lim: Limits)
    requires Inv(w, lim) && AllReady(w) && k < |w.ops| && Expects(w.ops[k])
    ensures OnWire(w.wire, w.ops[k].id)
  {
    hide OpInv, Packed, RequestOctets, NewOrRepeat, SameRequest, InFlight;
    assert Ready(w.ops[k]);
  }

  // ----- there is always room for a read -----

  /**
   * With the default OID capacity and packets of at least 237 octets a pending read or walk is never refused for lack
   * of packing space, whatever it has read so far.
   */
  lemma {:induction false} PendingPacks(op: Op, lim: Limits)
    requires OpInv(op, lim) && op.Pending() && op.mode != SET
    requires lim.oidText <= 256 && lim.packet >= 237
    ensures CanSend(op, lim)
  {
    hide OpInv, Canonical, Fill, BindingOctets;
    PackingTerms(op, lim);
    if op.walking {
      CursorCanonical(op, lim);
      WalksAlwaysPack(op.cursor, op.dev.community, lim);
    } else {
      ReadsAlwaysPack(op.cells, op.mode, op.offset, op.batchLimit, op.dev.community, lim);
    }
  }

  lemma {:induction false} PackingTerms(op: Op, lim: Limits)
    requires OpInv(op, lim) && op.Pending()
    ensures |op.dev.community| < 64 && op.offset <= |op.cells|
    ensures !op.walking ==>
              && op.offset < |op.cells| && op.batchLimit > 0
              && Canonical(op.cells[op.offset].oid) && |op.cells[op.offset].oid| < lim.oidText
  {
    hide Canonical, AllBacked, SettledUpTo, TrafficInv, Chain, Gathering;
    if !op.walking {
      assert NamedCell(op.cells[op.offset], lim);
    }
  }

  /** So is what the clock makes of it. */
  lemma {:induction false} TickPacks(op: Op, t: nat, lim: Limits)
    requires OpInv(op, lim) && op.Pending() && op.mode != SET
    requires lim.oidText <= 256 && lim.packet >= 237 && TickOp(op, t % TWO32).Send?
    ensures CanSend(Stamped(TickOp(op, t % TWO32).op, t), lim)
  {
    hide OpInv, TickOp, Packed;
    PendingPacks(op, lim);
    TickRest(op, t % TWO32);
    PackedIgnores(op, Stamped(TickOp(op, t % TWO32).op, t), lim);
  }
}

/** Exactly how many bindings a request takes: as many as fit, with room left for what a reply adds to each. */
module Capacity {
  import opened Bytes
  import opened Trees
  import opened Values
  import opened Operations
  import opened Packing

  /** Octets of the bindings i to j, or -1 if one of them cannot be encoded. */
  ghost function Length(cells: seq<Cell>, mode: byte, i: nat, j: nat, lim: Limits): (n: int)
    requires i <= j <= |cells|
  {
    var b := Body(cells[i..j], mode, lim);
    if b.None? then -1 else |b.value|
  }

  /** The bindings i to i + n fit behind `end` octets, and each but the last leaves room for a reply to grow. */
  ghost predicate FitsIn(cells: seq<Cell>, mode: byte, i: nat, end: nat, batch: nat, room: nat, n: nat, lim: Limits)
    requires i + n <= |cells|
  {
    && (n > 0 ==> 0 <= Length(cells, mode, i, i + n, lim) <= room - end)
    && forall j :: i < j < i + n ==>
         0 <= Length(cells, mode, i, j, lim) && end + Length(cells, mode, i, j, lim) + (batch + (j - i) + 1) * 16 < room
  }

  /** The binding behind them is not there, not allowed, cannot be encoded, does not fit, or the room is used up. */
  ghost predicate NoMore(cells: seq<Cell>, mode: byte, i: nat, end: nat, batch: nat, limit: nat, room: nat, n: nat,
                         lim: Limits)
    requires i + n <= |cells|
  {
    || i + n == |cells| || batch + n >= limit
    || Length(cells, mode, i, i + n + 1, lim) < 0 || end + Length(cells, mode, i, i + n + 1, lim) > room
    || (n > 0 && end + Length(cells, mode, i, i + n, lim) + (batch + n + 1) * 16 >= room)
  }

  lemma {:induction false} LengthCons(cells: seq<Cell>, mode: byte, i: nat, j: nat, lim: Limits)
    requires i < j <= |cells|
    ensures var first, rest := CellOctets(cells[i], mode, lim), Length(cells, mode, i + 1, j, lim);
            Length(cells, mode, i, j, lim) == if first.None? || rest < 0 then -1 else |first.value| + rest
  {
    hide CellOctets;
    assert cells[i..j][1..] == cells[i + 1..j];
  }

  lemma {:induction false} LengthNone(cells: seq<Cell>, mode: byte, i: nat, lim: Limits)
    requires i <= |cells|
    ensures Length(cells, mode, i, i, lim) == 0
  {
    assert cells[i..i] == [];
  }

  /** The filling loop stops exactly where nothing more may be taken. */
  lemma {:induction false} FillExact(cells: seq<Cell>, mode: byte, i: nat, end: nat, batch: nat, limit: nat, room: nat,
                                     lim: Limits)
    requires i <= |cells|
    ensures var n := Fill(cells, mode, i, end, batch, limit, room, lim) - batch;
            n >= 0 && FitsIn(cells, mode, i, end, batch, room, n, lim)
            && NoMore(cells, mode, i, end, batch, limit, room, n, lim)
    decreases |cells| - i
  {
    hide CellOctets, Length;
    LengthNone(cells, mode, i, lim);
    if i < |cells| && batch < limit {
      var b := CellOctets(cells[i], mode, lim);
      LengthNone(cells, mode, i + 1, lim);
      LengthCons(cells, mode, i, i + 1, lim);
      if b.Some? && end + |b.value| <= room && end + |b.value| + (batch + 2) * 16 < room {
        FillExact(cells, mode, i + 1, end + |b.value|, batch + 1, limit, room, lim);
        var n := Fill(cells, mode, i + 1, end + |b.value|, batch + 1, limit, room, lim) - (batch + 1);
        OneMoreFits(cells, mode, i, end, batch, limit, room, n, lim);
      }
    }
  }

  lemma {:induction false} OneMoreFits(cells: seq<Cell>, mode: byte, i: nat, end: nat, batch: nat, limit: nat,
                                       room: nat, n: nat, lim: Limits)
    requires i + 1 + n <= |cells| && batch < limit
    requires var b := CellOctets(cells[i], mode, lim);
             && b.Some? && end + |b.value| <= room && end + |b.value| + (batch + 2) * 16 < room
             && FitsIn(cells, mode, i + 1, end + |b.value|, batch + 1, room, n, lim)
             && NoMore(cells, mode, i + 1, end + |b.value|, batch + 1, limit, room, n, lim)
    ensures FitsIn(cells, mode, i, end, batch, room, n + 1, lim)
    ensures NoMore(cells, mode, i, end, batch, limit, room, n + 1, lim)
  {
    hide CellOctets, Length;
    LengthNone(cells, mode, i + 1, lim);
    var first := |CellOctets(cells[i], mode, lim).value|;
    forall j | i < j <= |cells|
      ensures var rest := Length(cells, mode, i + 1, j, lim);
              Length(cells, mode, i, j, lim) == if rest < 0 then -1 else first + rest
    {
      LengthCons(cells, mode, i, j, lim);
    }
  }

  /** A request of a read or write takes that many bindings, from its offset on. */
  lemma {:induction false} RequestTakes(op: Op, lim: Limits)
    requires !op.walking && op.offset <= |op.cells|
    ensures var n, room := Packed(op, lim), lim.packet - |op.dev.community| - 40;
            if room <= 0 then n == 0
            else
              && op.offset + n <= |op.cells| && FitsIn(op.cells, op.mode, op.offset, 0, 0, room, n, lim)
              && NoMore(op.cells, op.mode, op.offset, 0, 0, op.batchLimit, room, n, lim)
  {
    hide CellOctets, Length;
    if Room(op, lim) > 0 {
      FillExact(op.cells, op.mode, op.offset, 0, 0, op.batchLimit, Room(op, lim), lim);
    }
  }

  /** A SET goes out whole or not at all: exactly if all of its bindings fit, each but the last with room to spare. */
  lemma {:induction false} SetSendsWhole(op: Op, lim: Limits)
    requires !op.walking && op.mode == SET && op.offset == 0 && op.batchLimit == |op.cells| > 0
    ensures var room := lim.packet - |op.dev.community| - 40;
            CanSend(op, lim) <==> room > 0 && FitsIn(op.cells, SET, 0, 0, 0, room, |op.cells|, lim)
  {
    hide Length, Fill;
    RequestTakes(op, lim);
    var room := lim.packet - |op.dev.community| - 40;
    if room > 0 && FitsIn(op.cells, SET, 0, 0, 0, room, |op.cells|, lim) {
      if Packed(op, lim) < |op.cells| {
        MoreFits(op.cells, SET, 0, 0, 0, |op.cells|, room, Packed(op, lim), lim);
      }
    }
  }

  /** Where all bindings fit, the loop does not stop early. */
  lemma {:induction false} MoreFits(cells: seq<Cell>, mode: byte, i: nat, end: nat, batch: nat, limit: nat, room: nat,
                                    n: nat, lim: Limits)
    requires i + n < |cells| && batch + (|cells| - i) <= limit
    requires FitsIn(cells, mode, i, end, batch, room, |cells| - i, lim)
    ensures !NoMore(cells, mode, i, end, batch, limit, room, n, lim)
  {
    hide Length;
    assert i + n + 1 < |cells| ==> end + Length(cells, mode, i, i + n + 1, lim) < room;
  }
}

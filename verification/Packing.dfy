/** The in-place encoder of SNMPClient::send: wrap, append and two memmoves inside one fixed buffer. */
module Packing {
  import opened Bytes
  import opened Header
  import opened Integers
  import opened Trees
  import opened Serialiser
  import opened Values

  const ENVELOPE := 40      // octets reserved beside the community string
  const PREFIX := 96        // the local prefix buffer

  // ----- what is packed -----

  function NullOctets(): seq<byte> { [NULLTYPE, 0] }

  /** One encoded binding of a request, or None where packing it fails whatever the space. */
  function BindingOctets(name: Text, value: Option<seq<byte>>, lim: Limits): (r: Option<seq<byte>>)
    ensures r.Some? ==> |r.value| <= MAX_CONTENT + 4
  {
    var n := Encode(Name(name), lim);
    if n.None? || value.None? || |n.value + value.value| > MAX_CONTENT then None
    else Some(Tlv(STRUCTURE, n.value + value.value))
  }

  function CellOctets(cell: Cell, mode: byte, lim: Limits): Option<seq<byte>> {
    BindingOctets(cell.oid, if mode == SET then ValueOctets(cell.value, lim) else Some(NullOctets()), lim)
  }

  function Reserve(community: seq<byte>): nat { |community| + ENVELOPE }

  /**
   * Bindings that the filling loop takes from position `i` on, when `end` octets and `batch` bindings are
   * already in the buffer and `room` octets may be used.
   */
  function Fill(cells: seq<Cell>, mode: byte, i: nat, end: nat, batch: nat, limit: nat, room: nat,
                lim: Limits): (n: nat)
    requires i <= |cells|
    ensures batch <= n <= batch + (|cells| - i) && (batch <= limit ==> n <= limit)
    decreases |cells| - i
  {
    if i == |cells| || batch >= limit then batch
    else
      var b := CellOctets(cells[i], mode, lim);
      if b.None? || end + |b.value| > room then batch
      else if end + |b.value| + (batch + 2) * 16 >= room then batch + 1
      else Fill(cells, mode, i + 1, end + |b.value|, batch + 1, limit, room, lim)
  }

  /** The octets of `n` consecutive bindings. */
  function Body(cells: seq<Cell>, mode: byte, lim: Limits): (r: Option<seq<byte>>) {
    if cells == [] then Some([])
    else
      var first, rest := CellOctets(cells[0], mode, lim), Body(cells[1..], mode, lim);
      if first.None? || rest.None? then None else Some(first.value + rest.value)
  }

  lemma {:induction false} BodySnoc(cells: seq<Cell>, i: nat, j: nat, mode: byte, lim: Limits)
    requires i <= j < |cells|
    ensures Body(cells[i..j + 1], mode, lim) ==
            var a, b := Body(cells[i..j], mode, lim), CellOctets(cells[j], mode, lim);
            if a.None? || b.None? then None else Some(a.value + b.value)
    decreases j - i
  {
    hide CellOctets;
    var c := cells[i..j + 1];
    if i == j {
      assert c == [cells[j]] && c[1..] == [] && cells[i..j] == [];
      var b := CellOctets(cells[j], mode, lim);
      assert b.Some? ==> b.value + [] == [] + b.value;
    } else {
      assert c[1..] == cells[i + 1..j + 1] && cells[i..j][1..] == cells[i + 1..j];
      BodySnoc(cells, i + 1, j, mode, lim);
      var f, a, b := CellOctets(cells[i], mode, lim), Body(cells[i + 1..j], mode, lim), CellOctets(cells[j], mode, lim);
      if f.Some? && a.Some? && b.Some? {
        assert f.value + (a.value + b.value) == (f.value + a.value) + b.value;
      }
    }
  }

  // ----- the envelope -----

  function IntOctets(n: uint32): (r: seq<byte>)
    ensures 3 <= |r| <= 6
    ensures Some(r) == Encode(Number(INTEGER, n), Unused())
  {
    IntegerRoundTrip(INTEGER, n);
    Ranges();
    ContentFits(Signed32(n), 4);
    Tlv(INTEGER, Content(Signed32(n)))
  }

  /** Integers take no part in the configured limits. */
  function Unused(): Limits { DEFAULTS }

  /** The PDU around an encoded binding list. */
  function PduOctets(kind: byte, id: uint32, repetitions: uint32, body: seq<byte>): (r: seq<byte>)
    requires |body| + ENVELOPE <= MAX_CONTENT
    ensures |r| <= |body| + 23
  {
    Tlv(kind, IntOctets(id) + IntOctets(0) + IntOctets(repetitions) + Tlv(STRUCTURE, body))
  }

  /** The whole datagram around an encoded binding list. */
  function Datagram(version: uint32, community: seq<byte>, kind: byte, id: uint32, repetitions: uint32,
                    body: seq<byte>): (r: seq<byte>)
    requires |community| < 64 && |body| + Reserve(community) <= MAX_CONTENT
    ensures |r| <= |body| + Reserve(community)
  {
    Tlv(STRUCTURE, IntOctets(version) + Tlv(STRING, community) + PduOctets(kind, id, repetitions, body))
  }

  // ----- the memory operations -----

  /** memmove: the moved octets are the ones that were there before. */
  method Move(buf: array<byte>, to: nat, from: nat, n: nat)
    requires to + n <= buf.Length && from + n <= buf.Length
    modifies buf
    ensures Written(old(buf[..]), buf[..], to, old(buf[from..from + n]))
  {
    WriteOctets(buf, to, buf[from..from + n]);
  }

  /** Two parts in front of position n can be taken apart again. */
  lemma {:induction false} Parts(b: seq<byte>, n: nat, p: seq<byte>, q: seq<byte>)
    requires n <= |b| && b[..n] == p + q
    ensures b[..|p|] == p && b[|p|..n] == q
  {
    assert b[..|p|] == b[..n][..|p|];
    assert b[|p|..n] == b[..n][|p|..];
  }

  lemma {:induction false} Shifted(a: seq<byte>, b: seq<byte>, c: seq<byte>, start: nat, end: nat, h: seq<byte>)
    requires start <= end <= |a|
    requires Written(a, b, start + |h|, a[start..end]) && Written(b, c, start, h)
    ensures c[..end + |h|] == a[..start] + (h + a[start..end])
  {
    assert b[..start] == a[..start];
    assert b[start + |h|..end + |h|] == a[start..end];
    assert c[..start] == b[..start];
    assert c[start + |h|..end + |h|] == b[start + |h|..end + |h|];
  }

  /** wrap: put a header in front of the octets from `start` on, shifting them to the right. */
  method Wrap(buf: array<byte>, capacity: nat, start: nat, end: nat, tag: byte) returns (ok: bool, next: nat)
    requires start <= end <= buf.Length && capacity <= buf.Length
    modifies buf
    ensures ok <==> end - start <= MAX_CONTENT && end + HeaderSize(end - start) <= capacity
    ensures !ok ==> next == end && buf[..] == old(buf[..])
    ensures ok ==> next == end + HeaderSize(end - start)
                   && buf[..next] == old(buf[..start]) + Tlv(tag, old(buf[start..end]))
  {
    hide EncodeHeader, Written;
    var length := end - start;
    if length > MAX_CONTENT {
      return false, end;
    }
    var count := HeaderSize(length);
    if end > capacity || count > capacity - end {
      return false, end;
    }
    ghost var before, payload := buf[..], buf[start..end];
    var header := EncodeHeader(tag, length);
    assert Tlv(tag, payload) == header + payload;
    assert before[..start] == buf[..start] && before[start..end] == payload == buf[start..start + length];
    hide Tlv, HeaderSize;
    Move(buf, start + count, start, length);
    ghost var moved := buf[..];
    WriteOctets(buf, start, header);
    Shifted(before, moved, buf[..], start, end, header);
    ok, next := true, end + count;
  }

  /** append: serialise a container behind what is there; on failure nothing in front of `end` changes. */
  method Append(buf: array<byte>, capacity: nat, end: nat, t: Ber, lim: Limits) returns (ok: bool, next: nat)
    requires end <= capacity <= buf.Length
    modifies buf
    ensures ok <==> Encode(t, lim).Some? && end + |Encode(t, lim).value| <= capacity
    ensures !ok ==> next == end && buf[..end] == old(buf[..end])
    ensures ok ==> next == end + |Encode(t, lim).value| && buf[..next] == old(buf[..end]) + Encode(t, lim).value
  {
    var size := Serialise(t, buf, end, capacity - end, lim);
    if size < 0 {
      return false, end;
    }
    ok, next := true, end + size;
  }

  /** appendValue. */
  method AppendValue(buf: array<byte>, capacity: nat, end: nat, v: Value, lim: Limits) returns (ok: bool, next: nat)
    requires end <= capacity <= buf.Length
    modifies buf
    ensures ok <==> ValueOctets(v, lim).Some? && end + |ValueOctets(v, lim).value| <= capacity
    ensures !ok ==> next == end && buf[..end] == old(buf[..end])
    ensures ok ==> next == end + |ValueOctets(v, lim).value|
                   && buf[..next] == old(buf[..end]) + ValueOctets(v, lim).value
  {
    var t := ValueTree(v, lim);
    if t.None? {
      return false, end;
    }
    if v.tag == STRING || v.tag == OPAQUE {
      if |v.bytes| > capacity - end {
        return false, end;
      }
      ghost var was := buf[..end];
      WriteOctets(buf, end, v.bytes);
      var last := end + |v.bytes|;
      assert buf[end..last] == v.bytes && buf[..end] == was;
      ok, next := Wrap(buf, capacity, end, last, v.tag);
      if !ok {
        next := end;
      }
    } else {
      ok, next := Append(buf, capacity, end, t.value, lim);
    }
  }

  /** One binding: name, value, wrapper. */
  method AppendBinding(buf: array<byte>, room: nat, start: nat, cell: Cell, mode: byte, lim: Limits)
    returns (ok: bool, next: nat)
    requires start <= room <= buf.Length
    modifies buf
    ensures ok <==> CellOctets(cell, mode, lim).Some? && start + |CellOctets(cell, mode, lim).value| <= room
    ensures !ok ==> next == start && buf[..start] == old(buf[..start])
    ensures ok ==> next == start + |CellOctets(cell, mode, lim).value|
                   && buf[..next] == old(buf[..start]) + CellOctets(cell, mode, lim).value
  {
    hide Encode, ValueOctets, Tlv;
    ghost var was := buf[..start];
    var named, middle := Append(buf, room, start, Name(cell.oid), lim);
    if !named {
      return false, start;
    }
    ghost var name := Encode(Name(cell.oid), lim).value;
    Parts(buf[..], middle, was, name);
    var valued, end;
    if mode == SET {
      valued, end := AppendValue(buf, room, middle, cell.value, lim);
    } else {
      NullEncodes(lim);
      valued, end := Append(buf, room, middle, Null, lim);
    }
    if !valued {
      Parts(buf[..], middle, was, name);
      return false, start;
    }
    ghost var value := if mode == SET then ValueOctets(cell.value, lim).value else NullOctets();
    assert buf[..end] == was + (name + value);
    Parts(buf[..], end, was, name + value);
    ok, next := Wrap(buf, room, start, end, STRUCTURE);
    if !ok {
      next := start;
    }
  }

  lemma {:induction false} NullEncodes(lim: Limits)
    ensures Encode(Null, lim) == Some(NullOctets())
  {
    assert Tlv(NULLTYPE, []) == NullOctets();
  }

  // ----- filling the buffer -----

  /** The filling loop of send: whole bindings while they and the envelope still fit. */
  method PackBindings(buf: array<byte>, cells: seq<Cell>, mode: byte, offset: nat, limit: nat, room: nat, lim: Limits)
    returns (batch: nat, end: nat)
    requires offset <= |cells| && room <= buf.Length
    modifies buf
    ensures batch == Fill(cells, mode, offset, 0, 0, limit, room, lim)
    ensures end <= room
    ensures Body(cells[offset..offset + batch], mode, lim) == Some(buf[..end])
  {
    hide CellOctets, Fill;
    end, batch := 0, 0;
    ghost var filled := Fill(cells, mode, offset, 0, 0, limit, room, lim);
    var i := offset;
    assert cells[offset..offset] == [];
    while i < |cells| && batch < limit
      invariant offset <= i <= |cells| && batch == i - offset && end <= room
      invariant filled == Fill(cells, mode, i, end, batch, limit, room, lim)
      invariant Body(cells[offset..i], mode, lim) == Some(buf[..end])
    {
      FillStep(cells, mode, i, end, batch, limit, room, lim);
      BodySnoc(cells, offset, i, mode, lim);
      var start := end;
      var ok, next := AppendBinding(buf, room, start, cells[i], mode, lim);
      if !ok {
        return batch, start;
      }
      end := next;
      batch := batch + 1;
      if end + (batch + 1) * 16 >= room {
        return batch, end;
      }
      i := i + 1;
    }
    FillStep(cells, mode, i, end, batch, limit, room, lim);
  }

  lemma {:induction false} FillStep(cells: seq<Cell>, mode: byte, i: nat, end: nat, batch: nat, limit: nat, room: nat,
                                    lim: Limits)
    requires i <= |cells|
    ensures i == |cells| || batch >= limit ==> Fill(cells, mode, i, end, batch, limit, room, lim) == batch
    ensures i < |cells| && batch < limit ==>
              var b := CellOctets(cells[i], mode, lim);
              Fill(cells, mode, i, end, batch, limit, room, lim) ==
              if b.None? || end + |b.value| > room then batch
              else if end + |b.value| + (batch + 2) * 16 >= room then batch + 1
              else Fill(cells, mode, i + 1, end + |b.value|, batch + 1, limit, room, lim)
  {
    hide CellOctets;
  }

  /** The single binding of a walk request: the cursor and a NULL. */
  method PackCursor(buf: array<byte>, cursor: Text, room: nat, lim: Limits) returns (ok: bool, end: nat)
    requires room <= buf.Length
    modifies buf
    ensures var b := BindingOctets(cursor, Some(NullOctets()), lim);
            && (ok <==> b.Some? && |b.value| <= room)
            && (ok ==> end <= room && b == Some(buf[..end]))
  {
    var cell := Cell(cursor, EMPTY, Success, NULLTYPE);
    assert CellOctets(cell, GETNEXT, lim) == BindingOctets(cursor, Some(NullOctets()), lim);
    hide CellOctets, BindingOctets;
    assert buf[..0] == [];
    ok, end := AppendBinding(buf, room, 0, cell, GETNEXT, lim);
    assert ok ==> [] + CellOctets(cell, GETNEXT, lim).value == CellOctets(cell, GETNEXT, lim).value;
  }

  /** The first half of the envelope: the binding list wrapper, the PDU fields and the PDU wrapper. */
  method EnvelopPdu(buf: array<byte>, prefix: array<byte>, bodyEnd: nat, kind: byte, id: uint32, repetitions: uint32)
    returns (end: nat)
    requires buf != prefix && buf.Length <= MAX_CONTENT && prefix.Length == PREFIX
    requires bodyEnd + ENVELOPE <= buf.Length
    modifies buf, prefix
    ensures end <= bodyEnd + 23 && end <= buf.Length
    ensures buf[..end] == PduOctets(kind, id, repetitions, old(buf[..bodyEnd]))
  {
    hide Tlv, IntOctets;
    ghost var body := buf[..bodyEnd];
    assert buf[0..bodyEnd] == body && buf[..0] == [];
    var ok;
    ok, end := Wrap(buf, buf.Length, 0, bodyEnd, STRUCTURE);
    if !ok {
      assert false;
    }
    ghost var list := buf[..end];
    assert list == Tlv(STRUCTURE, body) by { assert list == [] + Tlv(STRUCTURE, body); }
    assert prefix[..0] == [];
    var p := AppendInteger(prefix, 0, id);
    p := AppendInteger(prefix, p, 0);
    p := AppendInteger(prefix, p, repetitions);
    ghost var fields := IntOctets(id) + IntOctets(0) + IntOctets(repetitions);
    assert prefix[..p] == fields by {
      assert [] + IntOctets(id) + IntOctets(0) + IntOctets(repetitions) == fields;
    }
    end := Prepend(buf, end, prefix, p);
    assert buf[..end] == fields + list && buf[0..end] == buf[..end] && buf[..0] == [];
    ok, end := Wrap(buf, buf.Length, 0, end, kind);
    if !ok {
      assert false;
    }
    assert buf[..end] == [] + Tlv(kind, fields + list) == Tlv(kind, fields + list);
  }

  /** Everything behind the binding list: two prefixes built aside, shifted in, and three wrappers. */
  method Envelop(buf: array<byte>, bodyEnd: nat, version: uint32, community: seq<byte>, kind: byte, id: uint32,
                 repetitions: uint32)
    returns (end: nat)
    requires |community| < 64 && buf.Length <= MAX_CONTENT
    requires bodyEnd + Reserve(community) <= buf.Length
    modifies buf
    ensures end <= buf.Length
    ensures buf[..end] == Datagram(version, community, kind, id, repetitions, old(buf[..bodyEnd]))
  {
    hide Tlv, IntOctets, PduOctets;
    ghost var body := buf[..bodyEnd];
    var prefix := new byte[PREFIX];
    end := EnvelopPdu(buf, prefix, bodyEnd, kind, id, repetitions);
    ghost var pdu := buf[..end];
    assert prefix[..0] == [];
    var communityStart := AppendInteger(prefix, 0, version);
    ghost var front := IntOctets(version);
    assert prefix[..communityStart] == [] + front == front;
    var p := communityStart + |community|;
    WriteOctets(prefix, communityStart, community);
    assert prefix[..communityStart] == front && prefix[communityStart..p] == community;
    var ok;
    ok, p := Wrap(prefix, PREFIX, communityStart, p, STRING);
    if !ok {
      assert false;
    }
    end := Prepend(buf, end, prefix, p);
    assert buf[..end] == front + Tlv(STRING, community) + pdu;
    assert buf[0..end] == buf[..end] && buf[..0] == [];
    ghost var whole := front + Tlv(STRING, community) + pdu;
    ok, end := Wrap(buf, buf.Length, 0, end, STRUCTURE);
    if !ok {
      assert false;
    }
    assert buf[..end] == [] + Tlv(STRUCTURE, whole) == Tlv(STRUCTURE, whole);
  }

  method AppendInteger(prefix: array<byte>, p: nat, n: uint32) returns (next: nat)
    requires p + 6 <= prefix.Length
    modifies prefix
    ensures next == p + |IntOctets(n)| <= prefix.Length
    ensures prefix[..next] == old(prefix[..p]) + IntOctets(n)
  {
    ghost var e := IntOctets(n);
    hide Encode, IntOctets;
    var ok;
    ok, next := Append(prefix, prefix.Length, p, Number(INTEGER, n), Unused());
    if !ok {
      assert false;
    }
  }

  /** Shift the buffer right and copy a prefix in front. */
  method Prepend(buf: array<byte>, end: nat, prefix: array<byte>, p: nat) returns (next: nat)
    requires buf != prefix && p <= prefix.Length && end + p <= buf.Length
    modifies buf
    ensures next == end + p
    ensures buf[..next] == prefix[..p] + old(buf[..end])
  {
    ghost var before := buf[..];
    assert before[0..end] == buf[..end];
    Move(buf, p, 0, end);
    ghost var moved := buf[..];
    WriteOctets(buf, 0, prefix[..p]);
    Shifted(before, moved, buf[..], 0, end, prefix[..p]);
    next := end + p;
  }
}

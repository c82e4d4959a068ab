/** The datagram built in place is the tree encoder's output, and parsing it recovers the request. */
module Requests {
  import opened Bytes
  import opened Header
  import opened Integers
  import opened Oids
  import opened Trees
  import opened Messages
  import opened Values
  import opened Packing
  import opened Operations

  /** A value as a receiver will spell it: an OID payload may have been written with leading zeros. */
  function Respelled(t: Ber, lim: Limits): Ber {
    if t.Name? && CanonicalForm(t.text, lim).Some? then Name(CanonicalForm(t.text, lim).value) else t
  }

  /** The bindings a request for these cells stands for. */
  function RequestBinding(cell: Cell, mode: byte, lim: Limits): Binding {
    Binding(cell.oid,
            if mode == SET && ValueTree(cell.value, lim).Some? then Respelled(ValueTree(cell.value, lim).value, lim)
            else Null)
  }

  function RequestBindings(cells: seq<Cell>, mode: byte, lim: Limits): (r: seq<Binding>)
    ensures |r| == |cells|
    ensures forall i :: 0 <= i < |cells| ==> r[i] == RequestBinding(cells[i], mode, lim)
  {
    seq(|cells|, i requires 0 <= i < |cells| => RequestBinding(cells[i], mode, lim))
  }

  /** A configured cell: `add` stored canonical text as its name, and a SET value lies within the decoder's limits. */
  predicate Configured(cell: Cell, mode: byte, version2: bool, lim: Limits) {
    && Canonical(cell.oid) && |cell.oid| < lim.oidText
    && (mode == SET ==>
          && ValueTree(cell.value, lim).Some?
          && WellFormed(Respelled(ValueTree(cell.value, lim).value, lim), lim)
          && ValidBindingType(cell.value.tag, version2))
  }

  /** Both spellings of an OID payload have the same octets, so the one sent is the canonical one. */
  lemma {:induction false} SameOctets(v: Value, lim: Limits)
    requires ValueTree(v, lim).Some? && WellFormed(Respelled(ValueTree(v, lim).value, lim), lim)
    ensures ValueOctets(v, lim) == Encode(Respelled(ValueTree(v, lim).value, lim), lim)
  {
    var t := ValueTree(v, lim).value;
    if t.Name? {
      CanonicalFormIs(t.text, lim);
      hide CanonicalForm, EncodeText, Canonical;
    } else {
      ValueOctetsEncode(v, lim);
    }
  }

  /**
   * Every value that `add` accepts can be sent and read back, provided that a string fits the container it is read
   * into; OID payloads with leading zeros included.
   */
  lemma {:induction false} CheckedIsConfigured(oid: Text, v: Value, status: Status, expected: byte, version: nat,
                                               lim: Limits)
    requires CheckValue(v, version, lim) == Success && Canonical(oid) && |oid| < lim.oidText
    requires version <= 1 && (v.tag == STRING ==> |v.bytes| < lim.octets)
    requires (v.tag == OPAQUE ==> |v.bytes| <= lim.octets)
    ensures Configured(Cell(oid, v, status, expected), SET, version == 1, lim)
  {
    CanonicalFormIs(v.bytes, lim);
    hide CanonicalForm, EncodeText, Canonical;
  }

  /** A packed binding is the serialisation of its tree. */
  lemma {:induction false} CellIsTree(cell: Cell, mode: byte, version2: bool, lim: Limits)
    requires Configured(cell, mode, version2, lim)
    ensures CellOctets(cell, mode, lim) == Encode(BindingTree(RequestBinding(cell, mode, lim)), lim)
  {
    var b := RequestBinding(cell, mode, lim);
    EncodeTwo(Name(b.name), b.value, lim);
    NullEncodes(lim);
    if mode == SET {
      SameOctets(cell.value, lim);
    }
  }

  lemma {:induction false} BodyIsTree(cells: seq<Cell>, mode: byte, version2: bool, lim: Limits)
    requires forall i :: 0 <= i < |cells| ==> Configured(cells[i], mode, version2, lim)
    ensures Body(cells, mode, lim) == EncodeAll(BindingTrees(RequestBindings(cells, mode, lim)), lim)
    decreases |cells|
  {
    hide Configured, CellOctets, RequestBinding, Encode;
    var ts := BindingTrees(RequestBindings(cells, mode, lim));
    if cells != [] {
      CellIsTree(cells[0], mode, version2, lim);
      BodyIsTree(cells[1..], mode, version2, lim);
      assert ts[1..] == BindingTrees(RequestBindings(cells[1..], mode, lim));
    }
  }

  lemma {:induction false} FourEncode(a: Ber, b: Ber, c: Ber, d: Ber, lim: Limits)
    requires Encode(a, lim).Some? && Encode(b, lim).Some? && Encode(c, lim).Some? && Encode(d, lim).Some?
    ensures EncodeAll([a, b, c, d], lim) ==
            Some(Encode(a, lim).value + Encode(b, lim).value + Encode(c, lim).value + Encode(d, lim).value)
  {
    hide Encode;
    assert [a, b, c, d][1..] == [b, c, d];
    var x, y, z, w := Encode(a, lim).value, Encode(b, lim).value, Encode(c, lim).value, Encode(d, lim).value;
    EncodeThree(b, c, d, lim);
    assert x + (y + (z + w)) == x + y + z + w;
  }

  lemma {:induction false} NodeEncodes(kind: byte, kids: seq<Ber>, lim: Limits)
    requires EncodeAll(kids, lim).Some? && |EncodeAll(kids, lim).value| <= MAX_CONTENT
    ensures Encode(Node(kind, kids), lim) == Some(Tlv(kind, EncodeAll(kids, lim).value))
  {}

  lemma {:induction false} IntEncodes(n: uint32, lim: Limits)
    ensures Encode(Number(INTEGER, n), lim) == Some(IntOctets(n))
  {}

  lemma {:induction false} StrEncodes(s: seq<byte>, lim: Limits)
    requires |s| < lim.octets
    ensures Encode(Str(s), lim) == Some(Tlv(STRING, s))
  {}

  /** The in-place encoder refines the tree encoder: its datagram is byte for byte the serialised message tree. */
  lemma {:induction false} DatagramIsTree(m: Message, body: seq<byte>, lim: Limits)
    requires Sendable(m, lim) && |m.community| < 64 && m.errorStatus == 0
    requires EncodeAll(BindingTrees(m.bindings), lim) == Some(body)
    requires |body| + Reserve(m.community) <= MAX_CONTENT
    ensures Encode(MessageTree(m), lim) ==
            Some(Datagram(m.version - 1, m.community, m.kind, m.id % TWO32, m.errorIndex % TWO32, body))
  {
    hide Encode, EncodeAll, Tlv, IntOctets, Sendable;
    assert 1 <= m.version <= 2 && |m.community| < lim.octets by { SendableFields(m, lim); }
    var id, index, version := m.id % TWO32, m.errorIndex % TWO32, m.version - 1;
    IntEncodes(id, lim);
    IntEncodes(0, lim);
    IntEncodes(index, lim);
    IntEncodes(version, lim);
    StrEncodes(m.community, lim);
    NodeEncodes(STRUCTURE, BindingTrees(m.bindings), lim);
    var list := Node(STRUCTURE, BindingTrees(m.bindings));
    FourEncode(Int32(m.id), Int32(0), Int32(m.errorIndex), list, lim);
    NodeEncodes(m.kind, [Int32(m.id), Int32(0), Int32(m.errorIndex), list], lim);
    assert Encode(PduTree(m), lim) == Some(PduOctets(m.kind, id, index, body));
    EncodeThree(Int32(version), Str(m.community), PduTree(m), lim);
    hide PduOctets, PduTree;
    var x, y, z := IntOctets(version), Tlv(STRING, m.community), PduOctets(m.kind, id, index, body);
    assert x + (y + z) == x + y + z;
    NodeEncodes(STRUCTURE, [Int32(version), Str(m.community), PduTree(m)], lim);
  }

  lemma {:induction false} SendableFields(m: Message, lim: Limits)
    requires Sendable(m, lim)
    ensures 1 <= m.version <= 2 && |m.community| < lim.octets
  {}

  /** The message that a request for the given cells is meant to be. */
  function RequestMessage(version: nat, community: seq<byte>, mode: byte, id: nat, repetitions: nat,
                          cells: seq<Cell>, lim: Limits): Message {
    Message(version + 1, community, mode, id, 0, repetitions, RequestBindings(cells, mode, lim))
  }

  lemma {:induction false} RequestSendable(version: nat, community: seq<byte>, mode: byte, id: nat, repetitions: nat,
                                           cells: seq<Cell>, lim: Limits)
    requires version <= 1 && |community| < lim.octets && 0 < id < 0x8000_0000 && repetitions <= 4
    requires mode in {GET, GETNEXT, SET} || (mode == GETBULK && version == 1)
    requires forall i :: 0 <= i < |cells| ==> Configured(cells[i], mode, version == 1, lim)
    ensures Sendable(RequestMessage(version, community, mode, id, repetitions, cells, lim), lim)
  {
    var m := RequestMessage(version, community, mode, id, repetitions, cells, lim);
    forall i | 0 <= i < |m.bindings|
      ensures Canonical(m.bindings[i].name) && |m.bindings[i].name| < lim.oidText
      ensures WellFormed(m.bindings[i].value, lim)
      ensures ValidBindingType(m.bindings[i].value.Tag(), m.version == 2)
    {
      assert Configured(cells[i], mode, version == 1, lim);
    }
  }

  /**
   * A receiver that parses the datagram sees the version, the community, the PDU tag, the request ID and
   * exactly the requested names and values, in order.
   */
  lemma {:induction false} RequestRecovered(version: nat, community: seq<byte>, mode: byte, id: nat, repetitions: nat,
                                            cells: seq<Cell>, body: seq<byte>, lim: Limits)
    requires version <= 1 && |community| < 64 && |community| < lim.octets
    requires 0 < id < 0x8000_0000 && repetitions <= 4
    requires mode in {GET, GETNEXT, SET} || (mode == GETBULK && version == 1)
    requires forall i :: 0 <= i < |cells| ==> Configured(cells[i], mode, version == 1, lim)
    requires Body(cells, mode, lim) == Some(body) && |body| + Reserve(community) <= MAX_CONTENT
    ensures var m := RequestMessage(version, community, mode, id, repetitions, cells, lim);
            ParseFrom(Datagram(version, community, mode, id, repetitions, body), lim) == Some(m)
  {
    hide Configured, Body, EncodeAll, Encode, ParseFrom, Sendable, MessageTree, Datagram;
    var m := RequestMessage(version, community, mode, id, repetitions, cells, lim);
    RequestSendable(version, community, mode, id, repetitions, cells, lim);
    BodyIsTree(cells, mode, version == 1, lim);
    DatagramIsTree(m, body, lim);
    MessageRoundTrip(m, [], lim);
    var d := Datagram(version, community, mode, id, repetitions, body);
    assert d + [] == d;
  }

  // ----- packing space -----

  /** With the default OID capacity a read binding takes at most 134 octets. */
  lemma {:induction false} ReadBindingSize(name: Text, lim: Limits)
    requires lim.oidText <= 256 && Canonical(name) && |name| < lim.oidText
    ensures var b := BindingOctets(name, Some(NullOctets()), lim);
            b.Some? && |b.value| <= 134
  {
    ContentsFit(name, lim);
  }

  /** So in packets of 237 octets or more every read packs at least one binding, whatever its size. */
  lemma {:induction false} ReadsAlwaysPack(cells: seq<Cell>, mode: byte, offset: nat, limit: nat, community: seq<byte>,
                                           lim: Limits)
    requires lim.oidText <= 256 && lim.packet >= 237 && |community| < 64
    requires mode != SET && offset < |cells| && limit > 0
    requires Canonical(cells[offset].oid) && |cells[offset].oid| < lim.oidText
    ensures 1 <= Fill(cells, mode, offset, 0, 0, limit, lim.packet - Reserve(community), lim)
  {
    ReadBindingSize(cells[offset].oid, lim);
    FillStep(cells, mode, offset, 0, 0, limit, lim.packet - Reserve(community), lim);
  }

  lemma {:induction false} WalksAlwaysPack(cursor: Text, community: seq<byte>, lim: Limits)
    requires lim.oidText <= 256 && lim.packet >= 237 && |community| < 64
    requires Canonical(cursor) && |cursor| < lim.oidText
    ensures var b := BindingOctets(cursor, Some(NullOctets()), lim);
            b.Some? && |b.value| <= lim.packet - Reserve(community)
  {
    ReadBindingSize(cursor, lim);
  }
}

/** Notifications that are acknowledged: what notify takes for an INFORM, and the answer it writes over it. */
module Informs {
  import opened Bytes
  import opened Header
  import opened Integers
  import opened Oids
  import opened Trees
  import opened Serialiser
  import opened Messages
  import opened Values

  // ----- what notify accepts -----

  /** sysUpTime.0 and snmpTrapOID.0, which lead the bindings of every SNMPv2 notification. */
  const UPTIME: Text := Print([1, 3, 6, 1, 2, 1, 1, 3, 0])
  const TRAPOID: Text := Print([1, 3, 6, 1, 6, 3, 1, 1, 4, 1, 0])

  /** The binding has this name and a readable value of this type. */
  predicate Reads(b: Binding, name: Text, tag: byte, lim: Limits) {
    CopyValue(b.value, lim).0 == Success && b.name == name && CopyValue(b.value, lim).1.tag == tag
  }

  predicate Headed(bs: seq<Binding>, lim: Limits) {
    |bs| >= 2 && Reads(bs[0], UPTIME, TIMESTAMP, lim) && Reads(bs[1], TRAPOID, OID, lim)
  }

  /** An INFORM for the registered community. */
  predicate Announces(m: Message, community: seq<byte>, lim: Limits) {
    && m.version == 2 && m.kind == INFORM && m.community == community && m.errorStatus == 0 && m.errorIndex == 0
    && Headed(m.bindings, lim)
  }

  /** The INFORM that a decoded tree is, if it is one. */
  function InformOf(t: Ber, community: seq<byte>, lim: Limits): Option<Message>
    requires t.Node?
  {
    var m := ParseTree(t);
    if m.Some? && Announces(m.value, community, lim) then m else None
  }

  /** The INFORM that notify finds in a datagram. The outermost tag octet is not looked at. */
  function ReadInform(b: seq<byte>, community: seq<byte>, lim: Limits): Option<Message> {
    var t := Decode(STRUCTURE, b, lim);
    if t.None? then None else InformOf(t.value, community, lim)
  }

  lemma {:induction false} ReadInformExact(b: seq<byte>, community: seq<byte>, m: Message, lim: Limits)
    ensures ReadInform(b, community, lim) == Some(m) <==>
              Decode(STRUCTURE, b, lim) == Some(MessageTree(m)) && ValidMessage(m) && Announces(m, community, lim)
  {
    hide Decode, ParseTree, ValidMessage, Announces;
    var t := Decode(STRUCTURE, b, lim);
    if t.Some? {
      ParseTreeExact(t.value, m);
    }
    MessageTreeShape(m);
    hide MessageTree;
  }

  // ----- the acknowledgement -----

  /** The received tree with its PDU tag replaced. */
  function Retag(t: Ber, kind: byte): Ber
    requires t.Node? && |t.kids| == 3 && t.kids[2].Node?
  {
    Node(t.kind, [t.kids[0], t.kids[1], Node(kind, t.kids[2].kids)])
  }

  lemma {:induction false} RetagMessage(m: Message, kind: byte)
    ensures Retag(MessageTree(m), kind) == MessageTree(m.(kind := kind))
  {}

  /** One octet differs. */
  ghost predicate OneOctet(e: seq<byte>, a: seq<byte>, before: byte, after: byte) {
    exists p :: 0 <= p < |e| && e[p] == before && a == e[p := after]
  }

  lemma {:induction false} TagOctet(kind: byte, other: byte, c: seq<byte>)
    requires |c| <= MAX_CONTENT
    ensures Tlv(other, c) == Tlv(kind, c)[0 := other]
  {}

  /** One octet replaced behind three pieces is that octet replaced in the whole. */
  lemma {:induction false} OctetBehind(head: seq<byte>, x: seq<byte>, y: seq<byte>, z: seq<byte>,
                                       before: byte, after: byte)
    requires |z| > 0 && z[0] == before
    ensures OneOctet(head + (x + (y + z)), head + (x + (y + z[0 := after])), before, after)
  {
    var e, a, p := head + (x + (y + z)), head + (x + (y + z[0 := after])), |head| + |x| + |y|;
    assert e[p] == before;
    assert a == e[p := after];
  }

  /** The contents of a node with three children, and what it encodes to. */
  lemma {:induction false} TripleEncodes(kind: byte, a: Ber, b: Ber, c: Ber, lim: Limits)
    ensures var x, y, z := Encode(a, lim), Encode(b, lim), Encode(c, lim);
            Encode(Node(kind, [a, b, c]), lim) ==
            if x.None? || y.None? || z.None? || |x.value + (y.value + z.value)| > MAX_CONTENT then None
            else var body := x.value + (y.value + z.value); Some(EncodeHeader(kind, |body|) + body)
  {
    EncodeThree(a, b, c, lim);
    NodeContents(kind, [a, b, c], lim);
    hide Encode, EncodeAll, EncodeHeader;
  }

  lemma {:induction false} NodeContents(kind: byte, kids: seq<Ber>, lim: Limits)
    ensures var e := EncodeAll(kids, lim);
            Encode(Node(kind, kids), lim) ==
            if e.None? || |e.value| > MAX_CONTENT then None else Some(EncodeHeader(kind, |e.value|) + e.value)
  {}

  /** Another PDU tag on the same children. */
  lemma {:induction false} PduEncodes(kind: byte, other: byte, kids: seq<Ber>, lim: Limits)
    requires Encode(Node(kind, kids), lim).Some?
    ensures var z := Encode(Node(kind, kids), lim).value;
            |z| > 0 && z[0] == kind && Encode(Node(other, kids), lim) == Some(z[0 := other])
  {
    var c := EncodeAll(kids, lim).value;
    TagOctet(kind, other, c);
  }

  /** A PDU tag is one octet: replacing it changes that octet of the encoding and nothing else. */
  lemma {:induction false} RetagEncodes(t: Ber, kind: byte, lim: Limits)
    requires t.Node? && |t.kids| == 3 && t.kids[2].Node? && Encode(t, lim).Some?
    ensures Encode(Retag(t, kind), lim).Some?
    ensures OneOctet(Encode(t, lim).value, Encode(Retag(t, kind), lim).value, t.kids[2].kind, kind)
  {
    hide Encode, EncodeHeader, OneOctet;
    var a, b, c := t.kids[0], t.kids[1], t.kids[2];
    assert t == Node(t.kind, [a, b, c]);
    TripleEncodes(t.kind, a, b, c, lim);
    PduEncodes(c.kind, kind, c.kids, lim);
    TripleEncodes(t.kind, a, b, Node(kind, c.kids), lim);
    var x, y, z := Encode(a, lim).value, Encode(b, lim).value, Encode(c, lim).value;
    OctetBehind(EncodeHeader(t.kind, |x + (y + z)|), x, y, z, c.kind, kind);
    assert |x + (y + z[0 := kind])| == |x + (y + z)|;
  }

  lemma {:induction false} RetagShape(m: Message)
    ensures var t := MessageTree(m); t.Node? && |t.kids| == 3 && t.kids[2].Node? && t.kids[2].kind == m.kind
  {}

  lemma {:induction false} ResponseSendable(m: Message, lim: Limits)
    requires Sendable(m, lim)
    ensures Sendable(m.(kind := RESPONSE), lim)
  {}

  /**
   * The acknowledgement of any INFORM that was decoded fits the octets that were received, however wastefully the
   * sender encoded them. It parses to the same message with another PDU type, and differs in one octet from the
   * shortest encoding of what was received.
   */
  lemma {:induction false} AcknowledgementFits(b: seq<byte>, m: Message, lim: Limits)
    requires Decode(STRUCTURE, b, lim) == Some(MessageTree(m)) && ValidMessage(m) && m.kind == INFORM
    ensures var e, ack := Encode(MessageTree(m), lim), Encode(MessageTree(m.(kind := RESPONSE)), lim);
            && e.Some? && ack.Some? && |ack.value| <= |b|
            && OneOctet(e.value, ack.value, INFORM, RESPONSE)
            && ParseFrom(ack.value, lim) == Some(m.(kind := RESPONSE))
  {
    assert ReadHeader(b).Some?;
    hide Decode, Encode, ParseTree, MessageTree, Sendable, ReadHeader, ValidMessage;
    ReencodeNeverGrows(STRUCTURE, b, lim);
    SendableFromTree(m, lim);
    RetagShape(m);
    RetagMessage(m, RESPONSE);
    RetagEncodes(MessageTree(m), RESPONSE, lim);
    ResponseSendable(m, lim);
    var ack := Encode(MessageTree(m.(kind := RESPONSE)), lim).value;
    MessageRoundTrip(m.(kind := RESPONSE), [], lim);
    assert ack + [] == ack;
  }

  // ----- the outermost tag -----

  /** The decoder never looks at the outermost tag octet; only parseFrom does. */
  lemma {:induction false} OuterTagUnread(b: seq<byte>, tag: byte, lim: Limits)
    requires |b| > 0
    ensures Decode(STRUCTURE, b[0 := tag], lim) == Decode(STRUCTURE, b, lim)
    ensures tag != STRUCTURE ==> ParseFrom(b[0 := tag], lim).None?
  {
    hide BigEndian, DecodeKids;
    var c := b[0 := tag];
    assert forall i, j :: 1 <= i <= j <= |b| ==> c[i..j] == b[i..j];
  }

  /**
   * An INFORM is acknowledged under the outermost tag 0x30, whatever it came under. So the acknowledgement differs from
   * the request in the PDU type alone exactly when the request's own outermost tag is 0x30, which is exactly when the
   * request parses as a message itself.
   */
  lemma {:induction false} SameButForTheType(b: seq<byte>, m: Message, lim: Limits)
    requires Decode(STRUCTURE, b, lim) == Some(MessageTree(m)) && ValidMessage(m) && m.kind == INFORM
    ensures |b| >= 2 && (ParseFrom(b, lim) == Some(m) <==> b[0] == STRUCTURE)
    ensures var ack := Encode(MessageTree(m.(kind := RESPONSE)), lim);
            ack.Some? && |ack.value| >= 2 && ack.value[0] == STRUCTURE && (b[0] == ack.value[0] <==> b[0] == STRUCTURE)
  {
    assert ReadHeader(b).Some?;
    hide Decode, ParseTree, MessageTree, ValidMessage, ReadHeader;
    AcknowledgementFits(b, m, lim);
    MessageTreeShape(m);
    MessageTreeShape(m.(kind := RESPONSE));
    ParseTreeExact(MessageTree(m), m);
    hide Encode;
  }

  /** For every INFORM there is one with another outermost tag that is taken for the same and acknowledged alike. */
  lemma {:induction false} AnyOuterTagIsAcknowledged(b: seq<byte>, community: seq<byte>, m: Message, tag: byte,
                                                     lim: Limits)
    requires ReadInform(b, community, lim) == Some(m) && tag != STRUCTURE
    ensures |b| > 0 && ReadInform(b[0 := tag], community, lim) == Some(m) && ParseFrom(b[0 := tag], lim).None?
    ensures var ack := Encode(MessageTree(m.(kind := RESPONSE)), lim); ack.Some? && ack.value[0] == STRUCTURE != tag
  {
    ReadInformExact(b, community, m, lim);
    SameButForTheType(b, m, lim);
    hide Decode, ParseTree, MessageTree, ValidMessage, InformOf, Encode, Announces;
    OuterTagUnread(b, tag, lim);
  }

  // ----- notify -----

  /**
   * The tail of SNMPClient::notify for an INFORM the application accepted: the request is decoded from the shared
   * buffer, retagged and written back over it.
   */
  method Acknowledge(buffer: array<byte>, size: nat, ghost m: Message, lim: Limits) returns (length: int)
    requires size <= buffer.Length && Decode(STRUCTURE, buffer[..size], lim) == Some(MessageTree(m))
    requires ValidMessage(m) && m.kind == INFORM
    modifies buffer
    ensures 0 <= length <= size
    ensures Some(buffer[..length]) == Encode(MessageTree(m.(kind := RESPONSE)), lim)
    ensures ParseFrom(buffer[..length], lim) == Some(m.(kind := RESPONSE))
  {
    ghost var b := buffer[..size];
    assert buffer[0..0 + size] == b;
    hide Decode, DecodeAt, Encode, ParseFrom, MessageTree, Sendable, ValidMessage;
    AcknowledgementFits(b, m, lim);
    var packet := DecodeBuffer(STRUCTURE, buffer, 0, size, 0, lim);
    var reply := RetagDecoded(packet, m, b, lim);
    length := Serialise(reply, buffer, 0, buffer.Length, lim);
    if length < 0 {
      assert false;
    }
    assert buffer[..length] == Encode(reply, lim).value;
  }

  method RetagDecoded(packet: Option<Ber>, ghost m: Message, ghost b: seq<byte>, lim: Limits) returns (reply: Ber)
    requires packet == DecodeAt(STRUCTURE, b, 0, lim) && Decode(STRUCTURE, b, lim) == Some(MessageTree(m))
    ensures reply == MessageTree(m.(kind := RESPONSE))
  {
    hide DecodeAt;
    assert packet == Some(MessageTree(m));
    RetagShape(m);
    RetagMessage(m, RESPONSE);
    reply := Retag(packet.value, RESPONSE);
  }

  lemma {:induction false} ParsedEach(ts: seq<Ber>, version2: bool)
    ensures ParseBindings(ts, version2).Some? <==> forall i :: 0 <= i < |ts| ==> ParseBinding(ts[i], version2).Some?
    ensures ParseBindings(ts, version2).Some? ==>
              forall i :: 0 <= i < |ts| ==> Some(ParseBindings(ts, version2).value[i]) == ParseBinding(ts[i], version2)
    decreases |ts|
  {
    hide ParseBinding;
    if ts != [] {
      ParsedEach(ts[1..], version2);
      assert forall i :: 1 <= i < |ts| ==> ts[i] == ts[1..][i - 1];
    }
  }

  /** The loop over the bindings: each is a name and a value of a known type. */
  method ValidBindings(ts: seq<Ber>, version2: bool) returns (ok: bool)
    ensures ok == ParseBindings(ts, version2).Some?
  {
    hide ValidBindingType;
    ParsedEach(ts, version2);
    var i := 0;
    while i < |ts|
      invariant 0 <= i <= |ts|
      invariant forall j :: 0 <= j < i ==> ParseBinding(ts[j], version2).Some?
    {
      if !ts[i].Node? || ts[i].kind != STRUCTURE {
        return false;
      }
      if |ts[i].kids| != 2 || !ts[i].kids[0].Name? {
        return false;
      }
      if !ValidBindingType(ts[i].kids[1].Tag(), version2) {
        return false;
      }
      i := i + 1;
    }
    return true;
  }

  /** SNMPNotification::read: the entry at an index, with the status of its value. */
  method ReadEntry(ts: seq<Ber>, index: nat, lim: Limits) returns (status: Status, name: Text, tag: byte)
    requires ParseBindings(ts, true).Some?
    ensures index >= |ts| ==> status == Missing
    ensures index < |ts| ==>
              var b := ParseBindings(ts, true).value[index];
              && status == CopyValue(b.value, lim).0 && name == b.name && tag == CopyValue(b.value, lim).1.tag
  {
    ParsedEach(ts, true);
    hide ParseBindings, CopyValue, ValidBindingType;
    if index >= |ts| {
      return Missing, [], NULLTYPE;
    }
    assert ParseBinding(ts[index], true).Some?;
    var (s, value) := CopyValue(ts[index].kids[1], lim);
    return s, ts[index].kids[0].text, value.tag;
  }

  /** The two entries that every SNMPv2 notification begins with. */
  method BeginsRight(ts: seq<Ber>, lim: Limits) returns (ok: bool)
    requires ParseBindings(ts, true).Some?
    ensures ok == Headed(ParseBindings(ts, true).value, lim)
  {
    hide ParseBindings, CopyValue, Print;
    var s0, uptime, kind0 := ReadEntry(ts, 0, lim);
    var s1, trap, kind1 := ReadEntry(ts, 1, lim);
    ok := s0 == Success && s1 == Success && uptime == UPTIME && kind0 == TIMESTAMP && trap == TRAPOID && kind1 == OID;
  }

  /** The fields of an SNMPv2 notification PDU. */
  method InspectPdu(pdu: Ber, lim: Limits) returns (ok: bool)
    requires pdu.Node? && (pdu.kind == TRAPV2 || pdu.kind == INFORM)
    ensures ok == var m := ParsePdu(pdu, true, 1, []);
                  m.Some? && m.value.errorStatus == 0 && m.value.errorIndex == 0 && Headed(m.value.bindings, lim)
  {
    hide ParseBindings, Headed;
    var fields := pdu.kids;
    if |fields| != 4 || !IsInteger(fields[0]) || !IsInteger(fields[1]) || !IsInteger(fields[2])
       || !fields[3].Node? || fields[3].kind != STRUCTURE {
      return false;
    }
    ZeroBits(fields[1].bits);
    ZeroBits(fields[2].bits);
    if fields[1].bits != 0 || fields[2].bits != 0 {
      return false;
    }
    var valid := ValidBindings(fields[3].kids, true);
    if !valid {
      return false;
    }
    ok := BeginsRight(fields[3].kids, lim);
  }

  lemma {:induction false} ZeroBits(bits: uint32)
    ensures Signed32(bits) == 0 <==> bits == 0
  {}

  /** The checks of notify, in order. What is no INFORM is shown to the application at most, and never answered. */
  method Inspect(packet: Ber, community: seq<byte>, lim: Limits) returns (inform: bool)
    requires packet.Node?
    ensures inform == InformOf(packet, community, lim).Some?
  {
    hide ParsePdu, Headed;
    var v := packet.kids;
    if |v| != 3 || !IsInteger(v[0]) || !v[1].Str? {
      return false;
    }
    PduCommunity(v[2], v[0].bits, v[1].bytes);
    if v[1].bytes != community {
      return false;
    }
    var version, kind := v[0].bits, v[2].Tag();
    if !((version == 0 && kind == TRAP) || (version == 1 && (kind == TRAPV2 || kind == INFORM))) {
      return false;
    }
    if version == 0 || !v[2].Node? {
      return false;
    }
    var ok := InspectPdu(v[2], lim);
    inform := ok && kind == INFORM;
  }

  /** The version and the community go through the PDU parser unread. */
  lemma {:induction false} PduCommunity(pdu: Ber, wire: nat, community: seq<byte>)
    ensures var r, s := ParsePdu(pdu, wire == 1, wire, community), ParsePdu(pdu, wire == 1, wire, []);
            && (r.Some? <==> s.Some?)
            && (r.Some? ==> r.value == s.value.(community := community) && r.value.version == wire + 1 && pdu.Node?
                            && r.value.kind == pdu.kind)
  {
    hide ParseBindings;
  }

  /**
   * notify: a datagram in the buffer is answered exactly when it is an INFORM for the registered community and the
   * application accepts it; the answer is written over it. Otherwise the buffer stays as it is.
   */
  method Notify(buffer: array<byte>, size: nat, community: seq<byte>, accepts: bool, lim: Limits) returns (length: int)
    requires size <= buffer.Length
    modifies buffer
    ensures var m := old(ReadInform(buffer[..size], community, lim));
            if m.Some? && accepts then
              && 0 < length <= size && Some(buffer[..length]) == Encode(MessageTree(m.value.(kind := RESPONSE)), lim)
              && ParseFrom(buffer[..length], lim) == Some(m.value.(kind := RESPONSE))
            else length == 0 && buffer[..] == old(buffer[..])
  {
    ghost var b := buffer[..size];
    ghost var m := ReadInform(b, community, lim);
    assert buffer[0..0 + size] == b;
    if m.Some? {
      ReadInformExact(b, community, m.value, lim);
    }
    hide Decode, InformOf, Encode, ParseFrom, MessageTree, ValidMessage;
    var packet := DecodeBuffer(STRUCTURE, buffer, 0, size, 0, lim);
    DecodedIs(b, packet, lim);
    if packet.None? {
      return 0;
    }
    var inform := Inspect(packet.value, community, lim);
    if !inform || !accepts {
      return 0;
    }
    length := Acknowledge(buffer, size, m.value, lim);
  }

  lemma {:induction false} DecodedIs(b: seq<byte>, packet: Option<Ber>, lim: Limits)
    requires packet == DecodeAt(STRUCTURE, b, 0, lim)
    ensures packet == Decode(STRUCTURE, b, lim)
  {}
}

/** SNMP messages as trees: what SNMPGetResponse::parseFrom accepts and what it extracts. */
module Messages {
  import opened Bytes
  import opened Integers
  import opened Oids
  import opened Trees

  datatype Binding = Binding(name: Text, value: Ber)

  /** The fields that parseFrom exposes; `version` is 1 or 2, for the wire values 0 and 1. */
  datatype Message = Message(
    version: nat,
    community: seq<byte>,
    kind: byte,
    id: int,
    errorStatus: int,
    errorIndex: int,
    bindings: seq<Binding>)

  predicate IsInt32(n: int) { -0x8000_0000 <= n < 0x8000_0000 }

  /** isValidBindingType. */
  predicate ValidBindingType(tag: byte, version2: bool) {
    if tag in {INTEGER, STRING, OID, NULLTYPE, NETWORK_ADDRESS, COUNTER32, GAUGE32, TIMESTAMP, OPAQUE} then true
    else tag in {COUNTER64, NOSUCHOBJECT, NOSUCHINSTANCE, ENDOFMIBVIEW} && version2
  }

  predicate ValidKind(kind: byte, version2: bool) {
    kind in {GET, GETNEXT, RESPONSE, SET} || (version2 && kind in {GETBULK, INFORM, TRAPV2})
  }

  predicate ValidMessage(m: Message) {
    && 1 <= m.version <= 2
    && ValidKind(m.kind, m.version == 2)
    && IsInt32(m.id) && IsInt32(m.errorStatus) && IsInt32(m.errorIndex)
    && forall i :: 0 <= i < |m.bindings| ==> ValidBindingType(m.bindings[i].value.Tag(), m.version == 2)
  }

  // ----- message to tree -----

  function Int32(n: int): Ber { Number(INTEGER, n % TWO32) }

  function BindingTree(b: Binding): Ber { Node(STRUCTURE, [Name(b.name), b.value]) }

  function BindingTrees(bs: seq<Binding>): (r: seq<Ber>)
    ensures |r| == |bs|
    ensures forall i :: 0 <= i < |bs| ==> r[i] == BindingTree(bs[i])
  {
    seq(|bs|, i requires 0 <= i < |bs| => BindingTree(bs[i]))
  }

  function PduTree(m: Message): Ber {
    Node(m.kind, [Int32(m.id), Int32(m.errorStatus), Int32(m.errorIndex), Node(STRUCTURE, BindingTrees(m.bindings))])
  }

  function MessageTree(m: Message): Ber {
    Node(STRUCTURE, [Int32(m.version - 1), Str(m.community), PduTree(m)])
  }

  // ----- tree to message -----

  function ParseBinding(t: Ber, version2: bool): (r: Option<Binding>) {
    if t.Node? && t.kind == STRUCTURE && |t.kids| == 2 && t.kids[0].Name?
       && ValidBindingType(t.kids[1].Tag(), version2)
    then Some(Binding(t.kids[0].text, t.kids[1]))
    else None
  }

  function ParseBindings(ts: seq<Ber>, version2: bool): (r: Option<seq<Binding>>)
    ensures r.Some? ==> |r.value| == |ts|
  {
    if ts == [] then Some([])
    else
      var first, rest := ParseBinding(ts[0], version2), ParseBindings(ts[1..], version2);
      if first.None? || rest.None? then None else Some([first.value] + rest.value)
  }

  predicate IsInteger(t: Ber) { t.Number? && t.kind == INTEGER }

  function ParsePdu(pdu: Ber, version2: bool, wire: nat, community: seq<byte>): (r: Option<Message>) {
    if pdu.Node? && ValidKind(pdu.kind, version2) && |pdu.kids| == 4
       && IsInteger(pdu.kids[0]) && IsInteger(pdu.kids[1]) && IsInteger(pdu.kids[2])
       && pdu.kids[3].Node? && pdu.kids[3].kind == STRUCTURE
    then
      var bs := ParseBindings(pdu.kids[3].kids, version2);
      if bs.None? then None
      else Some(Message(wire + 1, community, pdu.kind, Signed32(pdu.kids[0].bits), Signed32(pdu.kids[1].bits),
                        Signed32(pdu.kids[2].bits), bs.value))
    else None
  }

  /** The shape checks of parseFrom on a decoded tree. */
  function ParseTree(t: Ber): (r: Option<Message>)
    requires t.Node?
  {
    if |t.kids| != 3 || !IsInteger(t.kids[0]) || !t.kids[1].Str? || t.kids[0].bits > 1 then None
    else ParsePdu(t.kids[2], t.kids[0].bits == 1, t.kids[0].bits, t.kids[1].bytes)
  }

  /** SNMPGetResponse::parseFrom. */
  function ParseFrom(b: seq<byte>, lim: Limits): (r: Option<Message>) {
    if |b| < 2 || b[0] != STRUCTURE then None
    else
      var t := Decode(STRUCTURE, b, lim);
      if t.None? then None else ParseTree(t.value)
  }

  // ----- parsing is exactly the inverse of building -----

  lemma {:induction false} Int32Bits(n: int)
    requires IsInt32(n)
    ensures Signed32(n % TWO32) == n
  {}

  lemma {:induction false} ParseBindingExact(t: Ber, b: Binding, version2: bool)
    ensures ParseBinding(t, version2) == Some(b) <==>
            t == BindingTree(b) && ValidBindingType(b.value.Tag(), version2)
  {
    if ParseBinding(t, version2) == Some(b) {
      assert t.kids == [t.kids[0], t.kids[1]];
    }
  }

  lemma {:induction false} BindingTreesCons(b: Binding, bs: seq<Binding>)
    ensures BindingTrees([b] + bs) == [BindingTree(b)] + BindingTrees(bs)
  {}

  lemma {:induction false} ParseBindingsExact(ts: seq<Ber>, bs: seq<Binding>, version2: bool)
    ensures ParseBindings(ts, version2) == Some(bs) <==>
            ts == BindingTrees(bs) && forall i :: 0 <= i < |bs| ==> ValidBindingType(bs[i].value.Tag(), version2)
    decreases |ts|
  {
    hide ParseBinding, BindingTree, ValidBindingType;
    if ts == [] {
      assert bs == [] <==> BindingTrees(bs) == [];
    } else if bs != [] {
      ParseBindingsExact(ts[1..], bs[1..], version2);
      ParseBindingExact(ts[0], bs[0], version2);
      BindingTreesCons(bs[0], bs[1..]);
      assert ts == [ts[0]] + ts[1..] && bs == [bs[0]] + bs[1..];
      assert forall i :: 1 <= i < |bs| ==> bs[i] == bs[1..][i - 1];
      var valid := forall i :: 0 <= i < |bs| ==> ValidBindingType(bs[i].value.Tag(), version2);
      assert valid <==> ValidBindingType(bs[0].value.Tag(), version2)
                        && forall i :: 0 <= i < |bs[1..]| ==> ValidBindingType(bs[1..][i].value.Tag(), version2);
    }
  }

  lemma {:induction false} PduExact(pdu: Ber, wire: nat, m: Message)
    requires wire <= 1 && m.version == wire + 1
    ensures ParsePdu(pdu, wire == 1, wire, m.community) == Some(m) <==> pdu == PduTree(m) && ValidMessage(m)
  {
    hide ParseBindings;
    if ParsePdu(pdu, wire == 1, wire, m.community) == Some(m) {
      ParseBindingsExact(pdu.kids[3].kids, m.bindings, wire == 1);
      assert pdu.kids == [pdu.kids[0], pdu.kids[1], pdu.kids[2], pdu.kids[3]];
      assert pdu == PduTree(m);
    }
    if pdu == PduTree(m) && ValidMessage(m) {
      ParseBindingsExact(pdu.kids[3].kids, m.bindings, wire == 1);
      Int32Bits(m.id);
      Int32Bits(m.errorStatus);
      Int32Bits(m.errorIndex);
    }
  }

  /** A tree yields the message m exactly when it is the tree of m and m is valid: nothing is lost or invented. */
  lemma {:induction false} ParseTreeExact(t: Ber, m: Message)
    requires t.Node? && t.kind == STRUCTURE
    ensures ParseTree(t) == Some(m) <==> t == MessageTree(m) && ValidMessage(m)
  {
    hide ParsePdu, PduTree;
    if ParseTree(t) == Some(m) {
      assert ParseTree(t) == ParsePdu(t.kids[2], t.kids[0].bits == 1, t.kids[0].bits, t.kids[1].bytes);
      ParsePduVersion(t.kids[2], t.kids[0].bits, t.kids[1].bytes);
      PduExact(t.kids[2], t.kids[0].bits, m);
      assert t.kids == [t.kids[0], t.kids[1], t.kids[2]];
    }
    if t == MessageTree(m) && ValidMessage(m) {
      PduExact(t.kids[2], m.version - 1, m);
    }
  }

  lemma {:induction false} ParsePduVersion(pdu: Ber, wire: nat, community: seq<byte>)
    ensures var r := ParsePdu(pdu, wire == 1, wire, community);
            r.Some? ==> r.value.version == wire + 1 && r.value.community == community
  {}

  /** Messages whose names and payloads respect the decoder's limits. */
  predicate Sendable(m: Message, lim: Limits) {
    && ValidMessage(m)
    && |m.community| < lim.octets
    && forall i :: 0 <= i < |m.bindings| ==>
         && Canonical(m.bindings[i].name) && |m.bindings[i].name| < lim.oidText
         && WellFormed(m.bindings[i].value, lim)
  }

  lemma {:induction false} BindingTreesShallow(ts: seq<Ber>)
    requires forall i :: 0 <= i < |ts| ==> Levels(ts[i]) <= 1
    ensures LevelsAll(ts) <= 1
    decreases |ts|
  {
    if ts != [] {
      BindingTreesShallow(ts[1..]);
    }
  }

  lemma {:induction false} BindingTreeWellFormed(b: Binding, version2: bool, lim: Limits)
    requires Canonical(b.name) && |b.name| < lim.oidText
    requires WellFormed(b.value, lim) && ValidBindingType(b.value.Tag(), version2)
    ensures WellFormed(BindingTree(b), lim) && Levels(BindingTree(b)) == 1
  {
    assert !b.value.Node?;
    var kids := [Name(b.name), b.value];
    assert kids[1..] == [b.value] && [b.value][1..] == [];
    assert LevelsAll([b.value]) == 0 && LevelsAll(kids) == 0;
  }

  lemma {:induction false} BindingListWellFormed(m: Message, lim: Limits)
    requires Sendable(m, lim)
    ensures WellFormed(Node(STRUCTURE, BindingTrees(m.bindings)), lim)
    ensures Levels(Node(STRUCTURE, BindingTrees(m.bindings))) <= 2
  {
    var bs := BindingTrees(m.bindings);
    forall i | 0 <= i < |bs|
      ensures WellFormed(bs[i], lim) && Levels(bs[i]) <= 1
    {
      BindingTreeWellFormed(m.bindings[i], m.version == 2, lim);
    }
    BindingTreesShallow(bs);
  }

  lemma {:induction false} PduWellFormed(m: Message, lim: Limits)
    requires Sendable(m, lim)
    ensures WellFormed(PduTree(m), lim) && Levels(PduTree(m)) <= 3
  {
    BindingListWellFormed(m, lim);
    IntWellFormed(m.id, lim);
    IntWellFormed(m.errorStatus, lim);
    IntWellFormed(m.errorIndex, lim);
    hide WellFormed, LevelsAll, Int32, BindingTrees;
    var list := Node(STRUCTURE, BindingTrees(m.bindings));
    var fields := [Int32(m.id), Int32(m.errorStatus), Int32(m.errorIndex), list];
    NodeWellFormed(m.kind, fields, lim);
    FourLevels(fields[0], fields[1], fields[2], list, 2);
  }

  lemma {:induction false} MessageTreeWellFormed(m: Message, lim: Limits)
    requires Sendable(m, lim)
    ensures WellFormed(MessageTree(m), lim) && Levels(MessageTree(m)) <= 4
  {
    PduWellFormed(m, lim);
    IntWellFormed(m.version - 1, lim);
    StrWellFormed(m.community, lim);
    hide WellFormed, LevelsAll, Int32, PduTree;
    var top := [Int32(m.version - 1), Str(m.community), PduTree(m)];
    NodeWellFormed(STRUCTURE, top, lim);
    ThreeLevels(top[0], top[1], top[2], 3);
  }

  lemma {:induction false} NodeWellFormed(kind: byte, kids: seq<Ber>, lim: Limits)
    requires Constructed(kind) && forall i :: 0 <= i < |kids| ==> WellFormed(kids[i], lim)
    ensures WellFormed(Node(kind, kids), lim)
  {}

  lemma {:induction false} IntWellFormed(n: int, lim: Limits)
    ensures WellFormed(Int32(n), lim) && Levels(Int32(n)) == 0
  {}

  lemma {:induction false} StrWellFormed(s: seq<byte>, lim: Limits)
    requires |s| < lim.octets
    ensures WellFormed(Str(s), lim) && Levels(Str(s)) == 0
  {}

  lemma {:induction false} FourLevels(a: Ber, b: Ber, c: Ber, d: Ber, n: nat)
    requires Levels(a) <= n && Levels(b) <= n && Levels(c) <= n && Levels(d) <= n
    ensures LevelsAll([a, b, c, d]) <= n
  {
    ThreeLevels(b, c, d, n);
    assert [a, b, c, d][1..] == [b, c, d];
  }

  lemma {:induction false} ThreeLevels(a: Ber, b: Ber, c: Ber, n: nat)
    requires Levels(a) <= n && Levels(b) <= n && Levels(c) <= n
    ensures LevelsAll([a, b, c]) <= n
  {
    assert [a, b, c][1..] == [b, c] && [b, c][1..] == [c] && [c][1..] == [];
    assert LevelsAll([c]) <= n;
    assert LevelsAll([b, c]) <= n;
  }

  /** Parsing a message's own serialisation recovers every field and every binding, in order. */
  lemma {:induction false} MessageRoundTrip(m: Message, rest: seq<byte>, lim: Limits)
    requires Sendable(m, lim) && Encode(MessageTree(m), lim).Some?
    ensures ParseFrom(Encode(MessageTree(m), lim).value + rest, lim) == Some(m)
  {
    hide Decode, Encode, ParseTree, MessageTree;
    var t := MessageTree(m);
    assert t.Node? && t.kind == STRUCTURE by { MessageTreeShape(m); }
    MessageTreeWellFormed(m, lim);
    TreeRoundTrip(t, rest, lim);
    ParseTreeExact(t, m);
  }

  lemma {:induction false} MessageTreeShape(m: Message)
    ensures MessageTree(m).Node? && MessageTree(m).kind == STRUCTURE
  {}

  /** Whatever packet is accepted, its message is valid and sendable, and its tree is the message's tree. */
  lemma {:induction false} AcceptedIsSendable(b: seq<byte>, m: Message, lim: Limits)
    requires ParseFrom(b, lim) == Some(m)
    ensures Sendable(m, lim) && Decode(STRUCTURE, b, lim) == Some(MessageTree(m))
  {
    var t := Decode(STRUCTURE, b, lim).value;
    ParseTreeExact(t, m);
    ReencodeNeverGrows(STRUCTURE, b, lim);
    assert WellFormed(t, lim);
    SendableFromTree(m, lim);
  }

  lemma {:induction false} SendableFromTree(m: Message, lim: Limits)
    requires ValidMessage(m) && WellFormed(MessageTree(m), lim)
    ensures Sendable(m, lim)
  {
    var t := MessageTree(m);
    assert WellFormed(t.kids[1], lim) && WellFormed(t.kids[2], lim);
    var list := t.kids[2].kids[3];
    assert WellFormed(list, lim);
    forall i | 0 <= i < |m.bindings|
      ensures Canonical(m.bindings[i].name) && |m.bindings[i].name| < lim.oidText
      ensures WellFormed(m.bindings[i].value, lim)
    {
      var b := list.kids[i];
      assert WellFormed(b, lim);
      assert b.kids[0] == Name(m.bindings[i].name) && b.kids[1] == m.bindings[i].value;
      assert WellFormed(b.kids[0], lim) && WellFormed(b.kids[1], lim);
    }
  }
}

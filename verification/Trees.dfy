/** BER value trees: what ComplexType and the leaf containers hold, encode and accept. */
module Trees {
  import opened Bytes
  import opened Header
  import opened Integers
  import opened Oids

  const STRING: byte := 0x04
  const NULLTYPE: byte := 0x05
  const OID: byte := 0x06
  const STRUCTURE: byte := 0x30
  const NETWORK_ADDRESS: byte := 0x40
  const COUNTER32: byte := 0x41
  const GAUGE32: byte := 0x42
  const TIMESTAMP: byte := 0x43
  const OPAQUE: byte := 0x44
  const COUNTER64: byte := 0x46
  const NOSUCHOBJECT: byte := 0x80
  const NOSUCHINSTANCE: byte := 0x81
  const ENDOFMIBVIEW: byte := 0x82
  const GET: byte := 0xA0
  const GETNEXT: byte := 0xA1
  const RESPONSE: byte := 0xA2
  const SET: byte := 0xA3
  const TRAP: byte := 0xA4
  const GETBULK: byte := 0xA5
  const INFORM: byte := 0xA6
  const TRAPV2: byte := 0xA7

  const MAX_DEPTH := 32

  datatype Ber =
    | Node(kind: byte, kids: seq<Ber>)
    | Number(kind: byte, bits: uint32)     // INTEGER, Counter32, Gauge32, TimeTicks
    | Str(bytes: seq<byte>)                // OCTET STRING
    | Name(text: Text)                     // OBJECT IDENTIFIER, kept as dotted text
    | Null
    | Address(octets: seq<byte>)           // IpAddress
    | Counter(total: uint64)               // Counter64
    | Raw(kind: byte, bytes: seq<byte>)    // Opaque and the per-binding exceptions
  {
    function Tag(): byte {
      match this
      case Node(k, _) => k
      case Number(k, _) => k
      case Str(_) => STRING
      case Name(_) => OID
      case Null => NULLTYPE
      case Address(_) => NETWORK_ADDRESS
      case Counter(_) => COUNTER64
      case Raw(k, _) => k
    }
  }

  predicate Constructed(tag: byte) { tag == STRUCTURE || GET <= tag <= TRAPV2 }
  predicate Numeric(tag: byte) { tag == INTEGER || COUNTER32 <= tag <= TIMESTAMP }
  predicate Exceptional(tag: byte) { NOSUCHOBJECT <= tag <= ENDOFMIBVIEW }

  // ----- encoding -----

  /** Contents octets that a leaf container serialises, or None where it returns -1. */
  function LeafContents(t: Ber, lim: Limits): (r: Option<seq<byte>>)
    requires !t.Node?
    ensures r.Some? ==> |r.value| <= MAX_CONTENT
  {
    match t
    case Number(k, bits) => IntegerRoundTrip(k, bits); Some(Content(Meaning(k, bits)))
    case Str(bytes) => if |bytes| < lim.octets then Some(bytes) else None
    case Name(text) =>
      var r := EncodeText(text, lim);
      if r.None? then None else (ContentsFit(text, lim); r)
    case Null => Some([])
    case Address(octets) => if |octets| == 4 then Some(octets) else None
    case Counter(total) => Counter64RoundTrip(total); Some(Content(total))
    case Raw(_, bytes) => if |bytes| <= lim.octets then Some(bytes) else None
  }

  /** The bytes `serialise` writes for a container, or None where it returns -1. */
  function Encode(t: Ber, lim: Limits): (r: Option<seq<byte>>)
    ensures r.Some? ==> 2 <= |r.value| <= MAX_CONTENT + 4 && r.value[0] == t.Tag()
    decreases t, 1
  {
    var contents := if t.Node? then EncodeAll(t.kids, lim) else LeafContents(t, lim);
    if contents.None? || |contents.value| > MAX_CONTENT then None
    else Some(Tlv(t.Tag(), contents.value))
  }

  function EncodeAll(kids: seq<Ber>, lim: Limits): (r: Option<seq<byte>>)
    decreases kids, 0
  {
    if kids == [] then Some([])
    else
      var first := Encode(kids[0], lim);
      var rest := EncodeAll(kids[1..], lim);
      if first.None? || rest.None? then None else Some(first.value + rest.value)
  }

  lemma {:induction false} EncodeOne(a: Ber, lim: Limits)
    ensures EncodeAll([a], lim) == Encode(a, lim)
  {
    hide Encode;
    var x := Encode(a, lim);
    assert [a][1..] == [] && EncodeAll([], lim) == Some([]);
    assert x.Some? ==> x.value + [] == x.value;
  }

  lemma {:induction false} EncodeTwo(a: Ber, b: Ber, lim: Limits)
    ensures EncodeAll([a, b], lim) ==
            var x, y := Encode(a, lim), Encode(b, lim);
            if x.None? || y.None? then None else Some(x.value + y.value)
  {
    hide Encode;
    assert [a, b][1..] == [b];
    EncodeOne(b, lim);
  }

  lemma {:induction false} EncodeThree(a: Ber, b: Ber, c: Ber, lim: Limits)
    ensures EncodeAll([a, b, c], lim) ==
            var x, y, z := Encode(a, lim), Encode(b, lim), Encode(c, lim);
            if x.None? || y.None? || z.None? then None else Some(x.value + (y.value + z.value))
  {
    hide Encode;
    assert [a, b, c][1..] == [b, c];
    EncodeTwo(b, c, lim);
  }

  // ----- decoding -----

  function DecodeLeaf(tag: byte, c: seq<byte>, lim: Limits): (r: Option<Ber>)
    ensures r.Some? ==> !r.value.Node? && r.value.Tag() == tag
  {
    if Numeric(tag) then
      var bits := DecodeInteger(tag, c);
      if bits.None? then None else Some(Number(tag, bits.value))
    else if tag == STRING then (if |c| < lim.octets then Some(Str(c)) else None)
    else if tag == OID then
      var text := DecodeText(c, lim);
      if text.None? then None else Some(Name(text.value))
    else if tag == NULLTYPE then (if c == [] then Some(Null) else None)
    else if tag == NETWORK_ADDRESS then (if |c| == 4 then Some(Address(c)) else None)
    else if tag == COUNTER64 then
      var total := DecodeCounter64(c);
      if total.None? then None else Some(Counter(total.value))
    else if tag == OPAQUE then (if |c| <= lim.octets then Some(Raw(tag, c)) else None)
    else if Exceptional(tag) then (if c == [] then Some(Raw(tag, c)) else None)
    else None
  }

  /** One child of a constructed value at `depth`: a nested value sits one level deeper. */
  function DecodeChild(tag: byte, c: seq<byte>, depth: nat, lim: Limits): (r: Option<Ber>)
    ensures r.Some? ==> r.value.Tag() == tag
    decreases |c|, 1
  {
    if !Constructed(tag) then DecodeLeaf(tag, c, lim)
    else if depth + 1 >= MAX_DEPTH then None
    else
      var kids := DecodeKids(c, depth + 1, lim);
      if kids.None? then None else Some(Node(tag, kids.value))
  }

  /** The child loop of ComplexType::decode over the contents of a value at `depth`. */
  function DecodeKids(c: seq<byte>, depth: nat, lim: Limits): (r: Option<seq<Ber>>)
    decreases |c|, 0
  {
    if c == [] then Some([])
    else
      var h := ReadHeader(c);
      if h.None? then None
      else
        var end := h.value.size + h.value.length;
        var child := DecodeChild(c[0], c[h.value.size..end], depth, lim);
        var rest := DecodeKids(c[end..], depth, lim);
        if child.None? || rest.None? then None else Some([child.value] + rest.value)
  }

  /** ComplexType(tag).decode on the bytes it may access: the outer tag octet is the caller's business. */
  function DecodeAt(tag: byte, b: seq<byte>, depth: nat, lim: Limits): (r: Option<Ber>)
    ensures r.Some? ==> r.value.Node? && r.value.kind == tag
  {
    var h := ReadHeader(b);
    if depth >= MAX_DEPTH || h.None? then None
    else
      var kids := DecodeKids(b[h.value.size..h.value.size + h.value.length], depth, lim);
      if kids.None? then None else Some(Node(tag, kids.value))
  }

  /** ComplexType(tag).fromBuffer. */
  function Decode(tag: byte, b: seq<byte>, lim: Limits): (r: Option<Ber>)
    ensures r.Some? ==> r.value.Node? && r.value.kind == tag
  {
    DecodeAt(tag, b, 0, lim)
  }

  // ----- well-formed trees -----

  function Levels(t: Ber): nat
    decreases t, 1
  {
    if t.Node? then 1 + LevelsAll(t.kids) else 0
  }

  function LevelsAll(kids: seq<Ber>): (n: nat)
    ensures forall i :: 0 <= i < |kids| ==> Levels(kids[i]) <= n
    decreases kids, 0
  {
    if kids == [] then 0
    else
      var a, b := Levels(kids[0]), LevelsAll(kids[1..]);
      if a > b then a else b
  }

  /** Trees whose leaves respect the decoder's limits and whose OIDs are spelled canonically. */
  predicate WellFormed(t: Ber, lim: Limits)
    decreases t
  {
    match t
    case Node(k, kids) => Constructed(k) && forall i :: 0 <= i < |kids| ==> WellFormed(kids[i], lim)
    case Number(k, _) => Numeric(k)
    case Str(bytes) => |bytes| < lim.octets
    case Name(text) => Canonical(text) && |text| < lim.oidText
    case Null => true
    case Address(octets) => |octets| == 4
    case Counter(_) => true
    case Raw(k, bytes) => (k == OPAQUE && |bytes| <= lim.octets) || (Exceptional(k) && bytes == [])
  }

  // ----- leaves -----

  lemma {:induction false} LeafRoundTrip(t: Ber, lim: Limits)
    requires !t.Node? && WellFormed(t, lim)
    ensures LeafContents(t, lim).Some?
    ensures DecodeLeaf(t.Tag(), LeafContents(t, lim).value, lim) == Some(t)
  {
    match t
    case Number(k, bits) => IntegerRoundTrip(k, bits);
    case Counter(total) => Counter64RoundTrip(total);
    case Name(text) => TextRoundTrip(text, lim);
    case _ =>
  }

  /** Whatever a leaf decoder accepts, its encoder writes back in no more octets. */
  lemma {:induction false} LeafReencodes(tag: byte, c: seq<byte>, lim: Limits)
    requires DecodeLeaf(tag, c, lim).Some?
    ensures var t := DecodeLeaf(tag, c, lim).value;
            WellFormed(t, lim) && LeafContents(t, lim).Some? && |LeafContents(t, lim).value| <= |c|
  {
    if Numeric(tag) {
      AcceptedInteger(tag, c);
      ContentIsShortest(c);
    } else if tag == OID {
      WireRoundTrip(c, lim);
    } else if tag == COUNTER64 {
      AcceptedCounter64(c);
      ContentIsShortest(c);
    }
  }

  // ----- whole trees -----

  /** Decoding undoes encoding exactly for the trees that are not nested too deeply. */
  lemma {:induction false} KidsRoundTrip(kids: seq<Ber>, depth: nat, lim: Limits)
    requires forall i :: 0 <= i < |kids| ==> WellFormed(kids[i], lim)
    requires depth < MAX_DEPTH && EncodeAll(kids, lim).Some?
    ensures DecodeKids(EncodeAll(kids, lim).value, depth, lim) ==
            if LevelsAll(kids) + depth < MAX_DEPTH then Some(kids) else None
    decreases kids, 0
  {
    if kids != [] {
      var t, rest := kids[0], EncodeAll(kids[1..], lim).value;
      ChildRoundTrip(t, depth, lim);
      KidsRoundTrip(kids[1..], depth, lim);
      var contents := if t.Node? then EncodeAll(t.kids, lim).value else LeafContents(t, lim).value;
      HeaderRoundTrip(t.Tag(), contents, rest);
      assert [t] + kids[1..] == kids;
    }
  }

  lemma {:induction false} ChildRoundTrip(t: Ber, depth: nat, lim: Limits)
    requires WellFormed(t, lim) && depth < MAX_DEPTH && Encode(t, lim).Some?
    ensures var contents := if t.Node? then EncodeAll(t.kids, lim) else LeafContents(t, lim);
            DecodeChild(t.Tag(), contents.value, depth, lim) ==
            if Levels(t) + depth < MAX_DEPTH then Some(t) else None
    decreases t, 1
  {
    hide DecodeKids, EncodeAll, ReadHeader, LeafContents, DecodeLeaf;
    if t.Node? {
      assert Levels(t) == 1 + LevelsAll(t.kids);
      if depth + 1 < MAX_DEPTH {
        KidsRoundTrip(t.kids, depth + 1, lim);
      }
    } else {
      assert Levels(t) == 0;
      LeafRoundTrip(t, lim);
    }
  }

  /**
   * Decoding the serialisation of a tree gives the tree back, whatever follows it, and consumes exactly
   * its octets, precisely when the tree has at most 32 levels; a deeper one is rejected.
   */
  lemma {:induction false} TreeRoundTrip(t: Ber, rest: seq<byte>, lim: Limits)
    requires t.Node? && WellFormed(t, lim) && Encode(t, lim).Some?
    ensures var b := Encode(t, lim).value;
            && Decode(t.kind, b + rest, lim) == (if Levels(t) <= MAX_DEPTH then Some(t) else None)
            && ReadHeader(b + rest).Some?
            && ReadHeader(b + rest).value.size + ReadHeader(b + rest).value.length == |b|
  {
    var contents := EncodeAll(t.kids, lim).value;
    KidsRoundTrip(t.kids, 0, lim);
    HeaderRoundTrip(t.kind, contents, rest);
    var b := Tlv(t.kind, contents) + rest;
    var h := HeaderSize(|contents|);
    assert b[h..h + |contents|] == b[h..][..|contents|];
  }

  lemma {:induction false} KidsReencode(c: seq<byte>, depth: nat, lim: Limits)
    requires DecodeKids(c, depth, lim).Some? && depth < MAX_DEPTH
    ensures var kids := DecodeKids(c, depth, lim).value;
            && (forall i :: 0 <= i < |kids| ==> WellFormed(kids[i], lim))
            && LevelsAll(kids) + depth < MAX_DEPTH
            && EncodeAll(kids, lim).Some? && |EncodeAll(kids, lim).value| <= |c|
    decreases |c|, 0
  {
    if c != [] {
      var h := ReadHeader(c).value;
      var end := h.size + h.length;
      var child := DecodeChild(c[0], c[h.size..end], depth, lim).value;
      var rest := DecodeKids(c[end..], depth, lim).value;
      ChildReencodes(c[0], c[h.size..end], depth, lim);
      KidsReencode(c[end..], depth, lim);
      HeaderIsShortest(c);
      var kids := DecodeKids(c, depth, lim).value;
      assert kids[0] == child && kids[1..] == rest;
      assert |Encode(child, lim).value| <= end;
    }
  }

  lemma {:induction false} ChildReencodes(tag: byte, c: seq<byte>, depth: nat, lim: Limits)
    requires DecodeChild(tag, c, depth, lim).Some? && depth < MAX_DEPTH && |c| <= MAX_CONTENT
    ensures var t := DecodeChild(tag, c, depth, lim).value;
            && WellFormed(t, lim) && Levels(t) + depth < MAX_DEPTH
            && Encode(t, lim).Some? && |Encode(t, lim).value| <= HeaderSize(|c|) + |c|
    decreases |c|, 1
  {
    if Constructed(tag) {
      KidsReencode(c, depth + 1, lim);
    } else {
      LeafReencodes(tag, c, lim);
    }
  }

  /**
   * Re-encoding never grows: anything accepted, whatever non-minimal lengths and integers it used, is
   * serialised in no more octets than were received, and decodes to the same tree.
   */
  lemma {:induction false} ReencodeNeverGrows(tag: byte, b: seq<byte>, lim: Limits)
    requires Constructed(tag) && Decode(tag, b, lim).Some?
    ensures var t := Decode(tag, b, lim).value;
            && WellFormed(t, lim) && Levels(t) <= MAX_DEPTH
            && Encode(t, lim).Some?
            && |Encode(t, lim).value| <= ReadHeader(b).value.size + ReadHeader(b).value.length
            && Decode(tag, Encode(t, lim).value, lim) == Some(t)
  {
    hide ReadHeader, DecodeKids, EncodeAll;
    var h := ReadHeader(b).value;
    var t := Decode(tag, b, lim).value;
    KidsReencode(b[h.size..h.size + h.length], 0, lim);
    HeaderIsShortest(b);
    TreeRoundTrip(t, [], lim);
    assert Encode(t, lim).value + [] == Encode(t, lim).value;
  }

  /** Two well-formed trees with the same serialisation are the same tree. */
  lemma {:induction false} EncodeInjective(t: Ber, u: Ber, lim: Limits)
    requires t.Node? && WellFormed(t, lim) && Levels(t) <= MAX_DEPTH && Encode(t, lim).Some?
    requires u.Node? && WellFormed(u, lim) && Levels(u) <= MAX_DEPTH
    requires Encode(u, lim) == Encode(t, lim)
    ensures t == u
  {
    TreeRoundTrip(t, [], lim);
    TreeRoundTrip(u, [], lim);
  }
}

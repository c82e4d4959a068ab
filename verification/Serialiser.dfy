/** ComplexType::serialise and ComplexType::decode as they run: two passes over caller-owned memory. */
module Serialiser {
  import opened Bytes
  import opened Header
  import opened Integers
  import opened OidCodec
  import opened Trees

  const UNLIMITED := 0xFFFF_FFFF   // the default capacity, static_cast<size_t>(-1) on a 32-bit target

  /** The return value promised for a capacity: the encoded size, or -1. */
  function Result(t: Ber, capacity: nat, lim: Limits): int {
    var e := Encode(t, lim);
    if e.Some? && |e.value| <= capacity then |e.value| else -1
  }

  /** `after` is `before` with `e` written at `start`. */
  ghost predicate Written(before: seq<byte>, after: seq<byte>, start: nat, e: seq<byte>) {
    && |after| == |before|
    && start + |e| <= |before|
    && after == before[..start] + e + before[start + |e|..]
  }

  lemma {:induction false} WrittenTwice(a: seq<byte>, b: seq<byte>, c: seq<byte>, start: nat, e: seq<byte>,
                                        f: seq<byte>)
    requires Written(a, b, start, e) && Written(b, c, start + |e|, f)
    ensures Written(a, c, start, e + f)
  {
    var end := start + |e| + |f|;
    assert b[..start + |e|] == a[..start] + e;
    assert b[end..] == a[end..];
  }

  /** memcpy into the caller's buffer. */
  method WriteOctets(buf: array<byte>, start: nat, e: seq<byte>)
    requires start + |e| <= buf.Length
    modifies buf
    ensures Written(old(buf[..]), buf[..], start, e)
  {
    var i := 0;
    while i < |e|
      invariant 0 <= i <= |e|
      invariant buf[..] == old(buf[..])[..start] + e[..i] + old(buf[..])[start + i..]
    {
      buf[start + i] := e[i];
      i := i + 1;
    }
    assert e[..|e|] == e;
  }

  /** The contents of a leaf, computed by the loop of its own serialise method. */
  method LeafOctets(t: Ber, lim: Limits) returns (r: Option<seq<byte>>)
    requires !t.Node?
    ensures r == LeafContents(t, lim)
  {
    match t
    case Number(k, bits) =>
      var c := IntegerContents(k, bits);
      r := Some(c);
    case Name(text) =>
      r := ContentsOfText(text, lim);
    case Counter(total) =>
      var c := Counter64Contents(total);
      r := Some(c);
    case Str(bytes) =>
      r := if |bytes| < lim.octets then Some(bytes) else None;
    case Null =>
      r := Some([]);
    case Address(octets) =>
      r := if |octets| == 4 then Some(octets) else None;
    case Raw(_, bytes) =>
      r := if |bytes| <= lim.octets then Some(bytes) else None;
  }

  lemma {:induction false} EncodeAllSnoc(kids: seq<Ber>, k: nat, lim: Limits)
    requires k < |kids|
    ensures EncodeAll(kids[..k + 1], lim) ==
            var a, b := EncodeAll(kids[..k], lim), Encode(kids[k], lim);
            if a.None? || b.None? then None else Some(a.value + b.value)
    decreases k
  {
    if k == 0 {
      assert kids[..1] == [kids[0]] && kids[..1][1..] == [] && kids[..0] == [];
      var b := Encode(kids[0], lim);
      assert b.Some? ==> b.value + [] == b.value && [] + b.value == b.value;
    } else {
      assert kids[..k + 1][1..] == kids[1..][..k] && kids[..k][1..] == kids[1..][..k - 1];
      EncodeAllSnoc(kids[1..], k - 1, lim);
      var a, b := EncodeAll(kids[1..][..k - 1], lim), Encode(kids[k], lim);
      var first := Encode(kids[0], lim);
      if first.Some? && a.Some? && b.Some? {
        assert first.value + (a.value + b.value) == (first.value + a.value) + b.value;
      }
    }
  }

  /** If a prefix of the children cannot be encoded in 65535 octets, all of them cannot either. */
  lemma {:induction false} EncodeAllPrefix(kids: seq<Ber>, k: nat, lim: Limits)
    requires k <= |kids| && EncodeAll(kids, lim).Some?
    ensures EncodeAll(kids[..k], lim).Some?
    ensures |EncodeAll(kids[..k], lim).value| <= |EncodeAll(kids, lim).value|
    ensures EncodeAll(kids[..k], lim).value == EncodeAll(kids, lim).value[..|EncodeAll(kids[..k], lim).value|]
    decreases |kids|
  {
    if k == 0 {
      assert kids[..0] == [];
    } else {
      EncodeAllPrefix(kids[1..], k - 1, lim);
      assert kids[..k][1..] == kids[1..][..k - 1];
    }
  }

  /**
   * Measures first and writes second. The size is the same in both passes, so a buffer that is too small
   * is left untouched and the failure return between two children cannot be reached.
   */
  method Serialise(t: Ber, buf: array?<byte>, start: nat, capacity: nat, lim: Limits) returns (r: int)
    requires buf != null ==> start + capacity <= buf.Length
    modifies if buf == null then {} else {buf}
    ensures r == Result(t, capacity, lim)
    ensures buf != null && r < 0 ==> buf[..] == old(buf[..])
    ensures buf != null && r >= 0 ==> Written(old(buf[..]), buf[..], start, Encode(t, lim).value)
    decreases t, 1
  {
    hide Encode, EncodeAll, EncodeHeader, Tlv, Written;
    if !t.Node? {
      r := SerialiseLeaf(t, buf, start, capacity, lim);
      return;
    }
    NodeEncoding(t, lim);
    var length := Measure(t.kids, lim);
    if length < 0 {
      return -1;
    }
    var header := HeaderSize(length);
    if header + length > capacity {
      return -1;
    }
    if buf != null {
      WriteNode(t, buf, start, length, capacity, lim);
    }
    return header + length;
  }

  lemma {:induction false} NodeEncoding(t: Ber, lim: Limits)
    requires t.Node?
    ensures var e := EncodeAll(t.kids, lim);
            && (e.Some? && |e.value| <= MAX_CONTENT ==>
                  Encode(t, lim) == Some(EncodeHeader(t.kind, |e.value|) + e.value))
            && (e.None? || |e.value| > MAX_CONTENT ==> Encode(t, lim).None?)
  {}

  /** A primitive container writes its header and its contents. */
  method SerialiseLeaf(t: Ber, buf: array?<byte>, start: nat, capacity: nat, lim: Limits) returns (r: int)
    requires !t.Node? && (buf != null ==> start + capacity <= buf.Length)
    modifies if buf == null then {} else {buf}
    ensures r == Result(t, capacity, lim)
    ensures buf != null && r < 0 ==> buf[..] == old(buf[..])
    ensures buf != null && r >= 0 ==> Written(old(buf[..]), buf[..], start, Encode(t, lim).value)
  {
    hide EncodeAll, EncodeHeader, LeafContents;
    var c := LeafOctets(t, lim);
    if c.None? || HeaderSize(|c.value|) + |c.value| > capacity {
      return -1;
    }
    if buf != null {
      WriteOctets(buf, start, Tlv(t.Tag(), c.value));
    }
    return HeaderSize(|c.value|) + |c.value|;
  }

  /** The header of a constructed value, and its children behind it. */
  method WriteNode(t: Ber, buf: array<byte>, start: nat, length: nat, capacity: nat, lim: Limits)
    requires t.Node? && length <= MAX_CONTENT && HeaderSize(length) + length <= capacity
    requires start + capacity <= buf.Length
    requires EncodeAll(t.kids, lim).Some? && length == |EncodeAll(t.kids, lim).value|
    modifies buf
    ensures Written(old(buf[..]), buf[..], start, EncodeHeader(t.kind, length) + EncodeAll(t.kids, lim).value)
    decreases t, 0
  {
    hide Encode, EncodeAll, EncodeHeader, Written;
    ghost var was := buf[..];
    ghost var contents := EncodeAll(t.kids, lim).value;
    var header := EncodeHeader(t.kind, length);
    WriteHeader(buf, start, header);
    ghost var headed := buf[..];
    WriteKids(t.kids, buf, start + |header|, capacity - |header|, lim);
    WrittenTwice(was, headed, buf[..], start, header, contents);
  }

  method WriteHeader(buf: array<byte>, start: nat, header: seq<byte>)
    requires start + |header| <= buf.Length
    modifies buf
    ensures Written(old(buf[..]), buf[..], start, header)
  {
    WriteOctets(buf, start, header);
  }

  /** The second pass over the children. */
  method WriteKids(kids: seq<Ber>, buf: array<byte>, start: nat, capacity: nat, lim: Limits)
    requires start + capacity <= buf.Length
    requires EncodeAll(kids, lim).Some? && |EncodeAll(kids, lim).value| <= capacity
    modifies buf
    ensures Written(old(buf[..]), buf[..], start, EncodeAll(kids, lim).value)
    decreases kids, 2
  {
    hide Encode, EncodeAll, Written;
    ghost var was := buf[..];
    var offset, k := 0, 0;
    NoneWritten(was, start, kids[..0], lim);
    while k < |kids|
      invariant 0 <= k <= |kids|
      invariant EncodeAll(kids[..k], lim).Some?
      invariant offset == |EncodeAll(kids[..k], lim).value| <= capacity
      invariant Written(was, buf[..], start, EncodeAll(kids[..k], lim).value)
    {
      ghost var before := buf[..];
      EncodeAllSnoc(kids, k, lim);
      EncodeAllPrefix(kids, k + 1, lim);
      var child := Serialise(kids[k], buf, start + offset, capacity - offset, lim);
      if child < 0 {
        assert false;
      }
      WrittenTwice(was, before, buf[..], start, EncodeAll(kids[..k], lim).value, Encode(kids[k], lim).value);
      offset := offset + child;
      k := k + 1;
    }
    assert kids[..|kids|] == kids;
  }

  lemma {:induction false} NoneWritten(was: seq<byte>, start: nat, kids: seq<Ber>, lim: Limits)
    requires kids == [] && start <= |was|
    ensures EncodeAll(kids, lim) == Some([]) && Written(was, was, start, [])
  {}

  method Measure(kids: seq<Ber>, lim: Limits) returns (length: int)
    ensures var e := EncodeAll(kids, lim);
            length == if e.Some? && |e.value| <= MAX_CONTENT then |e.value| else -1
    decreases kids, 2
  {
    length := 0;
    var k := 0;
    while k < |kids|
      invariant 0 <= k <= |kids|
      invariant EncodeAll(kids[..k], lim).Some? && length == |EncodeAll(kids[..k], lim).value| <= MAX_CONTENT
    {
      var child := Serialise(kids[k], null, 0, UNLIMITED, lim);
      EncodeAllSnoc(kids, k, lim);
      if child < 0 || child > MAX_CONTENT - length {
        if EncodeAll(kids, lim).Some? {
          EncodeAllPrefix(kids, k + 1, lim);
        }
        return -1;
      }
      length := length + child;
      k := k + 1;
    }
    assert kids[..|kids|] == kids;
  }

  // ----- decoding -----

  lemma {:induction false} DecodeKidsStep(c: seq<byte>, depth: nat, lim: Limits)
    requires c != []
    ensures ReadHeader(c).None? ==> DecodeKids(c, depth, lim).None?
    ensures ReadHeader(c).Some? ==>
              var h := ReadHeader(c).value;
              var end := h.size + h.length;
              && (DecodeChild(c[0], c[h.size..end], depth, lim).None? ==> DecodeKids(c, depth, lim).None?)
              && (DecodeChild(c[0], c[h.size..end], depth, lim).Some? ==>
                    DecodeKids(c, depth, lim) ==
                    Prepend([DecodeChild(c[0], c[h.size..end], depth, lim).value], DecodeKids(c[end..], depth, lim)))
  {}

  /** The header read again by the child decoder is the one its parent read. */
  lemma {:induction false} HeaderAgain(c: seq<byte>)
    requires ReadHeader(c).Some?
    ensures var h := ReadHeader(c).value;
            ReadHeader(c[..h.size + h.length]) == Some(h)
  {
    var h := ReadHeader(c).value;
    var b := c[..h.size + h.length];
    if c[1] >= 128 {
      var octets := c[1] - 128;
      assert b[2..2 + octets] == c[2..2 + octets];
    }
  }

  /** One turn of the child loop, on the memory between `at` and `end`. */
  lemma {:induction false} KidsStepAt(s: seq<byte>, at: nat, end: nat, depth: nat, lim: Limits)
    requires at < end <= |s|
    ensures ReadHeader(s[at..end]).None? ==> DecodeKids(s[at..end], depth, lim).None?
    ensures ReadHeader(s[at..end]).Some? ==>
              var h := ReadHeader(s[at..end]).value;
              var next := at + h.size + h.length;
              && next <= end
              && ReadHeader(s[at..next]) == Some(h)
              && var child := DecodeChild(s[at], s[at + h.size..next], depth, lim);
              && (child.None? ==> DecodeKids(s[at..end], depth, lim).None?)
              && (child.Some? ==> DecodeKids(s[at..end], depth, lim) ==
                                  Prepend([child.value], DecodeKids(s[next..end], depth, lim)))
  {
    hide ReadHeader, DecodeKids, DecodeChild;
    var c := s[at..end];
    DecodeKidsStep(c, depth, lim);
    if ReadHeader(c).Some? {
      var h := ReadHeader(c).value;
      var size := h.size + h.length;
      HeaderAgain(c);
      TailOfSlice(s, at, end, size);
      SliceOfSlice(s, at, end, h.size, size);
      assert c[0] == s[at];
    }
  }

  /** The fromBuffer methods of the leaf containers, on a child whose framing has been checked. */
  method LeafFromBuffer(tag: byte, buf: array<byte>, start: nat, available: nat, lim: Limits) returns (r: Option<Ber>)
    requires start + available <= buf.Length
    requires ReadHeader(buf[start..start + available]).Some?
    ensures var h := ReadHeader(buf[start..start + available]).value;
            r == DecodeLeaf(tag, buf[start + h.size..start + h.size + h.length], lim)
  {
    hide ReadHeader, DecodeLeaf;
    var h := ReadBERHeader(buf, start, available);
    r := LeafFromContents(tag, buf[start + h.value.size..start + h.value.size + h.value.length], lim);
  }

  /** The decode methods of the primitive types, past the header. */
  method LeafFromContents(tag: byte, c: seq<byte>, lim: Limits) returns (r: Option<Ber>)
    ensures r == DecodeLeaf(tag, c, lim)
  {
    if Numeric(tag) {
      var bits := IntegerValue(tag, c);
      return if bits.None? then None else Some(Number(tag, bits.value));
    } else if tag == OID {
      var text := TextOfContents(c, lim);
      return if text.None? then None else Some(Name(text.value));
    } else {
      return DecodeLeaf(tag, c, lim);
    }
  }

  /** ComplexType::decode: every child length is bounded by its parent, and nesting by 32 levels. */
  method DecodeBuffer(tag: byte, buf: array<byte>, start: nat, available: nat, depth: nat, lim: Limits)
    returns (r: Option<Ber>)
    requires start + available <= buf.Length
    ensures r == DecodeAt(tag, buf[start..start + available], depth, lim)
    decreases available, 0
  {
    hide ReadHeader, DecodeKids;
    if depth >= MAX_DEPTH {
      return None;
    }
    var h := ReadBERHeader(buf, start, available);
    if h.None? {
      return None;
    }
    var from, end := start + h.value.size, start + h.value.size + h.value.length;
    SliceOfSlice(buf[..], start, start + available, h.value.size, h.value.size + h.value.length);
    var values := DecodeValues(buf, from, end, depth, lim);
    return if values.None? then None else Some(Node(tag, values.value));
  }

  /** The loop over the children. */
  method DecodeValues(buf: array<byte>, from: nat, end: nat, depth: nat, lim: Limits) returns (r: Option<seq<Ber>>)
    requires from <= end <= buf.Length
    ensures r == DecodeKids(buf[from..end], depth, lim)
    decreases end - from, 2
  {
    hide ReadHeader, DecodeChild, DecodeKids, DecodeLeaf, Constructed, Prepend;
    NoKids(buf[end..end], depth, lim);
    ghost var all := DecodeKids(buf[from..end], depth, lim);
    var offset, values: seq<Ber> := from, [];
    PrependNothing(DecodeKids(buf[from..end], depth, lim));
    while offset < end
      invariant from <= offset <= end
      invariant all == Prepend(values, DecodeKids(buf[offset..end], depth, lim))
    {
      PrependToNothing(values);
      KidsStepAt(buf[..], offset, end, depth, lim);
      var child := ReadBERHeader(buf, offset, end - offset);
      if child.None? {
        return None;
      }
      var value := DecodeValue(buf[offset], buf, offset, child.value, depth, lim);
      if value.None? {
        return None;
      }
      var next := offset + child.value.size + child.value.length;
      PrependTwice(values, value.value, DecodeKids(buf[next..end], depth, lim));
      values := values + [value.value];
      offset := next;
    }
    PrependToNothing(values);
    return Some(values);
  }

  lemma {:induction false} NoKids(c: seq<byte>, depth: nat, lim: Limits)
    requires c == []
    ensures DecodeKids(c, depth, lim) == Some([])
  {}

  lemma {:induction false} PrependToNothing(values: seq<Ber>)
    ensures Prepend(values, Some([])) == Some(values)
    ensures Prepend(values, None) == None
  {
    assert values + [] == values;
  }

  /** The switch on the child's tag. */
  method DecodeValue(kind: byte, buf: array<byte>, at: nat, h: Header, depth: nat, lim: Limits) returns (r: Option<Ber>)
    requires at + h.size + h.length <= buf.Length
    requires ReadHeader(buf[at..at + h.size + h.length]) == Some(h)
    ensures r == DecodeChild(kind, buf[at + h.size..at + h.size + h.length], depth, lim)
    decreases h.size + h.length, 1
  {
    hide ReadHeader, DecodeKids, DecodeLeaf;
    var size := h.size + h.length;
    if Constructed(kind) {
      SliceOfSlice(buf[..], at, at + size, h.size, size);
      r := DecodeBuffer(kind, buf, at, size, depth + 1, lim);
    } else {
      r := LeafFromBuffer(kind, buf, at, size, lim);
    }
  }
}

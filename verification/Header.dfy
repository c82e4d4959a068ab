/** Type/length framing: the definite forms of X.690 section 8.1.3 up to 65535 content octets. */
module Header {
  import opened Bytes

  datatype Header = Header(size: nat, length: nat)

  /** Octets in front of a payload of `length` octets in the shortest form. */
  function HeaderSize(length: nat): nat {
    if length < 128 then 2 else if length < 256 then 3 else 4
  }

  function EncodeHeader(tag: byte, length: nat): (r: seq<byte>)
    requires length <= MAX_CONTENT
    ensures |r| == HeaderSize(length)
  {
    if length < 128 then [tag, length]
    else if length < 256 then [tag, 0x81, length]
    else [tag, 0x82, length / 256, length % 256]
  }

  /** A complete type/length/value triple in the shortest form. */
  function Tlv(tag: byte, content: seq<byte>): (r: seq<byte>)
    requires |content| <= MAX_CONTENT
    ensures |r| == HeaderSize(|content|) + |content|
    ensures r[0] == tag
  {
    EncodeHeader(tag, |content|) + content
  }

  /** What readBERHeader reports for the bytes `b` it may access. */
  function ReadHeader(b: seq<byte>): (r: Option<Header>)
    ensures r.Some? ==> 2 <= r.value.size && r.value.size + r.value.length <= |b|
    ensures r.Some? ==> r.value.length <= MAX_CONTENT
  {
    if |b| < 2 then None
    else if b[1] < 128 then
      if b[1] <= |b| - 2 then Some(Header(2, b[1])) else None
    else
      var octets := b[1] - 128;
      if octets == 0 || octets == 127 || octets > |b| - 2 then None
      else
        var length := BigEndian(b[2..2 + octets]);
        if length <= MAX_CONTENT && length <= |b| - 2 - octets then Some(Header(2 + octets, length)) else None
  }

  /** The byte loop of readBERHeader, which gives up as soon as the length must exceed 65535. */
  method ReadBERHeader(buf: array<byte>, start: nat, available: nat) returns (r: Option<Header>)
    requires start + available <= buf.Length
    ensures r == ReadHeader(buf[start..start + available])
  {
    ghost var b := buf[start..start + available];
    if available < 2 {
      return None;
    }
    var header := 2;
    var length: nat := buf[start + 1];
    if length >= 128 {
      var octets := length - 128;
      if octets == 0 || octets == 127 || octets > available - header {
        return None;
      }
      length := 0;
      ghost var digits := b[2..2 + octets];
      var left := octets;
      while left > 0
        invariant 0 <= left <= octets
        invariant header == 2 + octets - left
        invariant length == BigEndian(digits[..octets - left]) <= MAX_CONTENT
      {
        if length > MAX_CONTENT / 256 {
          BigEndianGrows(digits, octets - left);
          return None;
        }
        assert digits[..octets - left + 1] == digits[..octets - left] + [digits[octets - left]];
        BigEndianSnoc(digits[..octets - left], digits[octets - left]);
        length := length * 256 + buf[start + header];
        header := header + 1;
        left := left - 1;
      }
      assert digits[..octets] == digits;
    }
    if length <= MAX_CONTENT && length <= available - header {
      return Some(Header(header, length));
    }
    return None;
  }

  lemma {:induction false} BigEndianOne(s: seq<byte>)
    requires |s| == 1
    ensures BigEndian(s) == s[0]
  {
    assert s == [] + [s[0]];
    BigEndianSnoc([], s[0]);
  }

  lemma {:induction false} BigEndianTwo(s: seq<byte>)
    requires |s| == 2
    ensures BigEndian(s) == (s[0] as int) * 256 + s[1]
  {
    assert s == s[..1] + [s[1]];
    BigEndianOne(s[..1]);
    BigEndianSnoc(s[..1], s[1]);
  }

  /** An encoded header reads back as itself, whatever follows the payload. */
  lemma {:induction false} HeaderRoundTrip(tag: byte, content: seq<byte>, rest: seq<byte>)
    requires |content| <= MAX_CONTENT
    ensures ReadHeader(Tlv(tag, content) + rest) == Some(Header(HeaderSize(|content|), |content|))
    ensures (Tlv(tag, content) + rest)[HeaderSize(|content|)..][..|content|] == content
    ensures (Tlv(tag, content) + rest)[..HeaderSize(|content|) + |content|] == Tlv(tag, content)
    ensures (Tlv(tag, content) + rest)[HeaderSize(|content|) + |content|..] == rest
  {
    var b := Tlv(tag, content) + rest;
    if |content| >= 256 {
      assert b[2..4] == [|content| / 256, |content| % 256];
      BigEndianTwo(b[2..4]);
    } else if |content| >= 128 {
      assert b[2..3] == [|content|];
      BigEndianOne(b[2..3]);
    }
  }

  /** Every accepted form of a length is at least as long as the form the encoders write. */
  lemma {:induction false} HeaderIsShortest(b: seq<byte>)
    requires ReadHeader(b).Some?
    ensures HeaderSize(ReadHeader(b).value.length) <= ReadHeader(b).value.size
  {
    if b[1] == 129 {
      BigEndianOne(b[2..3]);
    }
  }
}

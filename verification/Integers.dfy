/** The INTEGER, Counter32/Gauge32/TimeTicks and Counter64 contents of X.690 section 8.3. */
module Integers {
  import opened Bytes

  const INTEGER: byte := 0x02

  /** The two's complement number that content octets denote. */
  function TwosComplement(c: seq<byte>): int
    requires |c| > 0
  {
    if |c| == 1 then (if c[0] < 128 then c[0] else c[0] - 256)
    else TwosComplement(c[..|c| - 1]) * 256 + c[|c| - 1]
  }

  /** The content octets that represent a number; the lemmas below show that they are the shortest. */
  function Content(x: int): (c: seq<byte>)
    ensures |c| > 0
    decreases if x < 0 then -x else x
  {
    if -128 <= x < 128 then [x % 256] else Content(x / 256) + [x % 256]
  }

  /** X.690 section 8.3.2: the first nine bits are neither all ones nor all zeros. */
  predicate Redundant(first: byte, second: byte) {
    (first == 0 && second < 128) || (first == 255 && second >= 128)
  }

  predicate Shortest(c: seq<byte>) {
    |c| > 0 && (|c| > 1 ==> !Redundant(c[0], c[1]))
  }

  lemma {:induction false} TwosComplementSnoc(c: seq<byte>, b: byte)
    requires |c| > 0
    ensures TwosComplement(c + [b]) == TwosComplement(c) * 256 + b
  {
    assert (c + [b])[..|c|] == c;
  }

  lemma {:induction false} ContentValue(x: int)
    ensures TwosComplement(Content(x)) == x
    decreases if x < 0 then -x else x
  {
    if !(-128 <= x < 128) {
      ContentValue(x / 256);
      TwosComplementSnoc(Content(x / 256), x % 256);
    }
  }

  /** No accepted representation of a number is shorter than the one the encoders write. */
  lemma {:induction false} ContentIsShortest(c: seq<byte>)
    requires |c| > 0
    ensures |Content(TwosComplement(c))| <= |c|
    decreases |c|
  {
    var x := TwosComplement(c);
    if |c| > 1 {
      ContentIsShortest(c[..|c| - 1]);
      assert x / 256 == TwosComplement(c[..|c| - 1]);
    }
  }

  /** The rule of section 8.3.2 leaves exactly one representation of each number. */
  lemma {:induction false} ShortestIsUnique(c: seq<byte>)
    requires Shortest(c)
    ensures c == Content(TwosComplement(c))
    decreases |c|
  {
    if |c| > 1 {
      var front, b := c[..|c| - 1], c[|c| - 1];
      assert c == front + [b];
      ShortestIsUnique(front);
      var x := TwosComplement(c);
      assert x / 256 == TwosComplement(front) && x % 256 == b;
      assert !(-128 <= x < 128) by {
        if |front| > 1 {
          assert |Content(TwosComplement(front))| > 1;
        }
      }
    }
  }

  lemma {:induction false} ContentIsLegal(x: int)
    ensures Shortest(Content(x))
    decreases if x < 0 then -x else x
  {
    if !(-128 <= x < 128) {
      ContentIsLegal(x / 256);
      if -128 <= x / 256 < 128 {
        assert Content(x / 256) == [(x / 256) % 256];
      }
    }
  }

  /** Content octets needed for a number of 8 * n bits. */
  function Range(n: nat): (r: int)
    ensures r > 0
  {
    if n == 0 then 1 else 256 * Range(n - 1)
  }

  lemma {:induction false} ContentFits(x: int, n: nat)
    requires n > 0
    requires -128 * Range(n - 1) <= x < 128 * Range(n - 1)
    ensures |Content(x)| <= n
    decreases n
  {
    if n > 1 {
      ContentFits(x / 256, n - 1);
    }
  }

  lemma {:induction false} ContentBounds(c: seq<byte>)
    requires |c| > 0
    ensures -128 * Range(|c| - 1) <= TwosComplement(c) < 128 * Range(|c| - 1)
    ensures TwosComplement(c) < 0 <==> c[0] >= 128
    decreases |c|
  {
    if |c| > 1 {
      ContentBounds(c[..|c| - 1]);
    }
  }

  lemma {:induction false} Ranges()
    ensures Range(3) == 0x100_0000 && Range(4) == TWO32
    ensures Range(7) == 0x100_0000_0000_0000 && Range(8) == TWO64
  {
    assert Range(0) == 1 && Range(1) == 256 && Range(2) == 0x1_0000;
    assert Range(5) == 0x100_0000_0000 && Range(6) == 0x1_0000_0000_0000;
  }

  /** The number that 32 stored bits stand for under an INTEGER or an application tag. */
  function Meaning(tag: byte, v: uint32): (r: int)
    ensures r % TWO32 == v
  {
    if tag == INTEGER then Signed32(v) else v
  }

  /** Contents that IntegerType::fromBuffer accepts, and the 32 bits it then stores. */
  function DecodeInteger(tag: byte, c: seq<byte>): (r: Option<uint32>) {
    if |c| == 0 || |c| > (if tag == INTEGER then 4 else 5) then None
    else if tag != INTEGER && (c[0] >= 128 || (|c| == 5 && c[0] != 0)) then None
    else Some(TwosComplement(c) % TWO32)
  }

  /** Contents that Counter64::fromBuffer accepts. */
  function DecodeCounter64(c: seq<byte>): (r: Option<uint64>) {
    if |c| == 0 || |c| > 9 || c[0] >= 128 || (|c| == 9 && c[0] != 0) then None
    else Some(TwosComplement(c) % TWO64)
  }

  lemma {:induction false} DropLeadingZero(c: seq<byte>)
    requires |c| > 1 && c[0] == 0
    ensures TwosComplement(c) == BigEndian(c[1..])
    ensures 0 <= TwosComplement(c) < Range(|c| - 1)
    decreases |c|
  {
    var b := c[|c| - 1];
    if |c| == 2 {
      assert c[1..] == [] + [b];
      BigEndianSnoc([], b);
    } else {
      var front := c[..|c| - 1];
      DropLeadingZero(front);
      assert c[1..] == front[1..] + [b];
      BigEndianSnoc(front[1..], b);
    }
  }

  /** An accepted integer stands for exactly the number its two's complement octets denote. */
  lemma {:induction false} AcceptedInteger(tag: byte, c: seq<byte>)
    requires DecodeInteger(tag, c).Some?
    ensures Meaning(tag, DecodeInteger(tag, c).value) == TwosComplement(c)
  {
    ContentBounds(c);
    Ranges();
    assert Range(0) == 1 && Range(1) == 256 && Range(2) == 0x1_0000;
    if |c| == 5 {
      DropLeadingZero(c);
    }
  }

  lemma {:induction false} AcceptedCounter64(c: seq<byte>)
    requires DecodeCounter64(c).Some?
    ensures DecodeCounter64(c).value == TwosComplement(c)
  {
    ContentBounds(c);
    Ranges();
    assert Range(0) == 1 && Range(1) == 256 && Range(2) == 0x1_0000;
    assert Range(5) == 0x100_0000_0000 && Range(6) == 0x1_0000_0000_0000;
    if |c| == 9 {
      DropLeadingZero(c);
    }
  }

  /** Every 32-bit value survives encoding and decoding under either interpretation. */
  lemma {:induction false} IntegerRoundTrip(tag: byte, v: uint32)
    ensures DecodeInteger(tag, Content(Meaning(tag, v))) == Some(v)
    ensures |Content(Meaning(tag, v))| <= 5
  {
    var x := Meaning(tag, v);
    var c := Content(x);
    ContentValue(x);
    ContentBounds(c);
    Ranges();
    ContentFits(x, if tag == INTEGER then 4 else 5);
    ContentIsLegal(x);
    if tag != INTEGER && |c| == 5 && c[0] != 0 {
      LongContents(c);
    }
  }

  lemma {:induction false} Counter64RoundTrip(v: uint64)
    ensures DecodeCounter64(Content(v)) == Some(v)
    ensures |Content(v)| <= 9
  {
    var c := Content(v);
    ContentValue(v);
    ContentBounds(c);
    Ranges();
    ContentFits(v, 9);
    if |c| == 9 && c[0] != 0 {
      LongContents(c);
    }
  }

  /** A nonnegative number whose first octet is not zero needs all of its octets. */
  lemma {:induction false} LongContents(c: seq<byte>)
    requires |c| > 0 && 0 < c[0] < 128
    ensures TwosComplement(c) >= Range(|c| - 1)
    decreases |c|
  {
    if |c| > 1 {
      LongContents(c[..|c| - 1]);
    }
  }

  /** Dropping a redundant first octet keeps the number. */
  lemma {:induction false} StripKeepsValue(c: seq<byte>)
    requires |c| > 1 && Redundant(c[0], c[1])
    ensures TwosComplement(c[1..]) == TwosComplement(c)
    decreases |c|
  {
    var front, b := c[..|c| - 1], c[|c| - 1];
    if |c| == 2 {
      assert front == [c[0]];
    } else {
      StripKeepsValue(front);
      assert c[1..] == front[1..] + [b];
      TwosComplementSnoc(front[1..], b);
    }
  }

  /** The four octets of a 32-bit word, most significant first. */
  function Word(v: uint32): (r: seq<byte>)
    ensures |r| == 4
  {
    [v / 0x100_0000, v / 0x1_0000 % 256, v / 256 % 256, v % 256]
  }

  lemma {:induction false} WordDigits(v: uint32)
    ensures var w := Word(v);
            var first: int := w[0];
            v == ((first * 256 + w[1]) * 256 + w[2]) * 256 + w[3]
  {}

  /** Four more octets behind a first one. */
  lemma {:induction false} FourOctets(x: byte, a: byte, b: byte, c: byte)
    ensures TwosComplement([x, a, b, c]) == ((TwosComplement([x]) * 256 + a) * 256 + b) * 256 + c
  {
    hide TwosComplement;
    TwosComplementSnoc([x], a);
    TwosComplementSnoc([x, a], b);
    TwosComplementSnoc([x, a, b], c);
    assert [x] + [a] == [x, a] && [x, a] + [b] == [x, a, b] && [x, a, b] + [c] == [x, a, b, c];
  }

  lemma {:induction false} OneOctet(x: byte)
    ensures TwosComplement([x]) == if x < 128 then x else x - 256
  {}

  lemma {:induction false} WordValue(v: uint32)
    ensures TwosComplement(Word(v)) == Signed32(v)
    ensures TwosComplement([0] + Word(v)) == v
  {
    hide TwosComplement;
    WordDigits(v);
    var w := Word(v);
    OneOctet(w[0]);
    FourOctets(w[0], w[1], w[2], w[3]);
    assert w == [w[0], w[1], w[2], w[3]];
    OneOctet(0);
    FourOctets(0, w[0], w[1], w[2]);
    TwosComplementSnoc([0, w[0], w[1], w[2]], w[3]);
    assert [0] + w == [0, w[0], w[1], w[2]] + [w[3]];
  }

  /** The stripping loop of IntegerType::serialise: five octets, of which a suffix is kept. */
  method IntegerContents(tag: byte, v: uint32) returns (c: seq<byte>)
    ensures c == Content(Meaning(tag, v))
  {
    var contents := [0] + Word(v);
    WordValue(v);
    assert contents[1..] == Word(v);
    var start := if tag == INTEGER then 1 else 0;
    while start < 4
      invariant 0 <= start <= 4
      invariant TwosComplement(contents[start..]) == Meaning(tag, v)
    {
      var redundantZero := contents[start] == 0 && contents[start + 1] < 128;
      var redundantSign := tag == INTEGER && contents[start] == 255 && contents[start + 1] >= 128;
      if !redundantZero && !redundantSign {
        break;
      }
      assert contents[start..][1..] == contents[start + 1..];
      StripKeepsValue(contents[start..]);
      start := start + 1;
    }
    c := contents[start..];
    if start < 4 && Redundant(c[0], c[1]) {
      // Only an unsigned value could still start with 255 here, but its first octet is zero.
      ContentBounds(c);
      assert false;
    }
    ShortestIsUnique(c);
  }

  lemma {:induction false} WholeWords(a: int, q: int)
    ensures (a + q * TWO32) % TWO32 == a % TWO32
  {}

  /** Shifting an octet into a wrapped word is wrapping the shifted number. */
  lemma {:induction false} ShiftedWord(v: uint32, x: int, b: byte)
    requires v == x % TWO32
    ensures (v * 256 + b) % TWO32 == (x * 256 + b) % TWO32
  {
    var q := x / TWO32;
    assert x == v + q * TWO32;
    WholeWords(v * 256 + b, q * 256);
  }

  lemma {:induction false} FirstWord(value: uint32, b: byte)
    requires value == if b >= 128 then MAX32 else 0
    ensures (value * 256 + b) % TWO32 == TwosComplement([b]) % TWO32
  {}

  /** One octet more of the accumulation. */
  lemma {:induction false} NextWord(value: uint32, c: seq<byte>, i: nat)
    requires 0 < i < |c| && value == TwosComplement(c[..i]) % TWO32
    ensures (value * 256 + c[i]) % TWO32 == TwosComplement(c[..i + 1]) % TWO32
  {
    hide TwosComplement;
    assert c[..i + 1] == c[..i] + [c[i]];
    TwosComplementSnoc(c[..i], c[i]);
    ShiftedWord(value, TwosComplement(c[..i]), c[i]);
  }

  /** The accumulation loop of IntegerType::fromBuffer over a 32-bit unsigned long. */
  method IntegerValue(tag: byte, c: seq<byte>) returns (r: Option<uint32>)
    ensures r == DecodeInteger(tag, c)
  {
    hide TwosComplement;
    var isSigned := tag == INTEGER;
    if |c| == 0 || |c| > (if isSigned then 4 else 5) {
      return None;
    }
    if !isSigned && (c[0] >= 128 || (|c| == 5 && c[0] != 0)) {
      return None;
    }
    var value: uint32 := if isSigned && c[0] >= 128 then MAX32 else 0;
    var i := 0;
    while i < |c|
      invariant 0 <= i <= |c|
      invariant i == 0 ==> value == (if c[0] >= 128 then MAX32 else 0)
      invariant i > 0 ==> value == TwosComplement(c[..i]) % TWO32
    {
      if i == 0 {
        FirstWord(value, c[0]);
        assert c[..1] == [c[0]];
      } else {
        NextWord(value, c, i);
      }
      value := (value * 256 + c[i]) % TWO32;
      i := i + 1;
    }
    assert c[..|c|] == c;
    r := Some(value);
  }

  /** The octet loop of Counter64::serialise: drop zero octets, then keep the sign bit clear. */
  method Counter64Contents(v: uint64) returns (c: seq<byte>)
    ensures c == Content(v)
  {
    c := [v % 256];
    var remaining: int := v / 256;
    ghost var scale := 256;
    while remaining != 0
      invariant 0 <= remaining && |c| > 0
      invariant TwosComplement([0] + c) + remaining * Range(|c|) == v
      invariant remaining == 0 ==> |c| == 1 || c[0] != 0
    {
      ghost var old_c, old_r := c, remaining;
      PrependOctet(remaining % 256, c);
      c := [remaining % 256] + c;
      assert old_r * Range(|old_c|) == (old_r / 256) * Range(|c|) + (old_r % 256) * Range(|old_c|) by {
        assert Range(|c|) == 256 * Range(|old_c|);
        assert old_r == (old_r / 256) * 256 + old_r % 256;
        Distribute(old_r / 256, old_r % 256, Range(|old_c|));
      }
      remaining := remaining / 256;
    }
    if c[0] >= 128 {
      c := [0] + c;
    } else {
      StripKeepsValue([0] + c);
      assert ([0] + c)[1..] == c;
    }
    ShortestIsUnique(c);
  }

  lemma {:induction false} Distribute(a: int, b: int, r: int)
    ensures (a * 256 + b) * r == a * (256 * r) + b * r
  {}

  lemma {:induction false} PrependOctet(b: byte, c: seq<byte>)
    requires |c| > 0
    ensures TwosComplement([0] + ([b] + c)) == b * Range(|c|) + TwosComplement([0] + c)
    decreases |c|
  {
    var front, last := c[..|c| - 1], c[|c| - 1];
    assert [0] + ([b] + c) == ([0] + ([b] + front)) + [last];
    assert [0] + c == ([0] + front) + [last];
    TwosComplementSnoc([0] + ([b] + front), last);
    TwosComplementSnoc([0] + front, last);
    if |c| == 1 {
      assert [0] + ([b] + front) == [0, b];
      assert [0] + front == [0];
      assert Range(1) == 256 * Range(0);
      assert TwosComplement([0, b]) == b by { assert [0, b][..1] == [0]; }
    } else {
      PrependOctet(b, front);
      Distribute(0, b, Range(|front|));
    }
  }
}

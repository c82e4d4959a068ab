/** OBJECT IDENTIFIERs: arcs, dotted text and the base-128 contents of X.690 section 8.19. */
module Oids {
  import opened Bytes

  const DOT: byte := 46
  const ZERO: byte := 48
  const MAX_ARCS := 128     // RFC 2578 section 3.5: at most 128 subidentifiers

  type Arcs = seq<nat>

  // ----- decimal numerals -----

  predicate IsDigit(b: byte) { ZERO <= b < ZERO + 10 }

  function Decimal(n: nat): (d: Text)
    ensures |d| > 0
  {
    if n < 10 then [ZERO + n] else Decimal(n / 10) + [ZERO + n % 10]
  }

  function DigitValue(b: byte): nat { if IsDigit(b) then b - ZERO else 0 }

  function Numeral(d: Text): nat {
    if d == [] then 0 else Numeral(d[..|d| - 1]) * 10 + DigitValue(d[|d| - 1])
  }

  lemma {:induction false} DecimalDigits(n: nat)
    ensures forall i :: 0 <= i < |Decimal(n)| ==> IsDigit(Decimal(n)[i])
  {
    if n >= 10 {
      DecimalDigits(n / 10);
    }
  }

  lemma {:induction false} NumeralSnoc(d: Text, b: byte)
    ensures Numeral(d + [b]) == Numeral(d) * 10 + DigitValue(b)
  {
    assert (d + [b])[..|d|] == d;
  }

  lemma {:induction false} NumeralOfDecimal(n: nat)
    ensures Numeral(Decimal(n)) == n
  {
    if n < 10 {
      assert Decimal(n) == [] + [ZERO + n];
      NumeralSnoc([], ZERO + n);
    } else {
      NumeralOfDecimal(n / 10);
      NumeralSnoc(Decimal(n / 10), ZERO + n % 10);
    }
  }

  lemma {:induction false} DecimalMonotone(a: nat, b: nat)
    requires a <= b
    ensures |Decimal(a)| <= |Decimal(b)|
  {
    if b >= 10 && a >= 10 {
      DecimalMonotone(a / 10, b / 10);
    }
  }

  /** Canonical numerals carry no leading zeros, so they are the shortest. */
  lemma {:induction false} DecimalIsShortest(d: Text)
    requires |d| > 0
    ensures |Decimal(Numeral(d))| <= |d|
    decreases |d|
  {
    var front, b := d[..|d| - 1], d[|d| - 1];
    assert d == front + [b];
    NumeralSnoc(front, b);
    if |d| > 1 {
      DecimalIsShortest(front);
      assert Numeral(d) / 10 == Numeral(front);
    } else {
      assert Numeral(front) == 0;
    }
  }

  lemma {:induction false} NumeralGrows(d: Text, k: nat)
    requires k <= |d|
    ensures Numeral(d[..k]) <= Numeral(d)
    decreases |d|
  {
    if k == |d| {
      assert d[..k] == d;
    } else {
      assert d[..|d| - 1][..k] == d[..k];
      NumeralGrows(d[..|d| - 1], k);
    }
  }

  // ----- dotted text -----

  function Print(arcs: Arcs): (t: Text)
    ensures |t| >= 2 * |arcs|
    ensures arcs != [] ==> t != [] && t[0] == DOT
  {
    if arcs == [] then [] else [DOT] + Decimal(arcs[0]) + Print(arcs[1..])
  }

  /** Characters in front of the next dot, or of the end. */
  function Span(t: Text): (n: nat)
    ensures n <= |t|
    ensures forall i :: 0 <= i < n ==> t[i] != DOT
    ensures n < |t| ==> t[n] == DOT
  {
    if t == [] || t[0] == DOT then 0 else 1 + Span(t[1..])
  }

  predicate Digits(d: Text) { forall i :: 0 <= i < |d| ==> IsDigit(d[i]) }

  /** The arcs a dotted text spells, each at most 32 bits wide; leading zeros are accepted. */
  function Parse(t: Text): (r: Option<Arcs>)
    ensures r.Some? ==> forall i :: 0 <= i < |r.value| ==> r.value[i] <= MAX32
    decreases |t|
  {
    if t == [] then Some([])
    else if t[0] != DOT then None
    else
      var n := Span(t[1..]);
      var d := t[1..n + 1];
      if n == 0 || !Digits(d) || Numeral(d) > MAX32 then None
      else
        var rest := Parse(t[n + 1..]);
        if rest.None? then None else Some([Numeral(d)] + rest.value)
  }

  lemma {:induction false} SpanAt(t: Text, n: nat)
    requires n <= |t|
    requires forall i :: 0 <= i < n ==> t[i] != DOT
    requires n < |t| ==> t[n] == DOT
    ensures Span(t) == n
  {
    if n > 0 {
      SpanAt(t[1..], n - 1);
    }
  }

  lemma {:induction false} ParseStep(t: Text)
    ensures t == [] ==> Parse(t) == Some([])
    ensures t != [] && t[0] != DOT ==> Parse(t).None?
    ensures t != [] && t[0] == DOT ==>
              var n := Span(t[1..]);
              var d, rest := t[1..n + 1], Parse(t[n + 1..]);
              Parse(t) == if n == 0 || !Digits(d) || Numeral(d) > MAX32 || rest.None? then None
                          else Some([Numeral(d)] + rest.value)
  {
    hide Span, Digits, Numeral;
  }

  lemma {:induction false} ParseCons(d: Text, rest: Text)
    requires |d| > 0 && Digits(d) && Numeral(d) <= MAX32
    requires rest != [] ==> rest[0] == DOT
    ensures Parse([DOT] + d + rest) ==
            if Parse(rest).None? then None else Some([Numeral(d)] + Parse(rest).value)
  {
    hide Numeral, Span;
    var t := [DOT] + d + rest;
    assert t[1..] == d + rest;
    SpanAt(t[1..], |d|);
    assert t[1..|d| + 1] == d;
    assert t[|d| + 1..] == rest;
  }

  ghost predicate Narrow(arcs: Arcs) { forall i :: 0 <= i < |arcs| ==> arcs[i] <= MAX32 }

  /** Arcs survive printing and parsing. */
  lemma {:induction false} ParsePrint(arcs: Arcs)
    requires Narrow(arcs)
    ensures Parse(Print(arcs)) == Some(arcs)
    decreases |arcs|
  {
    hide Decimal, Numeral, Span;
    if arcs == [] {
      ParseStep([]);
    } else {
      assert Print(arcs) == [DOT] + Decimal(arcs[0]) + Print(arcs[1..]);
      hide Parse, Print;
      NumeralOfDecimal(arcs[0]);
      DecimalDigits(arcs[0]);
      ParsePrint(arcs[1..]);
      ParseCons(Decimal(arcs[0]), Print(arcs[1..]));
      assert [arcs[0]] + arcs[1..] == arcs;
    }
  }

  /** The canonical text of the arcs is no longer than any text that spells them. */
  lemma {:induction false} PrintIsShortest(t: Text)
    requires Parse(t).Some?
    ensures |Print(Parse(t).value)| <= |t|
    decreases |t|
  {
    if t != [] {
      var n := Span(t[1..]);
      var d := t[1..n + 1];
      DecimalIsShortest(d);
      PrintIsShortest(t[n + 1..]);
      var arcs := Parse(t).value;
      assert arcs[1..] == Parse(t[n + 1..]).value;
    }
  }

  lemma {:induction false} PrintAppend(a: Arcs, b: Arcs)
    ensures Print(a + b) == Print(a) + Print(b)
    decreases |a|
  {
    if a == [] {
      assert a + b == b;
    } else {
      assert (a + b)[1..] == a[1..] + b;
      PrintAppend(a[1..], b);
    }
  }

  // ----- base-128 subidentifiers -----

  /** Leading octets, each with its continuation bit. */
  function Continued(n: nat): (s: seq<byte>)
    ensures |s| > 0
    ensures forall i :: 0 <= i < |s| ==> s[i] >= 128
  {
    if n < 128 then [128 + n] else Continued(n / 128) + [128 + n % 128]
  }

  function Base128(n: nat): (s: seq<byte>)
    ensures |s| > 0
    ensures s[|s| - 1] < 128
    ensures forall i :: 0 <= i < |s| - 1 ==> s[i] >= 128
  {
    if n < 128 then [n] else Continued(n / 128) + [n % 128]
  }

  /** The number denoted by base-128 octets, whatever their continuation bits. */
  function Septets(s: seq<byte>): nat {
    if s == [] then 0 else Septets(s[..|s| - 1]) * 128 + s[|s| - 1] % 128
  }

  lemma {:induction false} SeptetsSnoc(s: seq<byte>, b: byte)
    ensures Septets(s + [b]) == Septets(s) * 128 + b % 128
  {
    assert (s + [b])[..|s|] == s;
  }

  lemma {:induction false} LastSeptet(q: nat, b: nat)
    requires b < 128
    ensures (q * 128 + b) / 128 == q && (q * 128 + b) % 128 == b
    ensures b % 128 == b && (b + 128) % 128 == b
  {}

  lemma {:induction false} ContinuedValue(n: nat)
    ensures Septets(Continued(n)) == n
    ensures n > 0 ==> Continued(n)[0] != 128
  {
    hide Continued, Septets;
    if n < 128 {
      ContinuedOne(n);
    } else {
      var q, b := n / 128, n % 128;
      ContinuedValue(q);
      ContinuedStep(q, b);
      assert n == q * 128 + b;
    }
  }

  lemma {:induction false} ContinuedOne(n: nat)
    requires n < 128
    ensures Septets(Continued(n)) == n
    ensures n > 0 ==> Continued(n)[0] != 128
  {
    SeptetsSnoc([], 128 + n);
    assert Continued(n) == [] + [128 + n];
  }

  lemma {:induction false} ContinuedStep(q: nat, b: nat)
    requires q > 0 && b < 128 && Septets(Continued(q)) == q && Continued(q)[0] != 128
    ensures Septets(Continued(q * 128 + b)) == q * 128 + b
    ensures Continued(q * 128 + b)[0] != 128
  {
    LastSeptet(q, b);
    SeptetsSnoc(Continued(q), 128 + b);
    assert Continued(q * 128 + b) == Continued(q) + [128 + b];
  }

  lemma {:induction false} Base128Value(n: nat)
    ensures Septets(Base128(n)) == n
    ensures Base128(n)[0] != 128
  {
    if n < 128 {
      assert Base128(n) == [] + [n];
      SeptetsSnoc([], n);
    } else {
      ContinuedValue(n / 128);
      SeptetsSnoc(Continued(n / 128), n % 128);
    }
  }

  /** The only octets without a leading 0x80 that denote n are the ones the encoder writes. */
  lemma {:induction false} ContinuedUnique(s: seq<byte>)
    requires |s| > 0 && s[0] != 128
    requires forall i :: 0 <= i < |s| ==> s[i] >= 128
    ensures s == Continued(Septets(s)) && Septets(s) > 0
    decreases |s|
  {
    hide Continued, Septets;
    var front, b := s[..|s| - 1], s[|s| - 1];
    assert s == front + [b];
    if |s| > 1 {
      ContinuedUnique(front);
      ContinuedSnoc(front, b);
    } else {
      LastSeptet(0, b - 128);
      ContinuedOne(b - 128);
      SeptetsSnoc([], b);
      SeptetsEmpty();
      assert Continued(b - 128) == [b] by { ContinuedSmall(b - 128); }
    }
  }

  lemma {:induction false} SeptetsEmpty()
    ensures Septets([]) == 0
  {}

  lemma {:induction false} ContinuedSmall(n: nat)
    requires n < 128
    ensures Continued(n) == [128 + n]
  {}

  lemma {:induction false} ContinuedSnoc(front: seq<byte>, b: byte)
    requires b >= 128 && Septets(front) > 0
    ensures Continued(Septets(front + [b])) == Continued(Septets(front)) + [b]
    ensures Septets(front + [b]) > 0
  {
    hide Septets;
    SeptetsSnoc(front, b);
    LastSeptet(Septets(front), b - 128);
  }

  lemma {:induction false} Base128Unique(s: seq<byte>)
    requires |s| > 0 && s[0] != 128 && s[|s| - 1] < 128
    requires forall i :: 0 <= i < |s| - 1 ==> s[i] >= 128
    ensures s == Base128(Septets(s))
  {
    var front, b := s[..|s| - 1], s[|s| - 1];
    assert s == front + [b];
    assert Septets(s) == Septets(front) * 128 + b by { LastSeptet(0, b); }
    if |s| > 1 {
      assert front == Continued(Septets(front)) && Septets(front) > 0 by { ContinuedUnique(front); }
      Base128Last(Septets(front), b);
    }
  }

  lemma {:induction false} Base128Last(q: nat, b: byte)
    requires q > 0 && b < 128
    ensures Base128(q * 128 + b) == Continued(q) + [b]
  {
    LastSeptet(q, b);
  }

  lemma {:induction false} Base128Size(n: nat)
    ensures |Base128(n)| == if n < 128 then 1 else 1 + |Base128(n / 128)|
  {
    if n >= 128 {
      ContinuedSize(n / 128);
    }
  }

  lemma {:induction false} ContinuedSize(n: nat)
    ensures |Continued(n)| == |Base128(n)|
  {
  }

  /** A subidentifier never takes more than half the characters of its dotted spelling. */
  lemma {:induction false} HalfTheText(n: nat)
    ensures 2 * |Base128(n)| <= 1 + |Decimal(n)|
  {
    if n >= 128 {
      Base128Size(n);
      HalfTheText(n / 128);
      DecimalMonotone(n / 128, n / 100);
      assert n / 100 == n / 10 / 10;
    }
  }

  /** The first two arcs share a subidentifier that still fits half of their spelling. */
  lemma {:induction false} HalfTheTextFirst(root: nat, arc: nat)
    requires root <= 2
    ensures 2 * |Base128(root * 40 + arc)| <= 3 + |Decimal(arc)|
  {
    var n := root * 40 + arc;
    HalfTheText(n);
    if arc == 0 {
      DecimalMonotone(n, 99);
    } else {
      DecimalMonotone(n, 100 * arc + 99);
      assert (100 * arc + 99) / 10 / 10 == arc;
    }
  }

  /** 32-bit arcs, and the first subidentifier above them, take at most five octets. */
  lemma {:induction false} FiveOctets(n: nat)
    requires n <= MAX32 + 80
    ensures |Base128(n)| <= 5
  {
    Base128Size(n);
    Base128Size(n / 128);
    Base128Size(n / 128 / 128);
    Base128Size(n / 128 / 128 / 128);
    Base128Size(n / 128 / 128 / 128 / 128);
  }

  // ----- contents octets -----

  predicate ValidArcs(arcs: Arcs) {
    2 <= |arcs| <= MAX_ARCS && arcs[0] <= 2 && (arcs[0] < 2 ==> arcs[1] <= 39)
  }

  function Subidentifiers(subs: seq<nat>): (c: seq<byte>)
    ensures |subs| <= |c|
  {
    if subs == [] then [] else Base128(subs[0]) + Subidentifiers(subs[1..])
  }

  function Merge(arcs: Arcs): (subs: seq<nat>)
    requires |arcs| >= 2
  {
    [arcs[0] * 40 + arcs[1]] + arcs[2..]
  }

  function Split(subs: seq<nat>): (arcs: Arcs)
    requires |subs| >= 1
  {
    var root := if subs[0] < 40 then 0 else if subs[0] < 80 then 1 else 2;
    [root, subs[0] - root * 40] + subs[1..]
  }

  lemma {:induction false} SplitMerge(arcs: Arcs)
    requires ValidArcs(arcs)
    ensures Split(Merge(arcs)) == arcs
  {}

  lemma {:induction false} MergeSplit(subs: seq<nat>)
    requires 1 <= |subs| < MAX_ARCS
    ensures ValidArcs(Split(subs)) && Merge(Split(subs)) == subs
  {}

  /** Contents octets that OIDType::serialise writes for the text, or None where it returns -1. */
  function EncodeText(t: Text, lim: Limits): (r: Option<seq<byte>>) {
    if |t| >= lim.oidText || Parse(t).None? || !ValidArcs(Parse(t).value) then None
    else Some(Subidentifiers(Merge(Parse(t).value)))
  }

  /** One subidentifier and its length: at most five octets, no leading 0x80. */
  function ReadSub(c: seq<byte>, n: nat): (r: Option<nat>)
    ensures r.Some? ==> n < r.value <= |c| && r.value <= 5 && c[r.value - 1] < 128
    ensures r.Some? ==> forall i :: n <= i < r.value - 1 ==> c[i] >= 128
    decreases 5 - n
  {
    if n >= |c| || n >= 5 || (n == 0 && c[0] == 128) then None
    else if c[n] < 128 then Some(n + 1)
    else ReadSub(c, n + 1)
  }

  function ReadSubs(c: seq<byte>): (r: Option<seq<nat>>)
    ensures r.Some? ==> (r.value == [] <==> c == [])
    decreases |c|
  {
    if c == [] then Some([])
    else
      var used := ReadSub(c, 0);
      if used.None? then None
      else
        var rest := ReadSubs(c[used.value..]);
        if rest.None? then None else Some([Septets(c[..used.value])] + rest.value)
  }

  predicate SubsInRange(subs: seq<nat>) {
    1 <= |subs| < MAX_ARCS && subs[0] <= MAX32 + 80 && forall i :: 1 <= i < |subs| ==> subs[i] <= MAX32
  }

  /** Canonical text that OIDType::fromBuffer stores for contents octets, or None where it fails. */
  function DecodeText(c: seq<byte>, lim: Limits): (r: Option<Text>) {
    var subs := ReadSubs(c);
    if subs.None? || !SubsInRange(subs.value) then None
    else
      var t := Print(Split(subs.value));
      if |t| < lim.oidText then Some(t) else None
  }

  lemma {:induction false} ReadSubAt(c: seq<byte>, n: nat, m: nat)
    requires n < m <= |c| && m <= 5
    requires c[m - 1] < 128 && c[0] != 128
    requires forall i :: n <= i < m - 1 ==> c[i] >= 128
    ensures ReadSub(c, n) == Some(m)
    decreases m - n
  {
    if n < m - 1 {
      ReadSubAt(c, n + 1, m);
    }
  }

  /** Subidentifiers survive encoding and decoding. */
  lemma {:induction false} ReadSubsRoundTrip(subs: seq<nat>)
    requires forall i :: 0 <= i < |subs| ==> subs[i] <= MAX32 + 80
    ensures ReadSubs(Subidentifiers(subs)) == Some(subs)
    decreases |subs|
  {
    if subs != [] {
      var s, rest := Base128(subs[0]), Subidentifiers(subs[1..]);
      var c := Subidentifiers(subs);
      Base128Value(subs[0]);
      FiveOctets(subs[0]);
      assert forall i :: 0 <= i < |s| ==> c[i] == s[i];
      ReadSubAt(c, 0, |s|);
      assert c[..|s|] == s && c[|s|..] == rest;
      ReadSubsRoundTrip(subs[1..]);
      assert [subs[0]] + subs[1..] == subs;
    }
  }

  lemma {:induction false} ReadSubFirst(c: seq<byte>)
    requires ReadSub(c, 0).Some?
    ensures c[0] != 128
  {}

  /** Accepted contents octets are exactly the ones the encoder writes: no second form is accepted. */
  lemma {:induction false} ReadSubsUnique(c: seq<byte>)
    requires ReadSubs(c).Some?
    ensures Subidentifiers(ReadSubs(c).value) == c
    decreases |c|
  {
    hide ReadSub, Septets, Base128;
    if c != [] {
      var used := ReadSub(c, 0).value;
      var head, tail := c[..used], c[used..];
      var rest := ReadSubs(tail).value;
      assert ReadSubs(c).value == [Septets(head)] + rest;
      hide ReadSubs, Subidentifiers;
      HeadUnique(c);
      ReadSubsUnique(tail);
      SubidentifiersCons(Septets(head), rest);
      assert head + tail == c;
    }
  }

  lemma {:induction false} SubidentifiersCons(n: nat, rest: seq<nat>)
    ensures Subidentifiers([n] + rest) == Base128(n) + Subidentifiers(rest)
  {
    assert ([n] + rest)[1..] == rest;
  }

  lemma {:induction false} HeadUnique(c: seq<byte>)
    requires ReadSub(c, 0).Some?
    ensures var head := c[..ReadSub(c, 0).value]; head == Base128(Septets(head))
  {
    ReadSubFirst(c);
    hide ReadSub, Septets, Base128;
    var head := c[..ReadSub(c, 0).value];
    assert forall i :: 0 <= i < |head| ==> head[i] == c[i];
    Base128Unique(head);
  }

  // ----- the codec laws -----

  /** Text that decoding produces: the canonical spelling of valid arcs. */
  predicate Canonical(t: Text) {
    Parse(t).Some? && ValidArcs(Parse(t).value) && Print(Parse(t).value) == t
  }

  function ArcsOf(t: Text): Arcs {
    if Parse(t).Some? then Parse(t).value else []
  }

  /** Text to wire to text gives the canonical spelling of the same arcs. */
  lemma {:induction false} TextRoundTrip(t: Text, lim: Limits)
    requires EncodeText(t, lim).Some?
    ensures DecodeText(EncodeText(t, lim).value, lim) == Some(Print(Parse(t).value))
    ensures Canonical(Print(Parse(t).value)) && ArcsOf(Print(Parse(t).value)) == Parse(t).value
  {
    hide Parse, Print, ReadSubs, Subidentifiers;
    var arcs := Parse(t).value;
    ReadSubsRoundTrip(Merge(arcs));
    SplitMerge(arcs);
    PrintIsShortest(t);
    ParsePrint(arcs);
  }

  /** Wire to text to wire returns identical contents octets; every decoded OID re-encodes. */
  lemma {:induction false} WireRoundTrip(c: seq<byte>, lim: Limits)
    requires DecodeText(c, lim).Some?
    ensures Canonical(DecodeText(c, lim).value)
    ensures EncodeText(DecodeText(c, lim).value, lim) == Some(c)
  {
    var subs := ReadSubs(c).value;
    ReadSubsUnique(c);
    MergeSplit(subs);
    ParsePrint(Split(subs));
  }

  /** Contents octets never exceed half of the text. */
  lemma {:induction false} SubidentifiersHalf(arcs: Arcs)
    ensures 2 * |Subidentifiers(arcs)| <= |Print(arcs)|
    decreases |arcs|
  {
    if arcs != [] {
      HalfTheText(arcs[0]);
      SubidentifiersHalf(arcs[1..]);
    }
  }

  /** Hence the overflow guard on the contents array cannot fire. */
  lemma {:induction false} ContentsFit(t: Text, lim: Limits)
    requires EncodeText(t, lim).Some?
    ensures 1 <= |EncodeText(t, lim).value| && 2 * |EncodeText(t, lim).value| <= |t| < lim.oidText
  {
    var arcs := Parse(t).value;
    PrintIsShortest(t);
    HalfTheTextFirst(arcs[0], arcs[1]);
    SubidentifiersHalf(arcs[2..]);
    assert arcs[1..][1..] == arcs[2..];
    assert Print(arcs) == [DOT] + Decimal(arcs[0]) + ([DOT] + Decimal(arcs[1]) + Print(arcs[2..]));
    assert Merge(arcs)[1..] == arcs[2..];
  }

  /** The spelling that the library keeps of a dotted text: through the wire and back. */
  function CanonicalForm(t: Text, lim: Limits): Option<Text> {
    var c := EncodeText(t, lim);
    if c.None? then None else DecodeText(c.value, lim)
  }

  /**
   * Every text that can be encoded has a kept spelling: canonical text of the same arcs, with the same contents octets.
   */
  lemma {:induction false} CanonicalFormIs(t: Text, lim: Limits)
    ensures CanonicalForm(t, lim).Some? <==> EncodeText(t, lim).Some?
    ensures CanonicalForm(t, lim).Some? ==>
              var r := CanonicalForm(t, lim).value;
              && Parse(t).Some? && Canonical(r) && ArcsOf(r) == Parse(t).value
              && |r| < lim.oidText && EncodeText(r, lim) == EncodeText(t, lim)
  {
    if EncodeText(t, lim).Some? {
      TextRoundTrip(t, lim);
      WireRoundTrip(EncodeText(t, lim).value, lim);
    }
  }

  /** One more arc at the end of a text is one more arc at the end of what it spells. */
  lemma {:induction false} ParseInstance(t: Text, index: nat)
    requires index <= MAX32
    ensures Parse(t + ([DOT] + Decimal(index))) == if Parse(t).None? then None else Some(Parse(t).value + [index])
    decreases |t|
  {
    var last := [DOT] + Decimal(index);
    hide Parse, Numeral, Decimal, Span, Digits;
    if t == [] {
      ParseOne(index);
      ParseStep(t);
      assert [] + [index] == [index] && t + last == [DOT] + Decimal(index) + [];
    } else if t[0] != DOT {
      assert (t + last)[0] == t[0];
      ParseStep(t);
      ParseStep(t + last);
    } else {
      ParseInstance(t[Span(t[1..]) + 1..], index);
      InstanceStep(t, last, index);
    }
  }

  lemma {:induction false} InstanceStep(t: Text, last: Text, index: nat)
    requires t != [] && t[0] == DOT && last != [] && last[0] == DOT
    requires var rest := t[Span(t[1..]) + 1..];
             Parse(rest + last) == if Parse(rest).None? then None else Some(Parse(rest).value + [index])
    ensures Parse(t + last) == if Parse(t).None? then None else Some(Parse(t).value + [index])
  {
    hide Parse, Numeral, Span, Digits;
    var more := t + last;
    ParseStep(t);
    ParseStep(more);
    FirstArcStays(t, last);
    assert more[0] == t[0];
    var n := Span(t[1..]);
    var d, before, after := t[1..n + 1], Parse(t[n + 1..]), Parse(more[n + 1..]);
    if before.Some? {
      ArcsSnoc(Numeral(d), before.value, index);
    }
  }

  lemma {:induction false} ArcsSnoc(x: nat, arcs: Arcs, y: nat)
    ensures [x] + (arcs + [y]) == [x] + arcs + [y]
  {}

  lemma {:induction false} ParseOne(index: nat)
    requires index <= MAX32
    ensures Parse([DOT] + Decimal(index) + []) == Some([index])
  {
    NumeralOfDecimal(index);
    DecimalDigits(index);
    assert Parse([]) == Some([]) && [index] + [] == [index];
    hide Numeral, Decimal, Span, Digits, Parse;
    ParseCons(Decimal(index), []);
  }

  /** Text that begins with a dot leaves the first arc in front of it alone. */
  lemma {:induction false} FirstArcStays(t: Text, more: Text)
    requires t != [] && t[0] == DOT && more != [] && more[0] == DOT
    ensures var n := Span(t[1..]);
            && Span((t + more)[1..]) == n
            && (t + more)[1..n + 1] == t[1..n + 1] && (t + more)[n + 1..] == t[n + 1..] + more
  {
    var n := Span(t[1..]);
    assert (t + more)[1..] == t[1..] + more;
    SpanAt((t + more)[1..], n);
  }
}

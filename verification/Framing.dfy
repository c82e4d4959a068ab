/** Exactly which octets the decoder accepts: every definite length form, and every spelling of a leaf. */
module Framing {
  import opened Bytes
  import opened Header
  import opened Integers
  import opened Oids
  import opened Trees

  // ----- length forms -----

  /** The form of a length: none for the short one, else the number of its length octets. */
  predicate FormFits(n: nat, length: nat) {
    if n == 0 then length <= 127 else n <= 126 && length <= 65535 && (n == 1 ==> length <= 255)
  }

  /** Length octets, most significant first, with zeros in front. */
  function LengthDigits(n: nat, length: nat): (s: seq<byte>)
    requires length <= 65535
    ensures |s| == n
  {
    seq(n, i requires 0 <= i < n =>
      if i == n - 1 then length % 256 else if i == n - 2 then length / 256 else 0)
  }

  /** Tag and length in the given form. */
  function Front(tag: byte, n: nat, length: nat): (s: seq<byte>)
    requires FormFits(n, length)
    ensures |s| == 2 + n && s[0] == tag
  {
    if n == 0 then [tag, length] else [tag, 128 + n] + LengthDigits(n, length)
  }

  lemma {:induction false} DigitsShift(n: nat, length: nat)
    requires n > 2 && length <= 65535
    ensures LengthDigits(n, length) == [0] + LengthDigits(n - 1, length)
  {}

  lemma {:induction false} LeadingZero(s: seq<byte>)
    ensures BigEndian([0] + s) == BigEndian(s)
  {
    if s == [] {
      assert [0] + s == [] + [0];
      BigEndianSnoc([], 0);
    } else {
      var front, b := s[..|s| - 1], s[|s| - 1];
      LeadingZero(front);
      assert [0] + s == ([0] + front) + [b];
      BigEndianSnoc([0] + front, b);
    }
  }

  lemma {:induction false} DigitsValue(n: nat, length: nat)
    requires n > 0 && FormFits(n, length)
    ensures BigEndian(LengthDigits(n, length)) == length
  {
    if n == 1 {
      BigEndianOne(LengthDigits(n, length));
    } else if n == 2 {
      BigEndianTwo(LengthDigits(n, length));
    } else {
      DigitsShift(n, length);
      LeadingZero(LengthDigits(n - 1, length));
      DigitsValue(n - 1, length);
    }
  }

  /** A length within the limit has no other digits. */
  lemma {:induction false} DigitsUnique(s: seq<byte>)
    requires s != [] && BigEndian(s) <= 65535
    ensures |s| == 1 ==> BigEndian(s) <= 255
    ensures s == LengthDigits(|s|, BigEndian(s))
    decreases |s|
  {
    var front, b := s[..|s| - 1], s[|s| - 1];
    if |s| == 1 {
      BigEndianOne(s);
    } else if |s| == 2 {
      BigEndianTwo(s);
    } else {
      DigitsUnique(front);
      var high := BigEndian(front);
      assert high <= 255;
      assert forall i :: 0 <= i < |s| - 1 ==> s[i] == front[i] == LengthDigits(|s| - 1, high)[i];
      assert s[|s| - 2] == high % 256 && s[|s| - 3] == high / 256 == 0;
    }
  }

  /** Every form of every length is read, whatever the contents and whatever follows. */
  lemma {:induction false} EveryFormReads(tag: byte, n: nat, contents: seq<byte>, rest: seq<byte>)
    requires FormFits(n, |contents|)
    ensures ReadHeader(Front(tag, n, |contents|) + contents + rest) == Some(Header(2 + n, |contents|))
  {
    var b := Front(tag, n, |contents|) + contents + rest;
    if n > 0 {
      DigitsValue(n, |contents|);
      hide LengthDigits, BigEndian;
      assert b[2..2 + n] == LengthDigits(n, |contents|);
    }
  }

  /** Nothing else is. */
  lemma {:induction false} NothingElseReads(b: seq<byte>)
    requires ReadHeader(b).Some?
    ensures var h := ReadHeader(b).value;
            && FormFits(h.size - 2, h.length) && h.size + h.length <= |b|
            && b[..h.size] == Front(b[0], h.size - 2, h.length)
  {
    if b[1] > 128 {
      DigitsUnique(b[2..2 + (b[1] - 128)]);
    }
  }

  /** What the octets open: a length form and its contents. */
  ghost predicate Opens(b: seq<byte>, h: Header) {
    && h.size >= 2 && h.size + h.length <= |b| && FormFits(h.size - 2, h.length)
    && b[..h.size] == Front(b[0], h.size - 2, h.length)
  }

  /** Header reading, both ways: a header is reported exactly when the octets open so. */
  lemma {:induction false} HeaderExact(b: seq<byte>, h: Header)
    ensures ReadHeader(b) == Some(h) <==> Opens(b, h)
  {
    hide ReadHeader, FormFits, Front;
    if Opens(b, h) {
      var contents, rest := b[h.size..h.size + h.length], b[h.size + h.length..];
      EveryFormReads(b[0], h.size - 2, contents, rest);
      assert b == Front(b[0], h.size - 2, h.length) + contents + rest;
    }
    if ReadHeader(b).Some? {
      NothingElseReads(b);
    }
  }

  // ----- leaves -----

  /** X.690 section 8.19 and RFC 2578 section 3.5, for 32-bit arcs. */
  predicate LegalArcs(arcs: Arcs) {
    && 2 <= |arcs| <= 128 && arcs[0] <= 2 && (arcs[0] <= 1 ==> arcs[1] <= 39)
    && forall i :: 0 <= i < |arcs| ==> arcs[i] <= 0xFFFF_FFFF
  }

  /** The contents octets that may stand for a leaf. */
  ghost predicate LeafSpelling(t: Ber, c: seq<byte>, lim: Limits)
    requires !t.Node?
  {
    match t
    case Number(k, bits) =>
      && (k == 0x02 || 0x41 <= k <= 0x43)
      && if k == 0x02 then 1 <= |c| <= 4 && TwosComplement(c) == Signed32(bits)
         else 1 <= |c| <= 5 && TwosComplement(c) == bits
    case Str(bytes) => c == bytes && |c| < lim.octets
    case Name(text) =>
      |text| < lim.oidText
      && exists arcs: Arcs :: LegalArcs(arcs) && text == Print(arcs) && c == Subidentifiers(Merge(arcs))
    case Null => c == []
    case Address(octets) => c == octets && |c| == 4
    case Counter(total) => 1 <= |c| <= 9 && TwosComplement(c) == total
    case Raw(k, bytes) => c == bytes && ((k == 0x44 && |c| <= lim.octets) || (0x80 <= k <= 0x82 && c == []))
  }

  lemma {:induction false} NumberExact(tag: byte, c: seq<byte>, bits: uint32)
    ensures DecodeInteger(tag, c) == Some(bits) <==>
            if tag == INTEGER then 1 <= |c| <= 4 && TwosComplement(c) == Signed32(bits)
            else 1 <= |c| <= 5 && TwosComplement(c) == bits
  {
    hide TwosComplement, Signed32;
    if DecodeInteger(tag, c).Some? {
      AcceptedInteger(tag, c);
    }
    if tag != INTEGER && 1 <= |c| <= 5 && TwosComplement(c) == bits {
      ContentBounds(c);
      Ranges();
      if |c| == 5 && c[0] != 0 {
        LongContents(c);
      }
    }
  }

  lemma {:induction false} Counter64Exact(c: seq<byte>, total: uint64)
    ensures DecodeCounter64(c) == Some(total) <==> 1 <= |c| <= 9 && TwosComplement(c) == total
  {
    hide TwosComplement;
    if DecodeCounter64(c).Some? {
      AcceptedCounter64(c);
    }
    if 1 <= |c| <= 9 && TwosComplement(c) == total {
      ContentBounds(c);
      Ranges();
      if |c| == 9 && c[0] != 0 {
        LongContents(c);
      }
    }
  }

  /** Contents octets decode to a text exactly when they are the subidentifiers of legal arcs and it is their text. */
  lemma {:induction false} NameExact(c: seq<byte>, text: Text, lim: Limits)
    ensures DecodeText(c, lim) == Some(text) <==>
            |text| < lim.oidText
            && exists arcs: Arcs :: LegalArcs(arcs) && text == Print(arcs) && c == Subidentifiers(Merge(arcs))
  {
    hide Print, ReadSubs, Subidentifiers;
    if DecodeText(c, lim) == Some(text) {
      var subs := ReadSubs(c).value;
      ReadSubsUnique(c);
      MergeSplit(subs);
      assert LegalArcs(Split(subs));
    }
    if exists arcs: Arcs :: LegalArcs(arcs) && text == Print(arcs) && c == Subidentifiers(Merge(arcs)) {
      var arcs: Arcs :| LegalArcs(arcs) && text == Print(arcs) && c == Subidentifiers(Merge(arcs));
      ReadSubsRoundTrip(Merge(arcs));
      SplitMerge(arcs);
    }
  }

  /** A dotted text is its numerals, each behind a dot. */
  function Joined(ds: seq<Text>): Text { if ds == [] then [] else [46] + ds[0] + Joined(ds[1..]) }

  /** Decimal numerals of the arcs, with any zeros in front. */
  predicate Numerals(ds: seq<Text>, arcs: Arcs) {
    |ds| == |arcs| && forall i :: 0 <= i < |ds| ==>
      |ds[i]| > 0 && (forall j :: 0 <= j < |ds[i]| ==> 48 <= ds[i][j] <= 57) && Numeral(ds[i]) == arcs[i] <= 0xFFFF_FFFF
  }

  lemma {:induction false} JoinedParses(ds: seq<Text>, arcs: Arcs)
    requires Numerals(ds, arcs)
    ensures Parse(Joined(ds)) == Some(arcs)
  {
    hide Numeral, Parse;
    if ds == [] {
      ParseStep([]);
    } else {
      JoinedParses(ds[1..], arcs[1..]);
      ParseCons(ds[0], Joined(ds[1..]));
      assert [arcs[0]] + arcs[1..] == arcs;
    }
  }

  lemma {:induction false} ParsedIsJoined(t: Text) returns (ds: seq<Text>)
    requires Parse(t).Some?
    ensures t == Joined(ds) && Numerals(ds, Parse(t).value)
    decreases |t|
  {
    hide Numeral, Span, Parse;
    ParseStep(t);
    ds := [];
    if t != [] {
      var n := Span(t[1..]);
      var d, tail := t[1..n + 1], t[n + 1..];
      var rest := ParsedIsJoined(tail);
      ds := [d] + rest;
      assert ds[1..] == rest && t == [46] + d + tail;
      assert Parse(t).value == [Numeral(d)] + Parse(tail).value;
    }
  }

  /** A text is encoded exactly when it joins numerals of legal arcs; leading zeros are accepted, nothing else is. */
  lemma {:induction false} TextExact(t: Text, c: seq<byte>, lim: Limits)
    ensures EncodeText(t, lim) == Some(c) <==>
            |t| < lim.oidText
            && exists ds, arcs: Arcs ::
                 Numerals(ds, arcs) && LegalArcs(arcs) && t == Joined(ds) && c == Subidentifiers(Merge(arcs))
  {
    hide Parse, Numerals, Subidentifiers, Joined;
    if EncodeText(t, lim) == Some(c) {
      var ds := ParsedIsJoined(t);
      ParsedArcs(t);
      assert LegalArcs(Parse(t).value);
    }
    if exists ds, arcs: Arcs ::
         Numerals(ds, arcs) && LegalArcs(arcs) && t == Joined(ds) && c == Subidentifiers(Merge(arcs)) {
      var ds, arcs: Arcs :|
        Numerals(ds, arcs) && LegalArcs(arcs) && t == Joined(ds) && c == Subidentifiers(Merge(arcs));
      JoinedParses(ds, arcs);
    }
  }

  lemma {:induction false} ParsedArcs(t: Text)
    ensures Parse(t).Some? ==> forall i :: 0 <= i < |Parse(t).value| ==> Parse(t).value[i] <= MAX32
  {}

  /** A leaf is decoded from exactly these contents octets. */
  lemma {:induction false} LeafExact(tag: byte, c: seq<byte>, t: Ber, lim: Limits)
    ensures DecodeLeaf(tag, c, lim) == Some(t) <==> !t.Node? && t.Tag() == tag && LeafSpelling(t, c, lim)
  {
    hide TwosComplement, DecodeText, DecodeInteger, DecodeCounter64, Signed32, LegalArcs;
    match t
    case Number(k, bits) => NumberExact(tag, c, bits);
    case Name(text) => NameExact(c, text, lim);
    case Counter(total) => Counter64Exact(c, total);
    case _ =>
  }

  // ----- trees -----

  /** How a tree is spelt: the length form of every value and the contents of every leaf. */
  datatype Form =
    | Leaf(n: nat, contents: seq<byte>)
    | Branch(n: nat, forms: seq<Form>)

  function Contents(t: Ber, f: Form): seq<byte>
    decreases t, 0
  {
    if t.Node? && f.Branch? then SpellAll(t.kids, f.forms) else if f.Leaf? then f.contents else []
  }

  function Spell(t: Ber, f: Form): seq<byte>
    decreases t, 1
  {
    var c := Contents(t, f);
    if FormFits(f.n, |c|) then Front(t.Tag(), f.n, |c|) + c else []
  }

  function SpellAll(kids: seq<Ber>, forms: seq<Form>): seq<byte>
    decreases kids, 0
  {
    if kids == [] || forms == [] then [] else Spell(kids[0], forms[0]) + SpellAll(kids[1..], forms[1..])
  }

  /** The form spells the tree: its lengths fit and its leaves' contents stand for them. */
  ghost predicate Legal(t: Ber, f: Form, lim: Limits)
    decreases t, 1
  {
    && FormFits(f.n, |Contents(t, f)|)
    && match t
       case Node(k, kids) => (k == 0x30 || 0xA0 <= k <= 0xA7) && f.Branch? && LegalAll(kids, f.forms, lim)
       case _ => f.Leaf? && LeafSpelling(t, f.contents, lim)
  }

  ghost predicate LegalAll(kids: seq<Ber>, forms: seq<Form>, lim: Limits)
    decreases kids, 0
  {
    && |forms| == |kids|
    && (kids != [] ==> Legal(kids[0], forms[0], lim) && LegalAll(kids[1..], forms[1..], lim))
  }

  lemma {:induction false} SpellStep(kids: seq<Ber>, forms: seq<Form>)
    requires kids != [] && forms != [] && FormFits(forms[0].n, |Contents(kids[0], forms[0])|)
    ensures var c := Contents(kids[0], forms[0]);
            SpellAll(kids, forms) ==
            Front(kids[0].Tag(), forms[0].n, |c|) + c + SpellAll(kids[1..], forms[1..])
  {
    hide FormFits, Front;
  }

  lemma {:induction false} KidsSpelt(kids: seq<Ber>, forms: seq<Form>, depth: nat, lim: Limits)
    requires LegalAll(kids, forms, lim) && LevelsAll(kids) + depth < 32
    ensures DecodeKids(SpellAll(kids, forms), depth, lim) == Some(kids)
    decreases kids, 0
  {
    hide ReadHeader, Front, FormFits;
    if kids != [] {
      var t, f := kids[0], forms[0];
      var c, rest := Contents(t, f), SpellAll(kids[1..], forms[1..]);
      ChildSpelt(t, f, depth, lim);
      KidsSpelt(kids[1..], forms[1..], depth, lim);
      EveryFormReads(t.Tag(), f.n, c, rest);
      var b := SpellAll(kids, forms);
      SpellStep(kids, forms);
      assert b[2 + f.n..2 + f.n + |c|] == c && b[2 + f.n + |c|..] == rest;
      assert [t] + kids[1..] == kids;
    }
  }

  lemma {:induction false} ChildSpelt(t: Ber, f: Form, depth: nat, lim: Limits)
    requires Legal(t, f, lim) && Levels(t) + depth < 32
    ensures DecodeChild(t.Tag(), Contents(t, f), depth, lim) == Some(t)
    decreases t, 1
  {
    hide DecodeKids, DecodeLeaf, LeafSpelling, FormFits, SpellAll;
    if t.Node? {
      assert Levels(t) == 1 + LevelsAll(t.kids);
      KidsSpelt(t.kids, f.forms, depth + 1, lim);
    } else {
      LeafExact(t.Tag(), f.contents, t, lim);
      LeafTag(t, f.contents, lim);
    }
  }

  lemma {:induction false} LeafTag(t: Ber, c: seq<byte>, lim: Limits)
    requires !t.Node? && LeafSpelling(t, c, lim)
    ensures !Constructed(t.Tag())
  {}

  /** The form in which contents octets were spelt. */
  ghost predicate ReadsKids(c: seq<byte>, kids: seq<Ber>, forms: seq<Form>, lim: Limits) {
    LegalAll(kids, forms, lim) && SpellAll(kids, forms) == c
  }

  /** The first child and those behind it. */
  lemma {:induction false} FirstKid(c: seq<byte>, depth: nat, lim: Limits)
    requires c != [] && DecodeKids(c, depth, lim).Some?
    ensures ReadHeader(c).Some?
    ensures var h := ReadHeader(c).value;
            var end := h.size + h.length;
            && DecodeChild(c[0], c[h.size..end], depth, lim).Some? && DecodeKids(c[end..], depth, lim).Some?
            && DecodeKids(c, depth, lim).value ==
               [DecodeChild(c[0], c[h.size..end], depth, lim).value] + DecodeKids(c[end..], depth, lim).value
  {
    hide ReadHeader, DecodeChild;
  }

  lemma {:induction false} SpeltBehind(c: seq<byte>, t: Ber, rest: seq<Ber>, first: Form, later: seq<Form>, n: nat,
                                       body: seq<byte>, lim: Limits)
    requires Legal(t, first, lim) && LegalAll(rest, later, lim) && FormFits(n, |body|) && c != []
    requires Spell(t, first) == Front(c[0], n, |body|) + body
    requires c == Front(c[0], n, |body|) + body + SpellAll(rest, later)
    ensures ReadsKids(c, [t] + rest, [first] + later, lim)
  {
    hide Front, FormFits, Legal, Spell;
    var kids, forms := [t] + rest, [first] + later;
    assert kids[0] == t && kids[1..] == rest && forms[0] == first && forms[1..] == later;
  }

  lemma {:induction false} KidsHaveForm(c: seq<byte>, depth: nat, lim: Limits) returns (forms: seq<Form>)
    requires DecodeKids(c, depth, lim).Some? && depth < 32
    ensures ReadsKids(c, DecodeKids(c, depth, lim).value, forms, lim)
    ensures LevelsAll(DecodeKids(c, depth, lim).value) + depth < 32
    decreases |c|, 0
  {
    hide *;
    if c == [] {
      NoKids(depth, lim);
      return [];
    }
    FirstKid(c, depth, lim);
    NothingElseReads(c);
    var h := ReadHeader(c).value;
    var size, body, tail := h.size, c[h.size..h.size + h.length], c[h.size + h.length..];
    ThreeParts(c, size, size + h.length);
    assert |body| < |c| && |tail| < |c|;
    var first := ChildHasForm(c[0], body, size - 2, depth, lim);
    var later := KidsHaveForm(tail, depth, lim);
    forms := [first] + later;
    var child, rest := DecodeChild(c[0], body, depth, lim).value, DecodeKids(tail, depth, lim).value;
    LevelsCons(child, rest);
    KidsForm(tail, rest, later, lim);
    SpeltBehind(c, child, rest, first, later, size - 2, body, lim);
  }

  lemma {:induction false} NoKids(depth: nat, lim: Limits)
    ensures DecodeKids([], depth, lim) == Some([]) && ReadsKids([], [], [], lim) && LevelsAll([]) == 0
  {}

  lemma {:induction false} KidsForm(c: seq<byte>, kids: seq<Ber>, forms: seq<Form>, lim: Limits)
    requires ReadsKids(c, kids, forms, lim)
    ensures LegalAll(kids, forms, lim) && SpellAll(kids, forms) == c
  {}

  lemma {:induction false} ThreeParts<T>(s: seq<T>, i: nat, j: nat)
    requires i <= j <= |s|
    ensures s == s[..i] + s[i..j] + s[j..]
  {}

  lemma {:induction false} LevelsCons(t: Ber, rest: seq<Ber>)
    ensures var a, b := Levels(t), LevelsAll(rest); LevelsAll([t] + rest) == if a > b then a else b
  {
    assert ([t] + rest)[1..] == rest;
  }

  lemma {:induction false} ChildHasForm(tag: byte, c: seq<byte>, n: nat, depth: nat, lim: Limits) returns (f: Form)
    requires DecodeChild(tag, c, depth, lim).Some? && depth < 32 && FormFits(n, |c|)
    ensures var t := DecodeChild(tag, c, depth, lim).value;
            && Legal(t, f, lim) && Levels(t) + depth < 32 && t.Tag() == tag
            && Spell(t, f) == Front(tag, n, |c|) + c
    decreases |c|, 1
  {
    hide DecodeKids, DecodeLeaf, LeafSpelling, FormFits, SpellAll, LegalAll, Front;
    var t := DecodeChild(tag, c, depth, lim).value;
    if Constructed(tag) {
      var forms := KidsHaveForm(c, depth + 1, lim);
      f := Branch(n, forms);
    } else {
      LeafExact(tag, c, t, lim);
      f := Leaf(n, c);
    }
  }

  /** The octets begin with a spelling of the tree, under whatever outermost tag. */
  ghost predicate Begins(b: seq<byte>, t: Ber, f: Form) {
    var s := Spell(t, f);
    1 <= |s| <= |b| && b[1..|s|] == s[1..]
  }

  /** Every spelling of a tree of at most 32 levels is decoded to it, whatever follows. */
  lemma {:induction false} EverySpellingDecodes(t: Ber, f: Form, b: seq<byte>, lim: Limits)
    requires t.Node? && Levels(t) <= 32 && Legal(t, f, lim) && Begins(b, t, f)
    ensures Decode(t.kind, b, lim) == Some(t)
  {
    hide ReadHeader, FormFits, DecodeKids, SpellAll, LegalAll;
    var c, s := SpellAll(t.kids, f.forms), Spell(t, f);
    KidsSpelt(t.kids, f.forms, 0, lim);
    assert b == Front(b[0], f.n, |c|) + c + b[|s|..] by {
      assert s == Front(t.kind, f.n, |c|) + c;
      assert b == [b[0]] + b[1..|s|] + b[|s|..];
    }
    EveryFormReads(b[0], f.n, c, b[|s|..]);
    assert b[2 + f.n..2 + f.n + |c|] == c;
  }

  /** Nothing else decodes to it. */
  lemma {:induction false} OnlySpellingsDecode(tag: byte, b: seq<byte>, lim: Limits) returns (f: Form)
    requires Decode(tag, b, lim).Some? && Constructed(tag)
    ensures var t := Decode(tag, b, lim).value; Levels(t) <= 32 && Legal(t, f, lim) && Begins(b, t, f)
  {
    hide FormFits, DecodeKids, SpellAll, LegalAll, Begins, Front, Levels, LevelsAll;
    NothingElseReads(b);
    hide ReadHeader;
    var h := ReadHeader(b).value;
    var c := b[h.size..h.size + h.length];
    var forms := KidsHaveForm(c, 0, lim);
    f := Branch(h.size - 2, forms);
    var t := Decode(tag, b, lim).value;
    assert t == Node(tag, DecodeKids(c, 0, lim).value);
    NodeBegins(b, t, f, h.size, c);
    NodeLevels(t);
  }

  lemma {:induction false} NodeLevels(t: Ber)
    requires t.Node?
    ensures Levels(t) == 1 + LevelsAll(t.kids)
  {}

  lemma {:induction false} NodeBegins(b: seq<byte>, t: Ber, f: Form, size: nat, c: seq<byte>)
    requires 2 <= size && size + |c| <= |b| && b[size..size + |c|] == c && FormFits(size - 2, |c|)
    requires b[..size] == Front(b[0], size - 2, |c|)
    requires f.n == size - 2 && Contents(t, f) == c
    ensures Begins(b, t, f)
  {
    hide FormFits, Front;
    var s := Spell(t, f);
    assert s == Front(t.Tag(), size - 2, |c|) + c;
    FrontTail(b[0], t.Tag(), size - 2, |c|);
    var front := Front(t.Tag(), size - 2, |c|);
    assert s[1..] == front[1..] + c;
    assert b[1..|s|] == b[1..size] + b[size..|s|];
    assert b[1..size] == b[..size][1..];
  }

  lemma {:induction false} FrontTail(a: byte, b: byte, n: nat, length: nat)
    requires FormFits(n, length)
    ensures Front(a, n, length)[1..] == Front(b, n, length)[1..]
  {}

  /**
   * The decoder, both ways: octets decode to a tree exactly when they begin with a spelling of it, in any length
   * forms and with any contents that stand for its leaves, and it has at most 32 levels.
   */
  lemma {:induction false} DecodeExact(tag: byte, b: seq<byte>, t: Ber, lim: Limits)
    requires tag == 0x30 || 0xA0 <= tag <= 0xA7
    ensures Decode(tag, b, lim) == Some(t) <==>
            t.Node? && t.kind == tag && Levels(t) <= 32 && exists f :: Legal(t, f, lim) && Begins(b, t, f)
  {
    hide Decode, Legal, Begins;
    if Decode(tag, b, lim) == Some(t) {
      var f := OnlySpellingsDecode(tag, b, lim);
    }
    if t.Node? && t.kind == tag && Levels(t) <= 32 && exists f :: Legal(t, f, lim) && Begins(b, t, f) {
      var f :| Legal(t, f, lim) && Begins(b, t, f);
      EverySpellingDecodes(t, f, b, lim);
    }
  }
}

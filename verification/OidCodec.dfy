/** The loops of OIDType::serialise and OIDType::fromBuffer, proved against the codec functions. */
module OidCodec {
  import opened Bytes
  import opened Oids

  // ----- one subidentifier, back to front -----

  function Raw(n: nat): (s: seq<byte>)
    ensures |s| > 0 && forall i :: 0 <= i < |s| ==> s[i] < 128
  {
    if n < 128 then [n] else Raw(n / 128) + [n % 128]
  }

  /** Set the continuation bit on every octet from `k` on except the last. */
  function Mark(s: seq<byte>, k: nat): (r: seq<byte>)
    requires k <= |s| && forall i :: 0 <= i < |s| ==> s[i] < 128
    ensures |r| == |s|
  {
    seq(|s|, i requires 0 <= i < |s| => if i < k && i + 1 < |s| then s[i] + 128 else s[i])
  }

  lemma {:induction false} RawContinued(n: nat)
    ensures |Raw(n)| == |Continued(n)|
    ensures forall i :: 0 <= i < |Raw(n)| ==> Continued(n)[i] == Raw(n)[i] + 128
  {
    if n >= 128 {
      RawContinued(n / 128);
    }
  }

  lemma {:induction false} MarkRaw(n: nat)
    ensures Mark(Raw(n), |Raw(n)|) == Base128(n)
  {
    if n >= 128 {
      RawContinued(n / 128);
    }
  }

  method Octets(n: nat) returns (s: seq<byte>)
    ensures s == Base128(n)
  {
    var arc := n;
    var encoded: seq<byte> := [arc % 128];
    arc := arc / 128;
    while arc != 0
      invariant forall i :: 0 <= i < |encoded| ==> encoded[i] < 128
      invariant Raw(n) == if arc == 0 then encoded else Raw(arc) + encoded
    {
      assert arc >= 128 ==> Raw(arc) + encoded == Raw(arc / 128) + ([arc % 128] + encoded);
      encoded := [arc % 128] + encoded;
      arc := arc / 128;
    }
    s := encoded;
    var start := 0;
    while start < |s|
      invariant 0 <= start <= |s| == |encoded|
      invariant s == Mark(encoded, start)
    {
      s := s[start := if start + 1 < |s| then s[start] + 128 else s[start]];
      start := start + 1;
    }
    MarkRaw(n);
  }

  // ----- text to contents -----

  function Prepend<T>(done: seq<T>, rest: Option<seq<T>>): Option<seq<T>> {
    if rest.None? then None else Some(done + rest.value)
  }

  lemma {:induction false} PrependNothing<T>(rest: Option<seq<T>>)
    ensures Prepend([], rest) == rest
  {
    if rest.Some? {
      assert [] + rest.value == rest.value;
    }
  }

  lemma {:induction false} PrependTwice<T>(done: seq<T>, x: T, rest: Option<seq<T>>)
    ensures Prepend(done, Prepend([x], rest)) == Prepend(done + [x], rest)
  {
    if rest.Some? {
      assert done + ([x] + rest.value) == (done + [x]) + rest.value;
    }
  }

  /** The contents written for the arcs read so far: nothing until the second arc is known. */
  function Written(done: Arcs): seq<byte> {
    if |done| < 2 then [] else Subidentifiers(Merge(done))
  }

  lemma {:induction false} SubidentifiersAppend(a: seq<nat>, b: seq<nat>)
    ensures Subidentifiers(a + b) == Subidentifiers(a) + Subidentifiers(b)
    decreases |a|
  {
    if a == [] {
      assert a + b == b;
    } else {
      assert (a + b)[1..] == a[1..] + b;
      SubidentifiersAppend(a[1..], b);
    }
  }

  lemma {:induction false} WrittenSnoc(done: Arcs, arc: nat)
    requires |done| > 0
    ensures Written(done + [arc]) ==
            Written(done) + Base128(if |done| == 1 then done[0] * 40 + arc else arc)
  {
    var n := if |done| == 1 then done[0] * 40 + arc else arc;
    assert Subidentifiers([n]) == Base128(n) by {
      assert [n][1..] == [];
    }
    if |done| > 1 {
      assert Merge(done + [arc]) == Merge(done) + [arc];
      SubidentifiersAppend(Merge(done), [arc]);
    } else {
      assert Merge(done + [arc]) == [n];
    }
  }

  /** What has been written fits half of the text already read. */
  lemma {:induction false} WrittenHalf(done: Arcs)
    requires done != [] ==> done[0] <= 2
    ensures 2 * |Written(done)| <= |Print(done)|
  {
    if |done| >= 2 {
      HalfTheTextFirst(done[0], done[1]);
      SubidentifiersHalf(done[2..]);
      assert done[1..][1..] == done[2..];
      assert Print(done) == [DOT] + Decimal(done[0]) + ([DOT] + Decimal(done[1]) + Print(done[2..]));
      assert Merge(done)[1..] == done[2..];
    }
  }

  lemma {:induction false} PrintSnoc(done: Arcs, arc: nat)
    ensures Print(done + [arc]) == Print(done) + [DOT] + Decimal(arc)
  {
    PrintAppend(done, [arc]);
    assert [arc][1..] == [];
  }

  predicate NoDots(t: Text, from: nat, to: nat)
    requires from <= to <= |t|
  {
    forall i :: from <= i < to ==> t[i] != DOT
  }

  predicate DigitsBetween(t: Text, from: nat, to: nat)
    requires from <= to <= |t|
  {
    forall i :: from <= i < to ==> IsDigit(t[i])
  }

  lemma {:induction false} NumeralStep(t: Text, from: nat, to: nat)
    requires from <= to < |t|
    ensures Numeral(t[from..to + 1]) == Numeral(t[from..to]) * 10 + DigitValue(t[to])
  {
    assert t[from..to + 1] == t[from..to] + [t[to]];
    NumeralSnoc(t[from..to], t[to]);
  }

  /** What Parse does with the arc between a dot and the next one. */
  lemma {:induction false} ParseAt(t: Text, dot: nat, end: nat)
    requires dot < end <= |t| && t[dot] == DOT && NoDots(t, dot + 1, end)
    requires end < |t| ==> t[end] == DOT
    ensures dot + 1 < end && DigitsBetween(t, dot + 1, end) && Numeral(t[dot + 1..end]) <= MAX32 ==>
              Parse(t[dot..]) == Prepend([Numeral(t[dot + 1..end])], Parse(t[end..]))
    ensures dot + 1 == end || !DigitsBetween(t, dot + 1, end) || Numeral(t[dot + 1..end]) > MAX32 ==>
              Parse(t[dot..]).None?
  {
    hide Numeral, Span, IsDigit;
    var rest, n := t[dot..], end - dot - 1;
    SpanAt(rest[1..], n);
    var d := t[dot + 1..end];
    SliceOfSlice(t, dot, |t|, 1, n + 1);
    TailOfSlice(t, dot, |t|, n + 1);
    assert rest[1..n + 1] == d;
    assert rest[n + 1..] == t[end..];
    assert Digits(d) <==> DigitsBetween(t, dot + 1, end) by {
      assert forall i :: 0 <= i < |d| ==> d[i] == t[dot + 1 + i];
      assert forall i :: dot + 1 <= i < end ==> t[i] == d[i - dot - 1];
    }
  }

  /** A bad digit or an oversized number spoils the text however it continues. */
  lemma {:induction false} SpoiltArc(t: Text, dot: nat, next: nat)
    requires dot < next <= |t| && t[dot] == DOT && NoDots(t, dot + 1, next)
    requires !DigitsBetween(t, dot + 1, next) || Numeral(t[dot + 1..next]) > MAX32
    ensures Parse(t[dot..]).None?
  {
    hide Parse, Numeral, Digits, Span;
    var end := next + Span(t[next..]);
    DotsEnd(t, dot, next);
    ParseAt(t, dot, end);
    var d := t[dot + 1..end];
    assert d[..next - dot - 1] == t[dot + 1..next];
    NumeralGrows(d, next - dot - 1);
  }

  lemma {:induction false} DotsEnd(t: Text, dot: nat, next: nat)
    requires dot < next <= |t| && NoDots(t, dot + 1, next)
    ensures var end := next + Span(t[next..]);
            end <= |t| && NoDots(t, dot + 1, end) && (end < |t| ==> t[end] == DOT)
  {
    hide Span;
    var end := next + Span(t[next..]);
    assert forall i :: next <= i < end ==> t[i] == t[next..][i - next];
    assert end < |t| ==> t[end] == t[next..][end - next];
  }

  /** Reads one dotted number: the inner loop of OIDType::serialise. */
  method ReadArc(t: Text, cursor: nat) returns (r: Option<(nat, nat)>)
    requires cursor < |t| && t[cursor] == DOT
    ensures r.None? ==> Parse(t[cursor..]).None?
    ensures r.Some? ==>
              var (arc, next) := r.value;
              && cursor + 1 < next <= |t| && arc <= MAX32
              && Parse(t[cursor..]) == Prepend([arc], Parse(t[next..]))
              && |Decimal(arc)| < next - cursor
  {
    var arc: nat := 0;
    var digits := cursor + 1;
    var next := digits;
    while next < |t| && t[next] != DOT
      invariant digits <= next <= |t|
      invariant NoDots(t, digits, next) && DigitsBetween(t, digits, next)
      invariant arc == Numeral(t[digits..next]) <= MAX32
    {
      if !IsDigit(t[next]) {
        SpoiltArc(t, cursor, next + 1);
        return None;
      }
      NumeralStep(t, digits, next);
      arc := arc * 10 + (t[next] - ZERO);
      next := next + 1;
      if arc > MAX32 {
        SpoiltArc(t, cursor, next);
        return None;
      }
    }
    ParseAt(t, cursor, next);
    if next == digits {
      return None;
    }
    DecimalIsShortest(t[digits..next]);
    return Some((arc, next));
  }

  /** Bookkeeping of ContentsOfText: `done` has been read and written, the text from `cursor` on is left. */
  ghost predicate Progress(t: Text, done: Arcs, cursor: nat, contents: seq<byte>) {
    && cursor <= |t|
    && |done| <= MAX_ARCS
    && (|done| > 0 ==> done[0] <= 2)
    && (|done| > 1 && done[0] < 2 ==> done[1] <= 39)
    && Parse(t) == Prepend(done, Parse(t[cursor..]))
    && contents == Written(done)
    && |Print(done)| <= cursor
  }

  lemma {:induction false} ProgressStep(t: Text, done: Arcs, cursor: nat, contents: seq<byte>, arc: nat, next: nat)
    requires Progress(t, done, cursor, contents) && |done| < MAX_ARCS
    requires cursor + 1 < next <= |t|
    requires Parse(t[cursor..]) == Prepend([arc], Parse(t[next..]))
    requires |Decimal(arc)| < next - cursor
    requires |done| == 0 ==> arc <= 2
    requires |done| == 1 && done[0] < 2 ==> arc <= 39
    ensures |done| == 0 ==> Progress(t, [arc], next, contents)
    ensures |done| > 0 ==>
              var n := if |done| == 1 then done[0] * 40 + arc else arc;
              && Progress(t, done + [arc], next, contents + Base128(n))
              && 2 * |contents + Base128(n)| <= next
  {
    PrependTwice(done, arc, Parse(t[next..]));
    PrintSnoc(done, arc);
    if |done| > 0 {
      WrittenSnoc(done, arc);
      WrittenHalf(done + [arc]);
    } else {
      assert done + [arc] == [arc];
    }
  }

  /** The first arcs decide whether the whole text can be valid. */
  lemma {:induction false} ProgressFails(t: Text, done: Arcs, cursor: nat, contents: seq<byte>, arc: nat, next: nat,
                                         lim: Limits)
    requires Progress(t, done, cursor, contents)
    requires cursor < next <= |t|
    requires Parse(t[cursor..]) == Prepend([arc], Parse(t[next..]))
    requires |done| == MAX_ARCS || (|done| == 0 && arc > 2) || (|done| == 1 && done[0] < 2 && arc > 39)
    ensures EncodeText(t, lim).None?
  {
    var tail := Parse(t[next..]);
    PrependTwice(done, arc, tail);
    if tail.Some? {
      assert Parse(t).value == (done + [arc]) + tail.value;
      assert Parse(t).value[|done|] == arc;
    }
  }

  lemma {:induction false} ProgressBroken(t: Text, done: Arcs, cursor: nat, contents: seq<byte>, lim: Limits)
    requires Progress(t, done, cursor, contents) && Parse(t[cursor..]).None?
    ensures EncodeText(t, lim).None?
  {}

  lemma {:induction false} ProgressDone(t: Text, done: Arcs, contents: seq<byte>, lim: Limits)
    requires Progress(t, done, |t|, contents) && |t| < lim.oidText
    ensures EncodeText(t, lim) == if |done| < 2 then None else Some(contents)
  {
    assert t[|t|..] == [];
    assert done + [] == done;
  }

  method ContentsOfText(t: Text, lim: Limits) returns (r: Option<seq<byte>>)
    ensures r == EncodeText(t, lim)
  {
    if |t| >= lim.oidText {
      return None;
    }
    var cursor: nat, contents: seq<byte>, arcs: nat, first: nat := 0, [], 0, 0;
    ghost var done: Arcs := [];
    assert Progress(t, done, cursor, contents) by {
      assert t[0..] == t;
      PrependNothing(Parse(t));
    }
    while cursor < |t|
      invariant cursor <= |t| && |done| == arcs && (arcs > 0 ==> first == done[0])
      invariant Progress(t, done, cursor, contents)
    {
      if t[cursor] != DOT {
        ProgressBroken(t, done, cursor, contents, lim);
        return None;
      }
      var read := ReadArc(t, cursor);
      if read.None? {
        ProgressBroken(t, done, cursor, contents, lim);
        return None;
      }
      var (arc, next) := read.value;
      if arcs == MAX_ARCS || (arcs == 0 && arc > 2) || (arcs == 1 && first < 2 && arc > 39) {
        ProgressFails(t, done, cursor, contents, arc, next, lim);
        return None;
      }
      ProgressStep(t, done, cursor, contents, arc, next);
      arcs := arcs + 1;
      if arcs == 1 {
        first := arc;
        done := [arc];
      } else {
        var n := if arcs == 2 then first * 40 + arc else arc;
        assert n == if |done| == 1 then done[0] * 40 + arc else arc;
        var encoded := Octets(n);
        if |contents| + |encoded| > lim.oidText {
          assert false;
        }
        contents := contents + encoded;
        done := done + [arc];
      }
      cursor := next;
    }
    ProgressDone(t, done, contents, lim);
    return if arcs < 2 then None else Some(contents);
  }

  // ----- contents to text -----

  function Spelled(done: seq<nat>): Text {
    if done == [] then [] else Print(Split(done))
  }

  lemma {:induction false} SpelledSnoc(done: seq<nat>, n: nat)
    requires done != []
    ensures Spelled(done + [n]) == Spelled(done) + [DOT] + Decimal(n)
  {
    assert Split(done + [n]) == Split(done) + [n];
    PrintSnoc(Split(done), n);
  }

  lemma {:induction false} SpelledFirst(n: nat)
    ensures var root := if n < 40 then 0 else if n < 80 then 1 else 2;
            Spelled([n]) == [DOT] + Decimal(root) + [DOT] + Decimal(n - root * 40)
  {
    var root := if n < 40 then 0 else if n < 80 then 1 else 2;
    SplitOne(n);
    PrintTwo(root, n - root * 40);
  }

  lemma {:induction false} SplitOne(n: nat)
    ensures var root := if n < 40 then 0 else if n < 80 then 1 else 2;
            Split([n]) == [root, n - root * 40]
  {}

  lemma {:induction false} PrintTwo(a: nat, b: nat)
    ensures Print([a, b]) == [DOT] + Decimal(a) + [DOT] + Decimal(b)
  {
    assert [a, b][1..] == [b] && [b][1..] == [];
    assert Print([b]) == [DOT] + Decimal(b);
  }

  /** More subidentifiers only make the text longer. */
  lemma {:induction false} SpelledGrows(done: seq<nat>, rest: seq<nat>)
    requires done != []
    ensures |Spelled(done)| <= |Spelled(done + rest)|
  {
    assert Split(done + rest) == Split(done) + rest;
    PrintAppend(Split(done), rest);
  }

  lemma {:induction false} SeptetsStep(c: seq<byte>, from: nat, to: nat)
    requires from <= to < |c|
    ensures Septets(c[from..to + 1]) == Septets(c[from..to]) * 128 + c[to] % 128
  {
    assert c[from..to + 1] == c[from..to] + [c[to]];
    SeptetsSnoc(c[from..to], c[to]);
  }

  lemma {:induction false} ReadSubsAt(c: seq<byte>, offset: nat, octets: nat)
    requires offset + octets <= |c| && ReadSub(c[offset..], 0) == Some(octets)
    ensures ReadSubs(c[offset..]) == Prepend([Septets(c[offset..offset + octets])], ReadSubs(c[offset + octets..]))
  {
    hide ReadSub, Septets;
    var s := c[offset..];
    assert s[..octets] == c[offset..offset + octets];
    assert s[octets..] == c[offset + octets..];
  }

  lemma {:induction false} ReadSubsNone(s: seq<byte>)
    requires s != [] && ReadSub(s, 0).None?
    ensures ReadSubs(s).None?
  {}

  lemma {:induction false} ReadSubStep(s: seq<byte>, n: nat)
    ensures n >= |s| || n >= 5 || (n == 0 && s[0] == 128) ==> ReadSub(s, n).None?
    ensures n < |s| && n < 5 && !(n == 0 && s[0] == 128) ==>
              ReadSub(s, n) == if s[n] < 128 then Some(n + 1) else ReadSub(s, n + 1)
  {}

  /** The do-while loop that reads one subidentifier at an offset. */
  method ReadOctets(c: seq<byte>, offset: nat) returns (r: Option<(nat, nat)>)
    requires offset < |c|
    ensures r.None? ==> ReadSubs(c[offset..]).None?
    ensures r.Some? ==>
              var (arc, next) := r.value;
              && offset < next <= |c|
              && ReadSubs(c[offset..]) == Prepend([arc], ReadSubs(c[next..]))
  {
    hide ReadSub, ReadSubs;
    ghost var s := c[offset..];
    ghost var sub := ReadSub(s, 0);
    var arc: nat, octets: nat := 0, 0;
    var more := true;
    assert c[offset..offset] == [];
    while more
      invariant octets <= 5 && offset + octets <= |c|
      invariant arc == Septets(c[offset..offset + octets])
      invariant sub == if more then ReadSub(s, octets) else Some(octets)
      decreases more, 6 - octets
    {
      ReadSubStep(s, octets);
      if offset + octets == |c| || octets + 1 > 5 {
        ReadSubsNone(s);
        return None;
      }
      var b := c[offset + octets];
      assert b == s[octets];
      if octets == 0 && b == 128 {
        ReadSubsNone(s);
        return None;
      }
      SeptetsStep(c, offset, offset + octets);
      arc := arc * 128 + b % 128;
      octets := octets + 1;
      more := b >= 128;
    }
    ReadSubsAt(c, offset, octets);
    return Some((arc, offset + octets));
  }

  /** Bookkeeping of TextOfContents: the octets before `offset` are read into `done` and printed. */
  ghost predicate Reading(c: seq<byte>, done: seq<nat>, offset: nat, text: Text, lim: Limits) {
    && offset <= |c|
    && ReadSubs(c) == Prepend(done, ReadSubs(c[offset..]))
    && (done != [] ==> SubsInRange(done))
    && text == Spelled(done)
    && |text| < lim.oidText
  }

  lemma {:induction false} ReadingStep(c: seq<byte>, done: seq<nat>, offset: nat, text: Text, lim: Limits, n: nat,
                                       next: nat)
    requires Reading(c, done, offset, text, lim)
    requires next <= |c| && ReadSubs(c[offset..]) == Prepend([n], ReadSubs(c[next..]))
    requires n <= MAX32 + (if done == [] then 80 else 0) && |done| + 1 < MAX_ARCS
    requires |Spelled(done + [n])| < lim.oidText
    ensures Reading(c, done + [n], next, Spelled(done + [n]), lim)
  {
    PrependTwice(done, n, ReadSubs(c[next..]));
  }

  lemma {:induction false} ReadingFails(c: seq<byte>, done: seq<nat>, offset: nat, text: Text, lim: Limits, n: nat,
                                        next: nat)
    requires Reading(c, done, offset, text, lim)
    requires next <= |c| && ReadSubs(c[offset..]) == Prepend([n], ReadSubs(c[next..]))
    requires n > MAX32 + (if done == [] then 80 else 0) || |done| + 1 >= MAX_ARCS
             || |Spelled(done + [n])| >= lim.oidText
    ensures DecodeText(c, lim).None?
  {
    var tail := ReadSubs(c[next..]);
    PrependTwice(done, n, tail);
    if tail.Some? {
      assert ReadSubs(c).value == (done + [n]) + tail.value;
      assert ReadSubs(c).value[|done|] == n;
      SpelledGrows(done + [n], tail.value);
    }
  }

  lemma {:induction false} ReadingDone(c: seq<byte>, done: seq<nat>, text: Text, lim: Limits)
    requires Reading(c, done, |c|, text, lim) && done != []
    ensures DecodeText(c, lim) == Some(text)
  {
    assert c[|c|..] == [];
    assert done + [] == done;
  }

  method TextOfContents(c: seq<byte>, lim: Limits) returns (r: Option<Text>)
    ensures r == DecodeText(c, lim)
  {
    if c == [] {
      return None;
    }
    var text: Text, offset: nat, arcs: nat, first := [], 0, 0, true;
    ghost var done: seq<nat> := [];
    assert Reading(c, done, offset, text, lim) by {
      assert c[0..] == c;
      PrependNothing(ReadSubs(c));
    }
    while offset < |c|
      invariant offset <= |c|
      invariant (first <==> done == []) && (first <==> offset == 0)
      invariant arcs == if first then 0 else |done| + 1
      invariant Reading(c, done, offset, text, lim)
    {
      var read := ReadOctets(c, offset);
      if read.None? {
        return None;
      }
      var (arc, next) := read.value;
      if arc > MAX32 + (if first then 80 else 0) {
        ReadingFails(c, done, offset, text, lim, arc, next);
        return None;
      }
      arcs := arcs + (if first then 2 else 1);
      if arcs > MAX_ARCS {
        ReadingFails(c, done, offset, text, lim, arc, next);
        return None;
      }
      var written := WriteArc(text, arc, first, done);
      if |written| >= lim.oidText - |text| {
        ReadingFails(c, done, offset, text, lim, arc, next);
        return None;
      }
      ReadingStep(c, done, offset, text, lim, arc, next);
      first := false;
      text := text + written;
      done := done + [arc];
      offset := next;
    }
    ReadingDone(c, done, text, lim);
    return Some(text);
  }

  /** The two snprintf forms: the first subidentifier prints as two arcs. */
  method WriteArc(text: Text, arc: nat, first: bool, ghost done: seq<nat>) returns (written: Text)
    requires text == Spelled(done) && (first <==> done == [])
    ensures text + written == Spelled(done + [arc])
  {
    if first {
      var root := if arc < 40 then 0 else if arc < 80 then 1 else 2;
      written := [DOT] + Decimal(root) + [DOT] + Decimal(arc - root * 40);
      SpelledFirst(arc);
      assert done + [arc] == [arc] && text + written == written;
    } else {
      written := [DOT] + Decimal(arc);
      SpelledSnoc(done, arc);
      assert text + written == text + [DOT] + Decimal(arc);
    }
  }
}

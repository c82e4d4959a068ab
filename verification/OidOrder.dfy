/** The numeric order of OIDs and the subtree test, on the canonical text that the client keeps. */
module OidOrder {
  import opened Bytes
  import opened Oids
  import opened OidCodec

  /** Lexicographic order on arcs: -1, 0 or 1. */
  function Lex(a: Arcs, b: Arcs): int {
    if a == [] then (if b == [] then 0 else -1)
    else if b == [] then 1
    else if a[0] != b[0] then (if a[0] < b[0] then -1 else 1)
    else Lex(a[1..], b[1..])
  }

  predicate Below(a: Arcs, b: Arcs) { Lex(a, b) < 0 }

  predicate StrictPrefix(p: Arcs, a: Arcs) { |p| < |a| && a[..|p|] == p }

  lemma {:induction false} LexSwap(a: Arcs, b: Arcs)
    ensures Lex(a, b) == -Lex(b, a)
    decreases |a|
  {
    if a != [] && b != [] && a[0] == b[0] {
      LexSwap(a[1..], b[1..]);
    }
  }

  lemma {:induction false} LexEqual(a: Arcs, b: Arcs)
    ensures Lex(a, b) == 0 <==> a == b
    decreases |a|
  {
    if a != [] && b != [] && a[0] == b[0] {
      LexEqual(a[1..], b[1..]);
      assert a == [a[0]] + a[1..] && b == [b[0]] + b[1..];
    }
  }

  lemma {:induction false} BelowTransitive(a: Arcs, b: Arcs, c: Arcs)
    requires Below(a, b) && Below(b, c)
    ensures Below(a, c)
    decreases |a|
  {
    if a != [] && b != [] && c != [] && a[0] == b[0] == c[0] {
      BelowTransitive(a[1..], b[1..], c[1..]);
    }
  }

  lemma {:induction false} PrefixIsBelow(p: Arcs, a: Arcs)
    requires StrictPrefix(p, a)
    ensures Below(p, a)
    decreases |p|
  {
    if p != [] {
      assert a[1..][..|p| - 1] == p[1..];
      PrefixIsBelow(p[1..], a[1..]);
    }
  }

  /** A subtree is contiguous: nothing outside it lies between its root and one of its members. */
  lemma {:induction false} SubtreeContiguous(root: Arcs, x: Arcs, y: Arcs)
    requires Below(root, x) && Below(x, y) && StrictPrefix(root, y)
    ensures StrictPrefix(root, x)
    decreases |root|
  {
    if root != [] {
      assert y[0] == root[0] by { assert y[..|root|][0] == y[0]; }
      assert y[1..][..|root| - 1] == root[1..];
      assert x[0] == root[0];
      SubtreeContiguous(root[1..], x[1..], y[1..]);
      assert x[..|root|] == [x[0]] + x[1..][..|root| - 1];
      assert root == [root[0]] + root[1..];
    }
  }

  // ----- the same facts about text -----

  function Compare(a: Text, b: Text): int { Lex(ArcsOf(a), ArcsOf(b)) }

  /** The strncmp test of the walk: the root's text, then a dot. */
  predicate Under(root: Text, name: Text) {
    |root| < |name| && name[..|root|] == root && name[|root|] == DOT
  }

  /** Canonical texts are equal exactly when their arcs are: strcmp decides OID equality. */
  lemma {:induction false} TextIdentity(a: Text, b: Text)
    requires Canonical(a) && Canonical(b)
    ensures a == b <==> ArcsOf(a) == ArcsOf(b)
    ensures Compare(a, b) == 0 <==> a == b
  {
    LexEqual(ArcsOf(a), ArcsOf(b));
  }

  lemma {:induction false} DecimalsPrefix(x: nat, y: nat, s: Text, u: Text)
    requires Decimal(x) + s == Decimal(y) + u
    requires s != [] ==> s[0] == DOT
    requires u != [] ==> u[0] == DOT
    ensures x == y && s == u
  {
    var t, d, e := Decimal(x) + s, Decimal(x), Decimal(y);
    DecimalDigits(x);
    DecimalDigits(y);
    SpanAt(t, |d|);
    SpanAt(t, |e|);
    assert d == t[..|d|] && e == t[..|e|] && s == t[|d|..] && u == t[|e|..];
    NumeralOfDecimal(x);
    NumeralOfDecimal(y);
  }

  /** Peeling equal first arcs off both sides does not change either test. */
  lemma {:induction false} PeelPrefix(x: nat, p: Arcs, a: Arcs)
    ensures StrictPrefix([x] + p, [x] + a) <==> StrictPrefix(p, a)
    ensures Under(Print([x] + p), Print([x] + a)) <==> Under(Print(p), Print(a))
  {
    assert |p| <= |a| ==> ([x] + a)[..|p| + 1] == [x] + a[..|p|];
    var d, tp, ta := [DOT] + Decimal(x), Print(p), Print(a);
    assert ([x] + p)[1..] == p && ([x] + a)[1..] == a;
    assert Print([x] + p) == d + tp && Print([x] + a) == d + ta;
    if |tp| < |ta| {
      assert (d + ta)[..|d + tp|] == d + ta[..|tp|];
      assert (d + ta)[..|d + tp|] == d + tp ==> ta[..|tp|] == tp by {
        assert (d + ta[..|tp|])[|d|..] == ta[..|tp|] && (d + tp)[|d|..] == tp;
      }
      assert (d + ta)[|d + tp|] == ta[|tp|];
    }
  }

  lemma {:induction false} UnderSplit(p: Text, t: Text) returns (more: Text)
    requires Under(p, t)
    ensures t == p + more && more != [] && more[0] == DOT
  {
    more := t[|p|..];
  }

  lemma {:induction false} Uncons(x: byte, s: Text, u: Text, v: Text, w: Text, more: Text)
    requires [x] + s + u == [x] + v + w + more
    ensures s + u == v + (w + more)
  {
    assert s + u == ([x] + s + u)[1..];
    assert v + (w + more) == ([x] + v + w + more)[1..];
  }

  lemma {:induction false} UnderSameFirst(p: Arcs, a: Arcs)
    requires p != [] && a != [] && Under(Print(p), Print(a))
    ensures p[0] == a[0]
  {
    var more := UnderSplit(Print(p), Print(a));
    var rp, ra := Print(p[1..]), Print(a[1..]);
    Uncons(DOT, Decimal(a[0]), ra, Decimal(p[0]), rp, more);
    assert rp != [] ==> (rp + more)[0] == rp[0];
    DecimalsPrefix(p[0], a[0], rp + more, ra);
  }

  /** A canonical text extends another one at a dot exactly when its arcs extend the other's arcs. */
  lemma {:induction false} PrintPrefix(p: Arcs, a: Arcs)
    ensures StrictPrefix(p, a) <==> Under(Print(p), Print(a))
    decreases |p|
  {
    if p != [] && a != [] {
      if p[0] == a[0] {
        PrintPrefix(p[1..], a[1..]);
        PeelPrefix(p[0], p[1..], a[1..]);
        assert p == [p[0]] + p[1..] && a == [a[0]] + a[1..];
      } else {
        if Under(Print(p), Print(a)) {
          UnderSameFirst(p, a);
        }
        assert |p| < |a| ==> a[..|p|][0] == a[0];
      }
    }
  }

  lemma {:induction false} UnderIsPrefix(root: Text, name: Text)
    requires Canonical(root) && Canonical(name)
    ensures Under(root, name) <==> StrictPrefix(ArcsOf(root), ArcsOf(name))
  {
    PrintPrefix(ArcsOf(root), ArcsOf(name));
  }

  lemma {:induction false} LexAt(a: Arcs, b: Arcs, k: nat)
    requires k <= |a| && k <= |b| && a[..k] == b[..k]
    ensures Lex(a, b) == Lex(a[k..], b[k..])
    decreases k
  {
    if k > 0 {
      assert a[0] == b[0] by { assert a[..k][0] == b[..k][0]; }
      assert a[1..][..k - 1] == a[..k][1..] && b[1..][..k - 1] == b[..k][1..];
      LexAt(a[1..], b[1..], k - 1);
      assert a[1..][k - 1..] == a[k..] && b[1..][k - 1..] == b[k..];
    }
  }

  lemma {:induction false} FirstNumber(t: Text, start: nat, arcs: Arcs)
    requires start < |t| && arcs != [] && t[start..] == Print(arcs)
    ensures var end := start + 1 + |Decimal(arcs[0])|;
            && end <= |t| && t[start] == DOT && t[start + 1..end] == Decimal(arcs[0])
            && t[end..] == Print(arcs[1..])
            && (end < |t| ==> !IsDigit(t[end]))
            && forall i :: start < i < end ==> IsDigit(t[i])
  {
    var d, rest := Decimal(arcs[0]), Print(arcs[1..]);
    var end := start + 1 + |d|;
    assert t[start..] == [DOT] + d + rest;
    assert t[start] == t[start..][0];
    assert ([DOT] + d + rest)[1..|d| + 1] == d;
    assert t[start + 1..end] == t[start..][1..|d| + 1];
    assert ([DOT] + d + rest)[|d| + 1..] == rest;
    assert t[end..] == t[start..][|d| + 1..];
    assert end < |t| ==> t[end] == t[end..][0];
    DecimalDigits(arcs[0]);
    assert forall i :: start < i < end ==> t[i] == t[start + 1..end][i - start - 1];
  }

  lemma {:induction false} DigitIs(b: byte)
    requires IsDigit(b)
    ensures ZERO <= b && DigitValue(b) == b - ZERO
  {}

  lemma {:induction false} NumeralEmpty(d: Text)
    requires d == []
    ensures Numeral(d) == 0
  {}

  /** The digit loop of compareOID on one side. */
  method ReadNumber(t: Text, start: nat, ghost arcs: Arcs) returns (x: nat, next: nat)
    requires start < |t| && arcs != [] && t[start..] == Print(arcs)
    ensures x == arcs[0]
    ensures start < next <= |t| && t[next..] == Print(arcs[1..])
  {
    hide Print, Decimal, Numeral, IsDigit;
    FirstNumber(t, start, arcs);
    ghost var end := start + 1 + |Decimal(arcs[0])|;
    x := 0;
    next := start + 1;
    NumeralEmpty(t[start + 1..next]);
    while next < |t| && IsDigit(t[next])
      invariant start + 1 <= next <= end
      invariant x == Numeral(t[start + 1..next])
    {
      NumeralStep(t, start + 1, next);
      DigitIs(t[next]);
      x := x * 10 + (t[next] - ZERO);
      next := next + 1;
    }
    NumeralOfDecimal(arcs[0]);
  }

  lemma {:induction false} PrintEmpty(arcs: Arcs)
    ensures Print(arcs) == [] <==> arcs == []
  {}

  lemma {:induction false} LexEnds(a: Arcs, b: Arcs)
    ensures a == [] && b == [] ==> Lex(a, b) == 0
    ensures a == [] && b != [] ==> Lex(a, b) == -1
    ensures a != [] && b == [] ==> Lex(a, b) == 1
    ensures a != [] && b != [] && a[0] != b[0] ==> Lex(a, b) == if a[0] < b[0] then -1 else 1
  {}

  /** Bookkeeping of compareOID: the first k arcs are equal and both texts stand at the rest. */
  ghost predicate Agreed(a: Text, b: Text, p: Arcs, q: Arcs, i: nat, j: nat, k: nat) {
    && i <= |a| && j <= |b| && k <= |p| && k <= |q|
    && p[..k] == q[..k]
    && a[i..] == Print(p[k..]) && b[j..] == Print(q[k..])
  }

  lemma {:induction false} AgreedStart(a: Text, b: Text, p: Arcs, q: Arcs)
    requires Print(p) == a && Print(q) == b
    ensures Agreed(a, b, p, q, 0, 0, 0)
  {
    assert a[0..] == a && b[0..] == b && p[0..] == p && q[0..] == q && p[..0] == q[..0];
  }

  lemma {:induction false} AgreedAhead(a: Text, b: Text, p: Arcs, q: Arcs, i: nat, j: nat, k: nat)
    requires Agreed(a, b, p, q, i, j, k)
    ensures i == |a| <==> k == |p|
    ensures j == |b| <==> k == |q|
    ensures i == |a| || j == |b| ==>
              Lex(p, q) == if i < |a| then 1 else if j < |b| then -1 else 0
    ensures i < |a| && j < |b| && p[k] != q[k] ==> Lex(p, q) == if p[k] < q[k] then -1 else 1
  {
    hide Print;
    PrintEmpty(p[k..]);
    PrintEmpty(q[k..]);
    LexAt(p, q, k);
    LexEnds(p[k..], q[k..]);
  }

  lemma {:induction false} AgreedStep(a: Text, b: Text, p: Arcs, q: Arcs, i: nat, j: nat, k: nat, i': nat, j': nat)
    requires Agreed(a, b, p, q, i, j, k)
    requires k < |p| && k < |q| && p[k] == q[k]
    requires i' <= |a| && j' <= |b| && a[i'..] == Print(p[k..][1..]) && b[j'..] == Print(q[k..][1..])
    ensures Agreed(a, b, p, q, i', j', k + 1)
  {
    hide Print;
    assert p[k..][1..] == p[k + 1..] && q[k..][1..] == q[k + 1..];
    assert p[..k + 1] == p[..k] + [p[k]] && q[..k + 1] == q[..k] + [q[k]];
  }

  /** The loop of compareOID. Both texts must be canonical, as everything the client stores is. */
  method CompareOID(a: Text, b: Text) returns (r: int)
    requires Canonical(a) && Canonical(b)
    ensures r == Compare(a, b)
  {
    ghost var p, q := ArcsOf(a), ArcsOf(b);
    AgreedStart(a, b, p, q);
    hide Parse, Print, Lex, ArcsOf, Canonical;
    ghost var k := 0;
    var i, j := 0, 0;
    while i < |a| && j < |b|
      invariant Agreed(a, b, p, q, i, j, k)
    {
      AgreedAhead(a, b, p, q, i, j, k);
      var x, i' := ReadNumber(a, i, p[k..]);
      var y, j' := ReadNumber(b, j, q[k..]);
      if x != y {
        return if x < y then -1 else 1;
      }
      AgreedStep(a, b, p, q, i, j, k, i', j');
      i, j, k := i', j', k + 1;
    }
    AgreedAhead(a, b, p, q, i, j, k);
    return if i < |a| then 1 else if j < |b| then -1 else 0;
  }
}

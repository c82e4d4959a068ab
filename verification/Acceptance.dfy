/** Exactly what the configuration calls accept, and what a decoded value is copied to. */
module Acceptance {
  import opened Bytes
  import opened Oids
  import opened Trees
  import opened Values
  import opened Operations
  import opened Framing

  // ----- values to set -----

  /** The text spells these arcs and leaves room for its terminator. */
  ghost predicate SpellsArcs(t: Text, arcs: Arcs, lim: Limits) {
    |t| < lim.oidText && LegalArcs(arcs) && exists ds :: Numerals(ds, arcs) && t == Joined(ds)
  }

  /** Values that an operation of the given version may set. */
  ghost predicate Settable(v: Value, version: nat, lim: Limits) {
    || ((v.tag == 0x02 || 0x41 <= v.tag <= 0x43) && v.number <= 0xFFFF_FFFF)
    || (v.tag == 0x46 && version != 0)
    || ((v.tag == 0x04 || v.tag == 0x44) && |v.bytes| <= lim.value)
    || (v.tag == 0x06 && |v.bytes| <= lim.value && exists arcs: Arcs :: SpellsArcs(v.bytes, arcs, lim))
    || (v.tag == 0x40 && |v.bytes| == 4)
  }

  lemma {:induction false} JoinedHasNoZero(ds: seq<Text>, arcs: Arcs)
    requires Numerals(ds, arcs)
    ensures 0 !in Joined(ds)
  {
    if ds != [] {
      JoinedHasNoZero(ds[1..], arcs[1..]);
      assert forall j :: 0 <= j < |ds[0]| ==> ds[0][j] != 0;
    }
  }

  lemma {:induction false} TextSpells(t: Text, lim: Limits)
    ensures EncodeText(t, lim).Some? <==> exists arcs: Arcs :: SpellsArcs(t, arcs, lim)
    ensures forall arcs: Arcs | SpellsArcs(t, arcs, lim) ::
              EncodeText(t, lim) == Some(Subidentifiers(Merge(arcs))) && 0 !in t && ArcsOf(t) == arcs
  {
    if EncodeText(t, lim).Some? {
      TextExact(t, EncodeText(t, lim).value, lim);
      var ds, arcs: Arcs :| Numerals(ds, arcs) && LegalArcs(arcs) && t == Joined(ds);
      assert SpellsArcs(t, arcs, lim);
    }
    hide EncodeText, Parse, Numerals, LegalArcs, Joined, Subidentifiers;
    forall arcs: Arcs | SpellsArcs(t, arcs, lim)
      ensures EncodeText(t, lim) == Some(Subidentifiers(Merge(arcs))) && 0 !in t && ArcsOf(t) == arcs
    {
      var ds :| Numerals(ds, arcs) && t == Joined(ds);
      JoinedHasNoZero(ds, arcs);
      JoinedParses(ds, arcs);
      TextExact(t, Subidentifiers(Merge(arcs)), lim);
    }
  }

  /** The value check, both ways, with the reason of each refusal: only SNMPv1 refuses a Counter64. */
  lemma {:induction false} ValueExact(v: Value, version: nat, lim: Limits)
    ensures CheckValue(v, version, lim) ==
            if Settable(v, version, lim) then Success
            else if v.tag == 0x02 || 0x40 <= v.tag <= 0x43 then InvalidConfiguration
            else if v.tag == 0x04 || v.tag == 0x44 then CapacityExceeded
            else if v.tag == 0x06 then InvalidOID
            else Unsupported
  {
    TextSpells(v.bytes, lim);
    hide EncodeText, SpellsArcs;
    if EncodeText(v.bytes, lim).Some? {
      assert |v.bytes| < lim.oidText by { EncodedFits(v.bytes, lim); }
    }
  }

  lemma {:induction false} EncodedFits(t: Text, lim: Limits)
    requires EncodeText(t, lim).Some?
    ensures |t| < lim.oidText
  {}

  // ----- names -----

  lemma {:induction false} KeptSpelling(t: Text, arcs: Arcs, lim: Limits)
    requires SpellsArcs(t, arcs, lim)
    ensures CanonicalForm(t, lim) == Some(Print(arcs))
  {
    TextSpells(t, lim);
    TextRoundTrip(t, lim);
  }

  /** The name that the library keeps of a text, if it spells one. */
  ghost predicate Keeps(oid: Text, name: Text, lim: Limits) {
    exists arcs: Arcs :: SpellsArcs(oid, arcs, lim) && name == Print(arcs)
  }

  lemma {:induction false} KeepsExact(oid: Text, name: Text, lim: Limits)
    ensures Keeps(oid, name, lim) <==> CanonicalForm(oid, lim) == Some(name)
  {
    hide SpellsArcs, Print;
    TextSpells(oid, lim);
    if Keeps(oid, name, lim) {
      var arcs: Arcs :| SpellsArcs(oid, arcs, lim) && name == Print(arcs);
      KeptSpelling(oid, arcs, lim);
    }
    if CanonicalForm(oid, lim) == Some(name) {
      var arcs: Arcs :| SpellsArcs(oid, arcs, lim);
      KeptSpelling(oid, arcs, lim);
    }
  }

  /** The operation takes the name, and the value if there is one. */
  ghost predicate Addable(op: Op, oid: Text, name: Text, value: Option<Value>, lim: Limits) {
    && op.status != Status.Pending && |op.cells| != op.capacity
    && Keeps(oid, name, lim) && (forall i :: 0 <= i < |op.cells| ==> op.cells[i].oid != name)
    && (value.Some? ==> Settable(value.value, op.dev.version, lim))
  }

  /** A name is added exactly when these conditions hold, and then as one more cell that has not started. */
  lemma {:induction false} AddExact(op: Op, oid: Text, expected: byte, value: Option<Value>, lim: Limits)
    ensures Add(op, oid, expected, value, lim).0 == Success <==> exists name :: Addable(op, oid, name, value, lim)
    ensures forall name | Addable(op, oid, name, value, lim) ::
              Add(op, oid, expected, value, lim).1 ==
              op.(settled := false, cells := op.cells + [
                    Cell(name, if value.Some? then value.value else Value(0x05, 0, []), NotStarted, expected)])
  {
    hide EncodeText, DecodeText, CheckValue, Keeps, Settable;
    forall name | true
      ensures Keeps(oid, name, lim) <==> CanonicalForm(oid, lim) == Some(name)
    {
      KeepsExact(oid, name, lim);
    }
    if value.Some? {
      ValueExact(value.value, op.dev.version, lim);
    }
    if Add(op, oid, expected, value, lim).0 == Success {
      assert Addable(op, oid, CanonicalForm(oid, lim).value, value, lim);
    }
  }

  /** The reason of a refusal: the first condition that fails. */
  lemma {:induction false} AddRefused(op: Op, oid: Text, expected: byte, value: Option<Value>, lim: Limits)
    ensures var s := Add(op, oid, expected, value, lim).0;
            && (op.status == Status.Pending ==> s == Busy)
            && (op.status != Status.Pending && |op.cells| == op.capacity ==> s == CapacityExceeded)
            && (op.status != Status.Pending && |op.cells| != op.capacity ==>
                  && (s == InvalidOID <==>
                      || (forall name :: !Keeps(oid, name, lim))
                      || (exists i :: 0 <= i < |op.cells| && Keeps(oid, op.cells[i].oid, lim))
                      || (value.Some? && value.value.tag == 0x06 && !Settable(value.value, op.dev.version, lim))))
  {
    hide EncodeText, DecodeText, CheckValue, Keeps, Settable;
    forall name | true
      ensures Keeps(oid, name, lim) <==> CanonicalForm(oid, lim) == Some(name)
    {
      KeepsExact(oid, name, lim);
    }
    if value.Some? {
      ValueExact(value.value, op.dev.version, lim);
    }
    if CanonicalForm(oid, lim).Some? {
      assert Keeps(oid, CanonicalForm(oid, lim).value, lim);
    }
  }

  // ----- copied values -----

  /** The owned copy of a decoded value: its tag, number and octets. */
  ghost predicate Copies(t: Ber, v: Value) {
    match t
    case Number(k, bits) => v == Value(k, bits, [])
    case Counter(total) => v == Value(0x46, total, [])
    case Address(octets) => v == Value(0x40, 0, octets)
    case Name(text) => v == Value(0x06, 0, text)
    case Str(bytes) => v == Value(0x04, 0, bytes)
    case Null => v == Value(0x05, 0, [])
    case Raw(k, bytes) => v == Value(k, 0, bytes)
    case Node(_, _) => false
  }

  /** A decoded value that an owned value can hold. */
  ghost predicate Copyable(t: Ber, lim: Limits) {
    match t
    case Str(bytes) => |bytes| <= lim.value
    case Raw(k, bytes) => k == 0x44 && |bytes| <= lim.value
    case Name(text) => text != [] && 0 !in text && |text| <= lim.value && |text| < lim.oidText
    case Address(octets) => |octets| == 4 <= lim.value
    case Node(_, _) => false
    case _ => true
  }

  /** What a value is copied to, and with which status: an exception is a missing value, a long one does not fit. */
  lemma {:induction false} CopyExact(t: Ber, lim: Limits)
    ensures var (s, v) := CopyValue(t, lim);
            && v.tag == t.Tag()
            && (s == Success <==> Copyable(t, lim))
            && (Copyable(t, lim) ==> Copies(t, v))
            && (!Copyable(t, lim) ==> v.number == 0 && v.bytes == [])
            && (s == Missing <==> t.Raw? && 0x80 <= t.kind <= 0x82)
            && (s == Unsupported <==> t.Node? || (t.Raw? && t.kind != 0x44 && !(0x80 <= t.kind <= 0x82)))
            && (s == CapacityExceeded <==>
                || ((t.Str? || (t.Raw? && t.kind == 0x44)) && |t.bytes| > lim.value)
                || (t.Name? && (|t.text| > lim.value || |t.text| >= lim.oidText))
                || (t.Address? && |t.octets| > lim.value))
            && s in {Success, Missing, Unsupported, CapacityExceeded, InvalidConfiguration}
  {}

  /** Of the values that the decoder lets through, only a string that is too long is refused for its contents. */
  lemma {:induction false} DecodedCopies(t: Ber, lim: Limits)
    requires WellFormed(t, lim) && !t.Node? && lim.value >= lim.oidText && lim.value >= 4
    ensures CopyValue(t, lim).0 == Success <==>
            (t.Raw? ==> t.kind == 0x44) && (t.Str? || t.Raw? ==> |t.bytes| <= lim.value)
  {
    CopyExact(t, lim);
    if t.Name? {
      CanonicalHasNoZero(t.text);
    }
  }

  lemma {:induction false} CanonicalHasNoZero(t: Text)
    requires Canonical(t)
    ensures t != [] && 0 !in t
  {
    hide Parse, Print;
    var ds := ParsedIsJoined(t);
    JoinedHasNoZero(ds, Parse(t).value);
    ParseEmpty(t);
  }

  lemma {:induction false} ParseEmpty(t: Text)
    requires Parse(t).Some? && ValidArcs(Parse(t).value)
    ensures t != []
  {}
}

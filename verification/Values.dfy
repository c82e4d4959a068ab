/** Statuses, owned values and result cells of the query API. */
module Values {
  import opened Bytes
  import opened Header
  import opened Trees

  datatype Status =
    | Success | Pending | Busy | InvalidAddress | InvalidConfiguration | InvalidOID | CapacityExceeded
    | NotStarted | TransportError | Timeout | Cancelled | Missing | TypeMismatch | ProtocolError | Partial
    | Unsupported | AllocationFailure

  /** SNMPValue: a wire tag with numeric bits or an owned payload. */
  datatype Value = Value(tag: byte, number: uint64, bytes: Text)

  const EMPTY := Value(NULLTYPE, 0, [])

  /** SNMPResult; an `expected` of NULLTYPE accepts any supported type. */
  datatype Cell = Cell(oid: Text, value: Value, status: Status, expected: byte) {
    predicate Ok() { status == Success }
  }

  /** SNMPValue::setBytes for the tags that copyValue passes. */
  function SetBytes(tag: byte, data: Text, lim: Limits): Status {
    if |data| > lim.value || (tag == OID && |data| >= lim.oidText) then CapacityExceeded
    else if (tag == NETWORK_ADDRESS && |data| != 4) || (tag == OID && (data == [] || 0 in data)) then
      InvalidConfiguration
    else Success
  }

  function CopyBytes(tag: byte, data: Text, lim: Limits): (Status, Value) {
    var s := SetBytes(tag, data, lim);
    (s, Value(tag, 0, if s == Success then data else []))
  }

  /** copyValue: the status and the owned copy of a decoded value. */
  function CopyValue(t: Ber, lim: Limits): (r: (Status, Value))
    ensures r.0 != Pending
    ensures r.1.tag == t.Tag()
  {
    match t
    case Number(k, bits) => (Success, Value(k, bits, []))
    case Counter(total) => (Success, Value(COUNTER64, total, []))
    case Address(octets) => CopyBytes(NETWORK_ADDRESS, octets, lim)
    case Name(text) => CopyBytes(OID, text, lim)
    case Str(bytes) => CopyBytes(STRING, bytes, lim)
    case Null => (Success, EMPTY)
    case Raw(k, bytes) =>
      if k == OPAQUE then CopyBytes(k, bytes, lim)
      else if Exceptional(k) then (Missing, Value(k, 0, []))
      else (Unsupported, Value(k, 0, []))
    case Node(k, _) => (Unsupported, Value(k, 0, []))
  }

  /** The container that appendValue sends for a value, if it sends one at all. */
  function ValueTree(v: Value, lim: Limits): (r: Option<Ber>)
    ensures r.Some? ==> !r.value.Node? && r.value.Tag() == v.tag
  {
    if Numeric(v.tag) then (if v.number <= MAX32 then Some(Number(v.tag, v.number)) else None)
    else if v.tag == COUNTER64 then Some(Counter(v.number))
    else if v.tag == STRING then (if |v.bytes| <= lim.value then Some(Str(v.bytes)) else None)
    else if v.tag == OPAQUE then (if |v.bytes| <= lim.value then Some(Raw(OPAQUE, v.bytes)) else None)
    else if v.tag == OID then (if |v.bytes| <= lim.value && 0 !in v.bytes then Some(Name(v.bytes)) else None)
    else if v.tag == NETWORK_ADDRESS then (if |v.bytes| == 4 then Some(Address(v.bytes)) else None)
    else None
  }

  /**
   * The octets appendValue emits. Strings are copied and wrapped directly, so only the value limit
   * applies to them and not the inline storage of the decoder's containers.
   */
  function ValueOctets(v: Value, lim: Limits): (r: Option<seq<byte>>) {
    var t := ValueTree(v, lim);
    if t.None? then None
    else if v.tag == STRING || v.tag == OPAQUE then Some(Tlv(v.tag, v.bytes))
    else Encode(t.value, lim)
  }

  /** Within the decoder's limits the direct form is the container's own serialisation. */
  lemma {:induction false} ValueOctetsEncode(v: Value, lim: Limits)
    requires ValueTree(v, lim).Some? && WellFormed(ValueTree(v, lim).value, lim)
    ensures ValueOctets(v, lim) == Encode(ValueTree(v, lim).value, lim)
  {}

  /** A value read from the wire is sent back as the very container it was read from. */
  lemma {:induction false} CopyThenSend(t: Ber, lim: Limits)
    requires WellFormed(t, lim) && CopyValue(t, lim).0 == Success && t != Null
    ensures ValueTree(CopyValue(t, lim).1, lim) == Some(t)
  {}
}

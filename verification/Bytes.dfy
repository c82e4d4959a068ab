/** Octets, big-endian numbers and the capacities that the library fixes at compile time. */
module Bytes {

  type byte = b: int | 0 <= b < 256

  /** A C string or a received payload: octets without the terminating zero. */
  type Text = seq<byte>

  datatype Option<+T> = None | Some(value: T)

  /** The capacity macros of SNMPConfig.h, kept symbolic. */
  datatype Capacities = Capacities(
    oidText: nat,   // MAX_OID_LENGTH: bytes of OID text including the terminator
    octets: nat,    // SNMP_OCTETSTRING_MAX_LENGTH: inline storage of a decoded payload
    value: nat,     // SNMP_VALUE_MAX_LENGTH: bytes of one owned value
    packet: nat)    // SNMP_PACKET_LENGTH: bytes of the shared packet buffer

  const DEFAULTS := Capacities(256, 1024, 1024, 512)

  /** Lengths are cached in an unsigned short, so no capacity exceeds 65535. */
  type Limits = c: Capacities |
      0 < c.oidText <= 65535 && 0 < c.octets <= 65535 && 0 < c.value <= 65535 && 0 < c.packet <= 65535
    witness DEFAULTS

  const MAX_CONTENT := 65535
  const MAX32 := 0xFFFF_FFFF
  const TWO32 := 0x1_0000_0000
  const TWO64 := 0x1_0000_0000_0000_0000

  type uint32 = n: int | 0 <= n < TWO32
  type uint64 = n: int | 0 <= n < TWO64

  /** int32_t reinterpretation of 32 stored bits. */
  function Signed32(n: uint32): (r: int)
    ensures -0x8000_0000 <= r < 0x8000_0000
    ensures r % TWO32 == n
  {
    if n < 0x8000_0000 then n else n - TWO32
  }

  /** The number a sequence of octets denotes, most significant octet first. */
  function BigEndian(s: seq<byte>): (r: nat)
  {
    if s == [] then 0 else BigEndian(s[..|s| - 1]) * 256 + s[|s| - 1]
  }

  lemma {:induction false} BigEndianSnoc(s: seq<byte>, b: byte)
    ensures BigEndian(s + [b]) == BigEndian(s) * 256 + b
  {
    assert (s + [b])[..|s|] == s;
  }

  /** Reading more octets never lowers the number; each one at least multiplies it by 256. */
  lemma {:induction false} BigEndianGrows(s: seq<byte>, k: nat)
    requires k <= |s|
    ensures BigEndian(s[..k]) <= BigEndian(s)
    ensures k < |s| ==> BigEndian(s[..k]) * 256 <= BigEndian(s)
    decreases |s|
  {
    if k == |s| {
      assert s[..k] == s;
    } else {
      assert s[..|s| - 1][..k] == s[..k];
      BigEndianGrows(s[..|s| - 1], k);
    }
  }

  lemma {:induction false} SliceOfSlice<T>(s: seq<T>, a: nat, b: nat, c: nat, d: nat)
    requires a <= b <= |s| && c <= d <= b - a
    ensures s[a..b][c..d] == s[a + c..a + d]
  {
    assert |s[a..b][c..d]| == |s[a + c..a + d]|;
    assert forall i :: 0 <= i < d - c ==> s[a..b][c..d][i] == s[a..b][c + i] == s[a + c + i] == s[a + c..a + d][i];
  }

  lemma {:induction false} TailOfSlice<T>(s: seq<T>, a: nat, b: nat, c: nat)
    requires a <= b <= |s| && c <= b - a
    ensures s[a..b][c..] == s[a + c..b]
    ensures s[a..b][..c] == s[a..a + c]
  {}
}

/** Bytes and the `string` encoding of section 5 of RFC 4251 (a uint32 length, then the bytes). */
module Wire {

  newtype byte = x: int | 0 <= x < 256

  const Uint32Limit: nat := 0x1_0000_0000

  /** The four bytes of `n` in network byte order. */
  function Uint32(n: nat): (r: seq<byte>)
    requires n < Uint32Limit
    ensures |r| == 4
  {
    var m1 := n / 0x100;
    var m2 := m1 / 0x100;
    var m3 := m2 / 0x100;
    [m3 as byte, (m2 % 0x100) as byte, (m1 % 0x100) as byte, (n % 0x100) as byte]
  }

  /** An SSH `string`: its length as a uint32, then its bytes. */
  function EncodeString(s: seq<byte>): (r: seq<byte>)
    requires |s| < Uint32Limit
    ensures |r| == 4 + |s| && r[4..] == s
  {
    Uint32(|s|) + s
  }

  /** The number four bytes in network byte order denote. */
  function DecodeUint32(b: seq<byte>): (n: nat)
    requires |b| == 4
    ensures n < Uint32Limit
  {
    ((b[0] as int * 0x100 + b[1] as int) * 0x100 + b[2] as int) * 0x100 + b[3] as int
  }

  lemma DecodeUint32OfUint32(n: nat)
    requires n < Uint32Limit
    ensures DecodeUint32(Uint32(n)) == n
  {
    var m1 := n / 0x100;
    var m2 := m1 / 0x100;
    var m3 := m2 / 0x100;
    assert n == m1 * 0x100 + n % 0x100;
    assert m1 == m2 * 0x100 + m1 % 0x100;
    assert m2 == m3 * 0x100 + m2 % 0x100;
  }

  /** An encoded string, followed by anything, determines both the string and what follows it. */
  lemma EncodeStringInjective(s: seq<byte>, u: seq<byte>, t: seq<byte>, v: seq<byte>)
    requires |s| < Uint32Limit && |t| < Uint32Limit
    requires EncodeString(s) + u == EncodeString(t) + v
    ensures s == t && u == v
  {
    var a, b := EncodeString(s) + u, EncodeString(t) + v;
    assert a[..4] == Uint32(|s|) && b[..4] == Uint32(|t|);
    DecodeUint32OfUint32(|s|);
    DecodeUint32OfUint32(|t|);
    assert s == a[4..4 + |s|] && t == b[4..4 + |t|];
    assert u == a[4 + |s|..] && v == b[4 + |t|..];
  }
}

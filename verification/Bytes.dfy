/** Bytes, packets and little-endian integers shared by both directions of the serial link. */
module Bytes {

  type byte = x: int | 0 <= x < 256

  const SYNC_BYTE: byte := 0x80

  /** `struct pkt`: the length announced by the frame and the whole receive buffer, of which only the
      first `len` bytes belong to the packet. Code that reads past `len` sees older bytes. */
  datatype Packet = Packet(len: nat, data: seq<byte>)

  const PKT_CAPACITY := 2048

  /** The bytes of the frame that produced the packet. */
  function Payload(p: Packet): (r: seq<byte>)
  {
    if p.len <= |p.data| then p.data[..p.len] else p.data
  }

  function Payloads(ps: seq<Packet>): (r: seq<seq<byte>>)
  {
    if ps == [] then [] else [Payload(ps[0])] + Payloads(ps[1..])
  }

  lemma Associates<T>(x: seq<T>, y: seq<T>, z: seq<T>)
    ensures x + (y + z) == x + y + z
  {
  }

  function Flatten<T>(chunks: seq<seq<T>>): (r: seq<T>)
  {
    if chunks == [] then [] else chunks[0] + Flatten(chunks[1..])
  }

  /** memcpy of the low `n` bytes of an integer on a little-endian machine. */
  function LittleEndian(x: nat, n: nat): (r: seq<byte>)
    ensures |r| == n
  {
    if n == 0 then [] else [x % 256] + LittleEndian(x / 256, n - 1)
  }

  /** The inverse memcpy, from bytes into an unsigned integer. */
  function FromLittleEndian(s: seq<byte>): (x: nat)
  {
    if s == [] then 0 else s[0] + 256 * FromLittleEndian(s[1..])
  }

  function Pow256(n: nat): (r: nat)
    ensures r > 0
  {
    if n == 0 then 1 else 256 * Pow256(n - 1)
  }

  /** Storing and reloading a value that fits is the identity. */
  lemma {:induction false} LittleEndianRoundTrip(x: nat, n: nat)
    requires x < Pow256(n)
    ensures FromLittleEndian(LittleEndian(x, n)) == x
  {
    if n > 0 {
      LittleEndianRoundTrip(x / 256, n - 1);
    }
  }

  lemma LowTwoBytes(x: nat)
    ensures x % 65536 == x % 256 + 256 * (x / 256 % 256)
  {
    var q := x / 256;
    var low := x % 256 + 256 * (q % 256);
    assert x == 256 * q + x % 256 && q == 256 * (q / 256) + q % 256;
    assert x == 65536 * (q / 256) + low && 0 <= low < 65536;
  }

  /** Storing two bytes of a wider integer keeps its low 16 bits. */
  lemma LittleEndianTruncates16(x: nat)
    ensures FromLittleEndian(LittleEndian(x, 2)) == x % 65536
  {
    var a, b := x % 256, x / 256 % 256;
    assert LittleEndian(x / 256, 1) == [b] + LittleEndian(x / 256 / 256, 0) == [b];
    assert LittleEndian(x, 2) == [a] + [b];
    assert FromLittleEndian([b]) == b by { assert [b][1..] == []; }
    assert FromLittleEndian([a] + [b]) == a + 256 * b by { assert ([a] + [b])[1..] == [b]; }
    LowTwoBytes(x);
  }

  lemma {:induction false} FromLittleEndianBound(s: seq<byte>)
    ensures FromLittleEndian(s) < Pow256(|s|)
  {
    if s != [] { FromLittleEndianBound(s[1..]); }
  }
}

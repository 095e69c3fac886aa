/** Bytes as the simulated disk stores them, and the in-memory layouts that the kernel
    copies to and from disk with `(char *)` casts: little-endian ints and fixed-width records. */
module Bytes {

  type byte = x: int | 0 <= x < 256

  /** The four bytes of a 32-bit int, least significant first (two's complement). */
  function IntBytes(n: int): (b: seq<byte>)
    ensures |b| == 4
  {
    [n % 256, (n / 256) % 256, (n / 0x1_0000) % 256, (n / 0x100_0000) % 256]
  }

  function BytesNat(b: seq<byte>): (n: nat)
    requires |b| == 4
    ensures n < 0x1_0000_0000
  {
    (b[0] as int) + 256 * (b[1] as int) + 0x1_0000 * (b[2] as int) + 0x100_0000 * (b[3] as int)
  }

  function BytesInt(b: seq<byte>): int
    requires |b| == 4
  {
    var n := BytesNat(b);
    if n < 0x8000_0000 then n else n - 0x1_0000_0000
  }

  ghost predicate IsInt32(n: int)
  {
    -0x8000_0000 <= n < 0x8000_0000
  }

  /** Reading back the bytes of an int gives it modulo 2^32. */
  lemma IntBytesModulo(n: int)
    ensures BytesNat(IntBytes(n)) == n % 0x1_0000_0000
  {
    assert (n / 256) / 256 == n / 0x1_0000;
    assert ((n / 256) / 256) / 256 == n / 0x100_0000;
    assert n / 0x100_0000 == 256 * (n / 0x1_0000_0000) + (n / 0x100_0000) % 256;
  }

  lemma SignedReading(b: seq<byte>, n: int)
    requires |b| == 4 && IsInt32(n) && BytesNat(b) == n % 0x1_0000_0000
    ensures BytesInt(b) == n
  {
  }

  lemma IntRoundTrip(n: int)
    requires IsInt32(n)
    ensures BytesInt(IntBytes(n)) == n
  {
    var b := IntBytes(n);
    IntBytesModulo(n);
    SignedReading(b, n);
  }

  function Flatten(rs: seq<seq<byte>>): seq<byte>
  {
    if rs == [] then [] else rs[0] + Flatten(rs[1..])
  }

  function Chunks(b: seq<byte>, width: nat): (rs: seq<seq<byte>>)
    requires width > 0
    ensures forall i :: 0 <= i < |rs| ==> |rs[i]| == width
    decreases |b|
  {
    if |b| < width then [] else [b[..width]] + Chunks(b[width..], width)
  }

  ghost predicate AllOfWidth(rs: seq<seq<byte>>, width: nat)
  {
    forall i :: 0 <= i < |rs| ==> |rs[i]| == width
  }

  lemma {:induction false} FlattenLength(rs: seq<seq<byte>>, width: nat)
    requires AllOfWidth(rs, width)
    ensures |Flatten(rs)| == |rs| * width
  {
    if rs != [] { FlattenLength(rs[1..], width); }
  }

  /** Cutting a flattened table of equal-width records gives the records back. */
  lemma {:induction false} ChunksFlatten(rs: seq<seq<byte>>, width: nat)
    requires width > 0 && AllOfWidth(rs, width)
    ensures Chunks(Flatten(rs), width) == rs
  {
    if rs != [] {
      var b := Flatten(rs);
      assert b[..width] == rs[0] && b[width..] == Flatten(rs[1..]);
      ChunksFlatten(rs[1..], width);
    }
  }

  lemma {:induction false} ChunksCount(b: seq<byte>, width: nat, n: nat)
    requires width > 0 && |b| == n * width
    ensures |Chunks(b, width)| == n
    decreases n
  {
    if n > 0 {
      assert |b[width..]| == (n - 1) * width;
      ChunksCount(b[width..], width, n - 1);
    }
  }
}

/** Byte strings, Python slices and the fixed-width integers of the struct module. */
module Bytes {
  type byte = x: int | 0 <= x < 256
  type bytes = seq<byte>

  /** SHA-256 is never opened: any function with 32-byte results will do. */
  type Digest32 = h: bytes -> bytes | forall b :: |h(b)| == 32 witness (b: bytes) => Zeros(32)

  function Join(pieces: seq<bytes>): bytes {
    if pieces == [] then [] else pieces[0] + Join(pieces[1..])
  }

  function Zeros(n: nat): (r: bytes)
    ensures |r| == n
  {
    seq(n, _ => 0)
  }

  /** data[i:j] as Python reads it: bounds past the end are cut back. */
  function Slice(data: bytes, i: nat, j: nat): bytes
  {
    var hi := if j < |data| then j else |data|;
    var lo := if i < hi then i else hi;
    data[lo..hi]
  }

  function Pow256(n: nat): (r: nat)
    ensures r > 0
  {
    if n == 0 then 1 else 256 * Pow256(n - 1)
  }

  /** The low `width` bytes of n, least significant byte first. */
  function LE(n: nat, width: nat): (r: bytes)
    ensures |r| == width
    decreases width, n
  {
    if width == 0 then [] else [n % 256] + LE(n / 256, width - 1)
  }

  function FromLE(b: bytes): nat
  {
    if b == [] then 0 else b[0] + 256 * FromLE(b[1..])
  }

  /** The low `width` bytes of n, most significant byte first. */
  function BE(n: nat, width: nat): (r: bytes)
    ensures |r| == width
    decreases width, n
  {
    if width == 0 then [] else BE(n / 256, width - 1) + [n % 256]
  }

  function FromBE(b: bytes): nat
  {
    if b == [] then 0 else 256 * FromBE(b[..|b| - 1]) + b[|b| - 1]
  }

  lemma {:induction false} LittleEndianRoundTrip(n: nat, width: nat)
    requires n < Pow256(width)
    ensures FromLE(LE(n, width)) == n
  {
    if width > 0 {
      LittleEndianRoundTrip(n / 256, width - 1);
      assert LE(n, width)[1..] == LE(n / 256, width - 1);
    }
  }

  lemma {:induction false} BigEndianRoundTrip(n: nat, width: nat)
    requires n < Pow256(width)
    ensures FromBE(BE(n, width)) == n
  {
    if width > 0 {
      BigEndianRoundTrip(n / 256, width - 1);
      assert BE(n, width)[..width - 1] == BE(n / 256, width - 1);
    }
  }

  lemma {:induction false} Pow256Values()
    ensures Pow256(2) == 0x1_0000 && Pow256(4) == 0x1_0000_0000 && Pow256(8) == 0x1_0000_0000_0000_0000
  {
    assert Pow256(2) == 256 * Pow256(1);
    assert Pow256(4) == 256 * 256 * Pow256(2);
    assert Pow256(8) == 256 * 256 * (256 * 256 * Pow256(4)) by {
      assert Pow256(6) == 256 * Pow256(5) && Pow256(5) == 256 * Pow256(4);
      assert Pow256(8) == 256 * Pow256(7) && Pow256(7) == 256 * Pow256(6);
    }
  }

  /** The value read back from any bytes re-encodes to the same bytes. */
  lemma {:induction false} LittleEndianReencode(b: bytes)
    ensures FromLE(b) < Pow256(|b|)
    ensures LE(FromLE(b), |b|) == b
  {
    if b != [] {
      LittleEndianReencode(b[1..]);
      assert b == [b[0]] + b[1..];
    }
  }

  lemma {:induction false} BigEndianReencode(b: bytes)
    ensures FromBE(b) < Pow256(|b|)
    ensures BE(FromBE(b), |b|) == b
  {
    if b != [] {
      BigEndianReencode(b[..|b| - 1]);
      assert b == b[..|b| - 1] + [b[|b| - 1]];
    }
  }
}

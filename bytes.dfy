// Byte-level helpers shared by every wire format in the model: bytes,
// fixed-width unsigned integers, little-endian encoding and decoding, and the
// C truncating casts the firmware relies on.
module Bytes {
  type byte = x: int | 0 <= x < 256

  /** 256^n, the number of values an n-byte field can hold. */
  function Pow256(n: nat): (r: nat)
    ensures r >= 1
  {
    if n == 0 then 1 else 256 * Pow256(n - 1)
  }

  predicate FitsIn(v: int, n: nat) { 0 <= v < Pow256(n) }

  /** `v` as exactly `n` little-endian bytes (least significant byte first). */
  function EncodeLE(v: nat, n: nat): (r: seq<byte>)
    requires v < Pow256(n)
    ensures |r| == n
  {
    if n == 0 then [] else [v % 256] + EncodeLE(v / 256, n - 1)
  }

  /** The unsigned value of a little-endian byte string. */
  function DecodeLE(s: seq<byte>): (r: nat)
    ensures r < Pow256(|s|)
  {
    if |s| == 0 then 0 else s[0] + 256 * DecodeLE(s[1..])
  }

  /** Only all-zero bytes decode to 0. */
  lemma {:induction false} DecodeLEZero(s: seq<byte>)
    requires DecodeLE(s) == 0
    ensures forall i :: 0 <= i < |s| ==> s[i] == 0
  {
    if |s| > 0 {
      DecodeLEZero(s[1..]);
      forall i | 1 <= i < |s|
        ensures s[i] == 0
      {
        assert s[i] == s[1..][i - 1];
      }
    }
  }

  lemma {:induction false} DecodeEncodeLE(v: nat, n: nat)
    requires v < Pow256(n)
    ensures DecodeLE(EncodeLE(v, n)) == v
  {
    if n > 0 {
      DecodeEncodeLE(v / 256, n - 1);
      assert EncodeLE(v, n)[1..] == EncodeLE(v / 256, n - 1);
    }
  }

  lemma {:induction false} EncodeDecodeLE(s: seq<byte>)
    ensures EncodeLE(DecodeLE(s), |s|) == s
  {
    if |s| > 0 {
      var d := DecodeLE(s[1..]);
      EncodeDecodeLE(s[1..]);
      assert DecodeLE(s) == s[0] + 256 * d;
      assert DecodeLE(s) % 256 == s[0] && DecodeLE(s) / 256 == d;
      assert s == [s[0]] + s[1..];
    }
  }

  /** Decoding a prefix of a longer string reads only that prefix. */
  lemma DecodeLEPrefix(s: seq<byte>, t: seq<byte>, n: nat)
    requires n <= |s| && n <= |t| && s[..n] == t[..n]
    ensures DecodeLE(s[..n]) == DecodeLE(t[..n])
  {
  }

  /** A little-endian field of width `n` read at offset `i`. */
  function ReadLE(s: seq<byte>, i: nat, n: nat): (r: nat)
    requires i + n <= |s|
    ensures r < Pow256(n)
  {
    DecodeLE(s[i..i + n])
  }

  const U16_LIMIT: nat := 0x1_0000
  const U32_LIMIT: nat := 0x1_0000_0000

  /** C's conversion of an int to uint8_t/uint16_t/uint32_t: wrap-around modulo 2^(8n). */
  function Trunc(v: int, n: nat): (r: nat)
    ensures r < Pow256(n)
    ensures FitsIn(v, n) ==> r == v
  {
    var p := Pow256(n);
    if 0 <= v < p then v else v % p
  }

  /** C's `v++` on an n-byte unsigned field: one more, or back to 0 from the largest value. */
  function Inc(v: nat, n: nat): (r: nat)
    requires v < Pow256(n)
    ensures r < Pow256(n)
    ensures v + 1 < Pow256(n) ==> r == v + 1
    ensures v + 1 == Pow256(n) ==> r == 0
  {
    if v + 1 < Pow256(n) then v + 1 else 0
  }

  lemma Pow256Values()
    ensures Pow256(1) == 256 && Pow256(2) == U16_LIMIT && Pow256(4) == U32_LIMIT
    ensures Pow256(8) == 0x1_0000_0000_0000_0000
  {
  }

  /** Two's complement: an n-byte signed value drawn as an unsigned one and back. */
  function ToUnsigned(v: int, n: nat): (r: nat)
    requires n > 0 && 0 <= v + Pow256(n) / 2 && v < Pow256(n) / 2
    ensures r < Pow256(n)
    ensures v >= 0 ==> r == v
  {
    if v >= 0 then v else v + Pow256(n)
  }

  function ToSigned(u: nat, n: nat): (r: int)
    requires n > 0 && u < Pow256(n)
    ensures 0 <= r + Pow256(n) / 2 && r < Pow256(n) / 2
  {
    var p := Pow256(n);
    var h := p / 2;
    assert 0 <= h <= p;
    if u < h then u else u - p
  }

  lemma SignedRoundTrip(v: int, n: nat)
    requires n > 0 && 0 <= v + Pow256(n) / 2 && v < Pow256(n) / 2
    ensures ToSigned(ToUnsigned(v, n), n) == v
  {
  }

  lemma UnsignedRoundTrip(u: nat, n: nat)
    requires n > 0 && u < Pow256(n)
    ensures ToUnsigned(ToSigned(u, n), n) == u
  {
  }

  /** Cutting a negative value of n bytes to n bytes gives its two's complement. */
  lemma TruncNegative(v: int, p: nat)
    requires p > 0 && 0 <= v + p < p
    ensures v % p == v + p
  {
    assert v == p * (-1) + (v + p);
  }

  /** The n-byte window of `s` at `off` replaced by `w`; every other byte is kept. */
  function Splice(s: seq<byte>, off: nat, w: seq<byte>): (r: seq<byte>)
    requires off + |w| <= |s|
    ensures |r| == |s|
    ensures r[off..off + |w|] == w
    ensures forall k :: 0 <= k < |s| && !(off <= k < off + |w|) ==> r[k] == s[k]
  {
    s[..off] + w + s[off + |w|..]
  }
}

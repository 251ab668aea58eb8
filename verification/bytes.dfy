/**
 * Byte strings as the codec sees them: little-endian unsigned integers, as
 * produced by Python's `struct.pack("<H")` / `struct.pack("<I")`, and the
 * clamping slice semantics of Python's `bytes[lo:hi]`.
 */
module Bytes {

  /** One octet. */
  type byte = b: int | 0 <= b < 0x100

  type Bytes = seq<byte>

  /** Number of distinct values an `n`-byte unsigned field can hold. */
  function Pow256(n: nat): (p: nat)
    ensures p >= 1
  {
    if n == 0 then 1 else 0x100 * Pow256(n - 1)
  }

  /** The ranges of the 16- and 32-bit fields `struct.pack` writes. */
  lemma Pow256Widths()
    ensures Pow256(2) == 0x1_0000 && Pow256(4) == 0x1_0000_0000
  {
  }

  /** The unsigned integer a little-endian byte string denotes: `s[0]` is least significant. */
  function DecodeLe(s: Bytes): (v: nat)
    ensures v < Pow256(|s|)
  {
    if |s| == 0 then 0 else s[0] + 0x100 * DecodeLe(s[1..])
  }

  /** A 16-bit field spelled out byte by byte. */
  lemma DecodeLe16(s: Bytes)
    requires |s| == 2
    ensures DecodeLe(s) == s[0] as int + 0x100 * s[1] as int
  {
  }

  /**
   * The `n`-byte little-endian encoding of `v`; defined only when `v` fits,
   * which is exactly when `struct.pack` accepts it.
   */
  function EncodeLe(v: nat, n: nat): (s: Bytes)
    requires v < Pow256(n)
    ensures |s| == n
    ensures DecodeLe(s) == v
  {
    if n == 0 then [] else [v % 0x100] + EncodeLe(v / 0x100, n - 1)
  }

  /** `struct.pack("<H", v)`. */
  function Le16(v: nat): (s: Bytes)
    requires v < 0x1_0000
    ensures |s| == 2 && DecodeLe(s) == v
  {
    EncodeLe(v, 2)
  }

  /** `struct.pack("<I", v)`. */
  function Le32(v: nat): (s: Bytes)
    requires v < 0x1_0000_0000
    ensures |s| == 4 && DecodeLe(s) == v
  {
    EncodeLe(v, 4)
  }

  /** Every byte string is the encoding of the value it denotes: encoding is onto. */
  lemma {:induction false} EncodeDecode(s: Bytes)
    ensures EncodeLe(DecodeLe(s), |s|) == s
  {
    if |s| > 0 {
      var rest := DecodeLe(s[1..]);
      var v := DecodeLe(s);
      assert v == s[0] + 0x100 * rest;
      assert v % 0x100 == s[0] && v / 0x100 == rest;
      EncodeDecode(s[1..]);
      assert s == [s[0]] + s[1..];
    }
  }

  /** Python's `s[k:]`: the bytes from offset `k` on, empty when `k` is past the end. */
  function Drop(s: Bytes, k: nat): (r: Bytes)
    ensures |r| == if k <= |s| then |s| - k else 0
    ensures forall i :: 0 <= i < |r| ==> r[i] == s[k + i]
  {
    if k <= |s| then s[k..] else []
  }

  /** Python's `s[lo:hi]` for non-negative bounds: both ends are clamped to the length. */
  function Slice(s: Bytes, lo: nat, hi: nat): (r: Bytes)
    ensures |r| == if lo <= hi && lo <= |s| then (if hi <= |s| then hi else |s|) - lo else 0
    ensures forall i :: 0 <= i < |r| ==> r[i] == s[lo + i]
  {
    var end := if hi <= |s| then hi else |s|;
    if lo <= end then s[lo..end] else []
  }
}

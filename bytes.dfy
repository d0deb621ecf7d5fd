/**
 * The byte-level operations the JPEG decoder relies on: the unsigned 16- and
 * 32-bit reads in either byte order that it imports from its `utils` module,
 * comparison of a byte range with a constant (its `toHexString(...) === '...'`
 * tests, `toHexString` also coming from `utils`), and the built-in typed-array
 * method `Uint8Array.slice` with its clamping of out-of-range bounds.
 */
module Bytes {
  import opened Wrappers

  type Byte = b: int | 0 <= b < 256

  /** 256 to the power n: one more than the largest n-byte unsigned value. */
  function Pow256(n: nat): (p: nat)
    ensures p >= 1
  {
    if n == 0 then 1 else 256 * Pow256(n - 1)
  }

  /** The unsigned value of `s`, most significant byte first. */
  function BigEndian(s: seq<Byte>): (v: nat)
    ensures v < Pow256(|s|)
  {
    if s == [] then 0
    else
      var prefix := BigEndian(s[..|s| - 1]);
      assert prefix * 256 + s[|s| - 1] < Pow256(|s| - 1) * 256 by {
        assert prefix + 1 <= Pow256(|s| - 1);
        assert (prefix + 1) * 256 <= Pow256(|s| - 1) * 256;
      }
      prefix * 256 + s[|s| - 1]
  }

  /** The unsigned value of `s`, least significant byte first. */
  function LittleEndian(s: seq<Byte>): (v: nat)
    ensures v < Pow256(|s|)
  {
    if s == [] then 0
    else
      var rest := LittleEndian(s[1..]);
      assert s[0] + 256 * rest < Pow256(|s|) by {
        assert rest + 1 <= Pow256(|s| - 1);
        assert 256 * (rest + 1) <= 256 * Pow256(|s| - 1);
      }
      s[0] + 256 * rest
  }

  function Reverse(s: seq<Byte>): (r: seq<Byte>)
    ensures |r| == |s|
    ensures forall i :: 0 <= i < |s| ==> r[i] == s[|s| - 1 - i]
  {
    if s == [] then [] else Reverse(s[1..]) + [s[0]]
  }

  /** Little-endian order is big-endian order read backwards. */
  lemma {:induction false} LittleEndianIsReversedBigEndian(s: seq<Byte>)
    ensures LittleEndian(s) == BigEndian(Reverse(s))
  {
    if s != [] {
      LittleEndianIsReversedBigEndian(s[1..]);
      var r := Reverse(s);
      assert r[..|r| - 1] == Reverse(s[1..]);
    }
  }

  /** The n bytes of v, most significant first: the inverse of BigEndian. */
  function EncodeBigEndian(v: nat, n: nat): (s: seq<Byte>)
    requires v < Pow256(n)
    ensures |s| == n
  {
    if n == 0 then [] else EncodeBigEndian(v / 256, n - 1) + [v % 256]
  }

  /** Reading back the big-endian encoding of a value gives the value. */
  lemma {:induction false} BigEndianRoundTrip(v: nat, n: nat)
    requires v < Pow256(n)
    ensures BigEndian(EncodeBigEndian(v, n)) == v
  {
    if n > 0 {
      var s := EncodeBigEndian(v, n);
      BigEndianRoundTrip(v / 256, n - 1);
      assert s[..|s| - 1] == EncodeBigEndian(v / 256, n - 1);
    }
  }

  /**
   * `readUInt(input, bits, offset, isBigEndian)`: the 16- or 32-bit unsigned value
   * of the bits/8 bytes at `offset`, most or least significant byte first; None
   * when the bytes do not all lie in `w` (where JavaScript would read `undefined`
   * and compute NaN). The `utils` helpers `readUInt16BE`, `readUInt16LE`,
   * `readUInt32BE` and `readUInt32LE` that it dispatches to are not part of this
   * model; these are their assumed definitions, written out byte by byte.
   * `ReadUIntComposes` ties them to the general compositions above.
   */
  function ReadUInt(w: seq<Byte>, bits: nat, offset: nat, bigEndian: bool): (r: Option<nat>)
    requires bits == 16 || bits == 32
    ensures r.Some? <==> offset + bits / 8 <= |w|
    ensures r.Some? ==> r.value < if bits == 16 then 0x1_0000 else 0x1_0000_0000
  {
    if offset + bits / 8 > |w| then None
    else if bits == 16 then
      if bigEndian then Some(w[offset] as int * 0x100 + w[offset + 1])
      else Some(w[offset] as int + w[offset + 1] as int * 0x100)
    else
      if bigEndian
      then Some(w[offset] as int * 0x100_0000 + w[offset + 1] as int * 0x1_0000 + w[offset + 2] as int * 0x100 + w[offset + 3])
      else Some(w[offset] as int + w[offset + 1] as int * 0x100 + w[offset + 2] as int * 0x1_0000 + w[offset + 3] as int * 0x100_0000)
  }

  /**
   * A read is the big-endian or little-endian value of exactly the bits/8 bytes
   * it covers.
   */
  lemma ReadUIntComposes(w: seq<Byte>, bits: nat, offset: nat, bigEndian: bool)
    requires bits == 16 || bits == 32
    requires offset + bits / 8 <= |w|
    ensures bigEndian ==> ReadUInt(w, bits, offset, bigEndian) == Some(BigEndian(w[offset..offset + bits / 8]))
    ensures !bigEndian ==> ReadUInt(w, bits, offset, bigEndian) == Some(LittleEndian(w[offset..offset + bits / 8]))
  {
    var bytes := w[offset..offset + bits / 8];
    BigEndianUnfolds(bytes);
    LittleEndianUnfolds(bytes);
  }

  /** A big-endian read of the encoding of any value that fits gives the value back. */
  lemma ReadUIntRoundTrip(v: nat, bits: nat)
    requires bits == 16 || bits == 32
    requires v < Pow256(bits / 8)
    ensures ReadUInt(EncodeBigEndian(v, bits / 8), bits, 0, true) == Some(v)
  {
    var s := EncodeBigEndian(v, bits / 8);
    assert s[0..bits / 8] == s;
    BigEndianRoundTrip(v, bits / 8);
    ReadUIntComposes(s, bits, 0, true);
  }

  /** `readUInt16BE(input, offset)`. */
  function ReadUInt16BE(w: seq<Byte>, offset: nat): (r: Option<nat>)
    ensures r.Some? <==> offset + 2 <= |w|
    ensures r.Some? ==> r.value == w[offset] as int * 256 + w[offset + 1]
  {
    ReadUInt(w, 16, offset, true)
  }

  lemma BigEndianUnfolds(s: seq<Byte>)
    requires |s| == 2 || |s| == 4
    ensures |s| == 2 ==> BigEndian(s) == s[0] as int * 256 + s[1]
    ensures |s| == 4 ==> BigEndian(s) == s[0] as int * 16777216 + s[1] as int * 65536 + s[2] as int * 256 + s[3]
  {
    assert s[..1][..0] == [];
    if |s| == 4 {
      assert s[..3][..2][..1] == s[..1];
      assert s[..3][..2] == s[..2];
      assert s[..2][..1] == s[..1];
    }
  }

  lemma LittleEndianUnfolds(s: seq<Byte>)
    requires |s| == 2 || |s| == 4
    ensures |s| == 2 ==> LittleEndian(s) == s[0] + s[1] as int * 256
    ensures |s| == 4 ==> LittleEndian(s) == s[0] + s[1] as int * 256 + s[2] as int * 65536 + s[3] as int * 16777216
  {
    assert s[1..][1..] == s[2..];
    if |s| == 4 {
      assert s[2..][1..] == s[3..];
      assert s[3..][1..] == [];
    }
  }

  function Min(a: nat, b: nat): (m: nat) { if a < b then a else b }

  /** The byte at position i, or None past the end (a one-byte `toHexString` of nothing). */
  function ByteAt(w: seq<Byte>, i: nat): (r: Option<Byte>)
    ensures r.Some? <==> i < |w|
    ensures r.Some? ==> r.value == w[i]
  {
    if i < |w| then Some(w[i]) else None
  }

  /**
   * `toHexString(w, start, start + |expected|) === hex(expected)`: the bytes of `w`
   * from `start` on are exactly `expected`. A range running past the end yields a
   * shorter hex string, which never equals the constant.
   */
  predicate Matches(w: seq<Byte>, start: nat, expected: seq<Byte>)
    ensures Matches(w, start, expected) <==>
      start + |expected| <= |w| && forall i :: 0 <= i < |expected| ==> w[start + i] == expected[i]
  {
    start + |expected| <= |w| && w[start..start + |expected|] == expected
  }

  /**
   * `Uint8Array.slice(start, end)` for non-negative bounds: both bounds are
   * clamped to the length, and an end before the start gives an empty slice.
   */
  function Slice(w: seq<Byte>, start: nat, end: nat): (r: seq<Byte>)
    ensures start <= end <= |w| ==> r == w[start..end]
    ensures |w| <= start || end <= start ==> r == []
    ensures start <= |w| && |w| <= end ==> r == w[start..]
  {
    var lo := if start < |w| then start else |w|;
    var hi := if end < |w| then end else |w|;
    if hi <= lo then [] else w[lo..hi]
  }
}

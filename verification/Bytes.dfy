/** Bytes, and the two sequence operations every layer below is stated with. */
module Bytes {

  type byte = bv8

  /** `s` with the bytes from `at` on replaced by `d`. */
  function Splice<T>(s: seq<T>, at: nat, d: seq<T>): (r: seq<T>)
    requires at + |d| <= |s|
    ensures |r| == |s|
    ensures forall i :: 0 <= i < |s| ==> r[i] == if at <= i < at + |d| then d[i - at] else s[i]
  {
    s[..at] + d + s[at + |d|..]
  }

  /** a and b agree except perhaps on [from, end). */
  ghost predicate SameOutside<T>(a: seq<T>, b: seq<T>, from: nat, end: nat) {
    |a| == |b| && from <= end <= |a| && a[..from] == b[..from] && a[end..] == b[end..]
  }

  lemma SpliceSameOutside<T>(s: seq<T>, at: nat, d: seq<T>)
    requires at + |d| <= |s|
    ensures SameOutside(s, Splice(s, at, d), at, at + |d|)
  {}

  lemma SliceOfSlice<T>(s: seq<T>, from: nat, end: nat, a: nat, b: nat)
    requires from <= end <= |s| && a <= b <= end - from
    ensures s[from..end][a..b] == s[from + a..from + b]
  {
    var x, y := s[from..end][a..b], s[from + a..from + b];
    forall i | 0 <= i < b - a ensures x[i] == y[i] {
      assert x[i] == s[from..end][a + i] == s[from + (a + i)];
    }
  }

  /** A patch written in two adjacent pieces. */
  lemma SpliceMore<T>(s: seq<T>, at: nat, d: seq<T>, e: seq<T>)
    requires at + |d| + |e| <= |s|
    ensures Splice(Splice(s, at, d), at + |d|, e) == Splice(s, at, d + e)
  {}

  function Xor(a: seq<byte>, b: seq<byte>): (r: seq<byte>)
    requires |a| == |b|
    ensures |r| == |a|
    ensures forall i :: 0 <= i < |a| ==> r[i] == a[i] ^ b[i]
  {
    seq(|a|, i requires 0 <= i < |a| => a[i] ^ b[i])
  }

  lemma XorByteCancels(a: byte, b: byte)
    ensures (a ^ b) ^ b == a
  {}

  /** XOR with the same mask twice is the identity. */
  lemma XorCancels(a: seq<byte>, b: seq<byte>)
    requires |a| == |b|
    ensures Xor(Xor(a, b), b) == a
  {
    forall i | 0 <= i < |a| ensures Xor(Xor(a, b), b)[i] == a[i] {
      XorByteCancels(a[i], b[i]);
    }
  }

  /** Bit `k` of a byte, least significant first. */
  predicate Bit(b: byte, k: nat)
    requires k < 8
  {
    (b >> k) & 1 == 1
  }

  /** `memcpy` into a buffer. */
  method CopyInto<T>(dst: array<T>, at: nat, src: seq<T>)
    requires at + |src| <= dst.Length
    modifies dst
    ensures dst[..] == Splice(old(dst[..]), at, src)
  {
    for i := 0 to |src|
      invariant dst[..] == Splice(old(dst[..]), at, src[..i])
    {
      dst[at + i] := src[i];
    }
    assert src[..|src|] == src;
  }

  lemma SetBitVector(b: byte, j: bv4, i: bv4)
    requires i < 8 && j < 8
    ensures (((b | ((1 as byte) << j)) >> i) & 1 == 1) <==> ((b >> i) & 1 == 1) || i == j
  {}

  /** Setting bit j changes bit j and no other. */
  lemma SetBit(b: byte, j: nat, i: nat)
    requires i < 8 && j < 8
    ensures Bit(b | ((1 as byte) << j), i) <==> Bit(b, i) || i == j
  {
    SetBitVector(b, j as bv4, i as bv4);
    if i as bv4 == j as bv4 {
      assert i == (i as bv4) as int == (j as bv4) as int == j;
    }
  }
}

/** The 64-bit word arithmetic of `gf_mul_alpha`, on bare words and bytes. */
module Words {
  import opened Bytes

  /** The little-endian word of eight bytes. */
  function Word(a: byte, b: byte, c: byte, d: byte, e: byte, f: byte, g: byte, h: byte): bv64 {
    (a as bv64) | ((b as bv64) << 8) | ((c as bv64) << 16) | ((d as bv64) << 24) |
    ((e as bv64) << 32) | ((f as bv64) << 40) | ((g as bv64) << 48) | ((h as bv64) << 56)
  }

  function ByteOf(v: bv64, shift: bv8): byte
    requires shift <= 56
  {
    ((v >> shift) & 0xff) as byte
  }

  lemma WordBytes(a: byte, b: byte, c: byte, d: byte, e: byte, f: byte, g: byte, h: byte)
    ensures var v := Word(a, b, c, d, e, f, g, h);
            ByteOf(v, 0) == a && ByteOf(v, 8) == b && ByteOf(v, 16) == c && ByteOf(v, 24) == d &&
            ByteOf(v, 32) == e && ByteOf(v, 40) == f && ByteOf(v, 48) == g && ByteOf(v, 56) == h
  {}

  /** The new low word: shifted left, reduced by 0x87 on a carry out of the high word. */
  function AlphaLow(lo: bv64, hi: bv64): bv64 {
    if hi >> 63 == 1 then (lo << 1) ^ 0x87 else lo << 1
  }

  function AlphaHigh(lo: bv64, hi: bv64): bv64 {
    (hi << 1) | (lo >> 63)
  }

  function FirstByte(first: byte, last: byte): byte {
    (first << 1) ^ (if last >> 7 == 1 then 0x87 else 0)
  }

  function NextByte(previous: byte, b: byte): byte {
    (b << 1) | (previous >> 7)
  }

  lemma AlphaLowBytes(lo: bv64, hi: bv64)
    ensures var v := AlphaLow(lo, hi);
            && ByteOf(v, 0) == FirstByte(ByteOf(lo, 0), ByteOf(hi, 56))
            && ByteOf(v, 8) == NextByte(ByteOf(lo, 0), ByteOf(lo, 8))
            && ByteOf(v, 16) == NextByte(ByteOf(lo, 8), ByteOf(lo, 16))
            && ByteOf(v, 24) == NextByte(ByteOf(lo, 16), ByteOf(lo, 24))
            && ByteOf(v, 32) == NextByte(ByteOf(lo, 24), ByteOf(lo, 32))
            && ByteOf(v, 40) == NextByte(ByteOf(lo, 32), ByteOf(lo, 40))
            && ByteOf(v, 48) == NextByte(ByteOf(lo, 40), ByteOf(lo, 48))
            && ByteOf(v, 56) == NextByte(ByteOf(lo, 48), ByteOf(lo, 56))
  {}

  lemma AlphaHighBytes(lo: bv64, hi: bv64)
    ensures var v := AlphaHigh(lo, hi);
            && ByteOf(v, 0) == NextByte(ByteOf(lo, 56), ByteOf(hi, 0))
            && ByteOf(v, 8) == NextByte(ByteOf(hi, 0), ByteOf(hi, 8))
            && ByteOf(v, 16) == NextByte(ByteOf(hi, 8), ByteOf(hi, 16))
            && ByteOf(v, 24) == NextByte(ByteOf(hi, 16), ByteOf(hi, 24))
            && ByteOf(v, 32) == NextByte(ByteOf(hi, 24), ByteOf(hi, 32))
            && ByteOf(v, 40) == NextByte(ByteOf(hi, 32), ByteOf(hi, 40))
            && ByteOf(v, 48) == NextByte(ByteOf(hi, 40), ByteOf(hi, 48))
            && ByteOf(v, 56) == NextByte(ByteOf(hi, 48), ByteOf(hi, 56))
  {}
}

/**
 AES-XTS over one sector (Core/crypto/aes_xts.c). AES itself is a pair of inverse functions
 on 16-byte blocks, one pair for each key.
 */
module AesXts {
  import opened Bytes
  import opened Errno
  import opened Gf2Poly
  import Words

  type Block = b: seq<byte> | |b| == 16 witness seq(16, _ => 0)

  // ---- The tweak chain: multiplication by alpha ----

  /** x^128 + x^7 + x^2 + x + 1, the modulus of IEEE Std 1619-2007 section 5.2. */
  const GF128_MODULUS: Poly := {128, 7, 2, 1, 0}

  /** The field element a block stands for: byte k, bit j is the coefficient of x^(8k+j). */
  function Element(t: Block): (p: Poly)
    ensures forall e: nat :: e in p <==> e < 128 && Bit(t[e / 8], e % 8)
  {
    set e: nat | e < 128 && Bit(t[e / 8], e % 8)
  }

  /** Byte k of alpha * t, as section 5.2 of IEEE Std 1619-2007 gives it. */
  function MulAlphaByte(t: Block, k: nat): byte
    requires k < 16
  {
    if k == 0 then Words.FirstByte(t[0], t[15]) else Words.NextByte(t[k - 1], t[k])
  }

  function MulAlpha(t: Block): Block {
    seq(16, k requires 0 <= k < 16 => MulAlphaByte(t, k))
  }

  function Load64(p: seq<byte>): bv64
    requires |p| == 8
  {
    Words.Word(p[0], p[1], p[2], p[3], p[4], p[5], p[6], p[7])
  }

  function Store64(v: bv64): (p: seq<byte>)
    ensures |p| == 8
  {
    [Words.ByteOf(v, 0), Words.ByteOf(v, 8), Words.ByteOf(v, 16), Words.ByteOf(v, 24),
     Words.ByteOf(v, 32), Words.ByteOf(v, 40), Words.ByteOf(v, 48), Words.ByteOf(v, 56)]
  }

  lemma SameHalf(a: seq<byte>, b: seq<byte>)
    requires |a| == |b| == 8
    requires a[0] == b[0] && a[1] == b[1] && a[2] == b[2] && a[3] == b[3]
    requires a[4] == b[4] && a[5] == b[5] && a[6] == b[6] && a[7] == b[7]
    ensures a == b
  {}

  lemma LowWordShifts(t: Block)
    ensures var lo, hi := Load64(t[..8]), Load64(t[8..]); Store64(Words.AlphaLow(lo, hi)) == MulAlpha(t)[..8]
  {
    hide Words.Word, Words.ByteOf, Words.AlphaLow, Words.FirstByte, Words.NextByte;
    var lo, hi := Load64(t[..8]), Load64(t[8..]);
    Words.WordBytes(t[0], t[1], t[2], t[3], t[4], t[5], t[6], t[7]);
    Words.WordBytes(t[8], t[9], t[10], t[11], t[12], t[13], t[14], t[15]);
    Words.AlphaLowBytes(lo, hi);
    SameHalf(Store64(Words.AlphaLow(lo, hi)), MulAlpha(t)[..8]);
  }

  lemma HighWordShifts(t: Block)
    ensures var lo, hi := Load64(t[..8]), Load64(t[8..]); Store64(Words.AlphaHigh(lo, hi)) == MulAlpha(t)[8..]
  {
    hide Words.Word, Words.ByteOf, Words.AlphaHigh, Words.FirstByte, Words.NextByte;
    var lo, hi := Load64(t[..8]), Load64(t[8..]);
    Words.WordBytes(t[0], t[1], t[2], t[3], t[4], t[5], t[6], t[7]);
    Words.WordBytes(t[8], t[9], t[10], t[11], t[12], t[13], t[14], t[15]);
    Words.AlphaHighBytes(lo, hi);
    SameHalf(Store64(Words.AlphaHigh(lo, hi)), MulAlpha(t)[8..]);
  }

  /** The two-word shift of the source gives the bytes of MulAlpha. */
  lemma WordsShiftLikeBytes(t: Block)
    ensures var lo, hi := Load64(t[..8]), Load64(t[8..]);
            Store64(Words.AlphaLow(lo, hi)) + Store64(Words.AlphaHigh(lo, hi)) == MulAlpha(t)
  {
    hide Load64, Store64, MulAlpha;
    LowWordShifts(t);
    HighWordShifts(t);
  }

  lemma MulAlphaBits(t: Block, k: nat, j: nat)
    requires k < 16 && j < 8
    ensures Bit(MulAlpha(t)[k], j) ==
            if k == 0 && j == 0 then Bit(t[15], 7)
            else if k == 0 && j in {1, 2, 7} then Bit(t[0], j - 1) != Bit(t[15], 7)
            else if j == 0 then Bit(t[k - 1], 7)
            else Bit(t[k], j - 1)
  {
    assert j == 0 || j == 1 || j == 2 || j == 3 || j == 4 || j == 5 || j == 6 || j == 7;
  }

  lemma MulAlphaCoefficient(t: Block, e: nat)
    requires e < 128
    ensures e in Element(MulAlpha(t)) <==>
            ((e > 0 && e - 1 in Element(t)) != (127 in Element(t) && e in {0, 1, 2, 7}))
  {
    MulAlphaBits(t, e / 8, e % 8);
    if e % 8 == 0 {
      if e > 0 { assert (e - 1) / 8 == e / 8 - 1 && (e - 1) % 8 == 7; }
    } else {
      assert (e - 1) / 8 == e / 8 && (e - 1) % 8 == e % 8 - 1;
    }
  }

  /** The byte form of section 5.2 is multiplication by x in GF(2^128). */
  lemma MulAlphaIsMulX(t: Block)
    ensures Element(MulAlpha(t)) == MulXMod(Element(t), GF128_MODULUS, 128)
  {
    var p, q := Element(t), Element(MulAlpha(t));
    var shifted := Shift(p, 1);
    var product := MulXMod(p, GF128_MODULUS, 128);
    assert 128 in shifted <==> 127 in p;
    assert forall e: nat :: e in product <==> (e in shifted) != (127 in p && e in GF128_MODULUS);
    forall e: nat ensures e in q <==> e in product {
      if e < 128 {
        MulAlphaCoefficient(t, e);
        assert e in shifted <==> e >= 1 && e - 1 in p;
      } else {
        assert e in shifted <==> e - 1 in p;
      }
    }
  }

  /** alpha^j * t, the tweak of block j of a sector. */
  function TweakAt(t: Block, j: nat): Block {
    if j == 0 then t else MulAlpha(TweakAt(t, j - 1))
  }

  lemma {:induction false} TweakIsAlphaPower(t: Block, j: nat)
    ensures DegreeBelow(Element(TweakAt(t, j)), 128)
    ensures Congruent(Element(TweakAt(t, j)), Shift(Element(t), j), GF128_MODULUS)
  {
    if j == 0 {
      assert Shift(Element(t), 0) == Element(t);
      CongruentReflexive(Element(t), GF128_MODULUS);
    } else {
      var u := Element(TweakAt(t, j - 1));
      TweakIsAlphaPower(t, j - 1);
      MulAlphaIsMulX(TweakAt(t, j - 1));
      MulXModIsProduct(u, GF128_MODULUS, 128);
      CongruentShift(u, Shift(Element(t), j - 1), 1, GF128_MODULUS);
      assert Shift(Shift(Element(t), j - 1), 1) == Shift(Element(t), j);
      CongruentTransitive(Element(TweakAt(t, j)), Shift(u, 1), Shift(Element(t), j), GF128_MODULUS);
    }
  }

  lemma BitsDetermineByte(a: byte, b: byte)
    requires forall j: nat :: j < 8 ==> Bit(a, j) == Bit(b, j)
    ensures a == b
  {
    assert Bit(a, 0) == Bit(b, 0) && Bit(a, 1) == Bit(b, 1) && Bit(a, 2) == Bit(b, 2) && Bit(a, 3) == Bit(b, 3);
    assert Bit(a, 4) == Bit(b, 4) && Bit(a, 5) == Bit(b, 5) && Bit(a, 6) == Bit(b, 6) && Bit(a, 7) == Bit(b, 7);
  }

  lemma ElementInjective(a: Block, b: Block)
    requires Element(a) == Element(b)
    ensures a == b
  {
    forall k: nat | k < 16 ensures a[k] == b[k] {
      forall j: nat | j < 8 ensures Bit(a[k], j) == Bit(b[k], j) {
        assert (8 * k + j) / 8 == k && (8 * k + j) % 8 == j;
        assert 8 * k + j in Element(a) <==> 8 * k + j in Element(b);
      }
      BitsDetermineByte(a[k], b[k]);
    }
  }

  /** Only one block is alpha^j * t, so the chain cannot compute anything else. */
  lemma TweakIsUnique(t: Block, j: nat, u: Block)
    requires Congruent(Element(u), Shift(Element(t), j), GF128_MODULUS)
    ensures u == TweakAt(t, j)
  {
    TweakIsAlphaPower(t, j);
    CongruentSymmetric(Element(u), Shift(Element(t), j), GF128_MODULUS);
    CongruentSymmetric(Element(TweakAt(t, j)), Shift(Element(t), j), GF128_MODULUS);
    RemainderUnique(Shift(Element(t), j), Element(u), Element(TweakAt(t, j)), GF128_MODULUS, 128);
    ElementInjective(u, TweakAt(t, j));
  }

  /** Byte k of the block that alpha takes to t. */
  function DivAlphaByte(t: Block, k: nat): byte
    requires k < 16
  {
    var low: byte := if k == 0 && t[0] & 1 == 1 then t[0] ^ 0x87 else t[k];
    var next: byte := if k == 15 then t[0] & 1 else t[k + 1] & 1;
    (low >> 1) | (next << 7)
  }

  function DivAlpha(t: Block): Block {
    seq(16, k requires 0 <= k < 16 => DivAlphaByte(t, k))
  }

  /** Multiplication by alpha is a bijection on blocks. */
  lemma MulAlphaBijective(t: Block)
    ensures MulAlpha(DivAlpha(t)) == t
    ensures DivAlpha(MulAlpha(t)) == t
  {
    forall k: nat | k < 16 ensures MulAlpha(DivAlpha(t))[k] == t[k] && DivAlpha(MulAlpha(t))[k] == t[k] {
    }
  }

  /** `gf_mul_alpha`: the block is advanced in place, one 64-bit word at a time. */
  method GfMulAlpha(t: array<byte>)
    requires t.Length == 16
    modifies t
    ensures t[..] == MulAlpha(old(t[..]))
  {
    ghost var was: Block := t[..];
    assert t[0..8] == was[..8] && t[8..16] == was[8..];
    var lo, hi := Load64(t[0..8]), Load64(t[8..16]);
    WordsShiftLikeBytes(was);
    StoreWords(t, Store64(Words.AlphaLow(lo, hi)), Store64(Words.AlphaHigh(lo, hi)));
  }

  method StoreWords(t: array<byte>, lo: seq<byte>, hi: seq<byte>)
    requires t.Length == 16 && |lo| == |hi| == 8
    modifies t
    ensures t[..] == lo + hi
  {
    CopyInto(t, 0, lo);
    CopyInto(t, 8, hi);
  }

  // ---- The sector ----

  /** A block cipher under one key. */
  datatype BlockCipher = BlockCipher(enc: Block -> Block, dec: Block -> Block) {
    ghost predicate Bijective() {
      forall b: Block :: dec(enc(b)) == b && enc(dec(b)) == b
    }
  }

  /** The schedule: one cipher for the data, one for the tweak. */
  datatype XtsKey = XtsKey(data: BlockCipher, tweak: BlockCipher)

  function XorBlock(a: Block, b: Block): (r: Block) {
    Xor(a, b)
  }

  function BlockAt(s: seq<byte>, j: nat): Block
    requires 16 * j + 16 <= |s|
  {
    s[16 * j..16 * j + 16]
  }

  /** Block j of a sector: T = E(key2, tweak) * alpha^j, then E(key1, P ^ T) ^ T, or D for decryption. */
  function XtsBlock(key: XtsKey, encrypt: bool, tweak: Block, j: nat, b: Block): Block {
    var t := TweakAt(key.tweak.enc(tweak), j);
    var m := XorBlock(b, t);
    XorBlock(if encrypt then key.data.enc(m) else key.data.dec(m), t)
  }

  /** Sections 5.3 and 5.4 of IEEE Std 1619-2007 on whole blocks: each one by itself. */
  function Xts(key: XtsKey, encrypt: bool, tweak: Block, s: seq<byte>): (r: seq<byte>)
    requires |s| % 16 == 0
    ensures |r| == |s|
  {
    seq(|s|, i requires 0 <= i < |s| => XtsBlock(key, encrypt, tweak, i / 16, BlockAt(s, i / 16))[i % 16])
  }

  lemma XtsBlockAt(key: XtsKey, encrypt: bool, tweak: Block, s: seq<byte>, j: nat)
    requires |s| % 16 == 0 && 16 * j + 16 <= |s|
    ensures BlockAt(Xts(key, encrypt, tweak, s), j) == XtsBlock(key, encrypt, tweak, j, BlockAt(s, j))
  {
    hide XtsBlock;
    var r := Xts(key, encrypt, tweak, s);
    var b := XtsBlock(key, encrypt, tweak, j, BlockAt(s, j));
    forall i: nat | i < 16 ensures BlockAt(r, j)[i] == b[i] {
      assert (16 * j + i) / 16 == j && (16 * j + i) % 16 == i;
      assert BlockAt(r, j)[i] == r[16 * j + i];
    }
    assert BlockAt(r, j) == b;
  }

  lemma XtsBlockInverse(key: XtsKey, encrypt: bool, tweak: Block, j: nat, b: Block)
    requires key.data.Bijective()
    ensures XtsBlock(key, !encrypt, tweak, j, XtsBlock(key, encrypt, tweak, j, b)) == b
  {
    var t := TweakAt(key.tweak.enc(tweak), j);
    var m := XorBlock(b, t);
    XorCancels(b, t);
    XorCancels(if encrypt then key.data.enc(m) else key.data.dec(m), t);
  }

  /** Decryption undoes encryption, and the other way round, whatever the cipher. */
  lemma XtsInverse(key: XtsKey, encrypt: bool, tweak: Block, s: seq<byte>)
    requires key.data.Bijective() && |s| % 16 == 0
    ensures Xts(key, !encrypt, tweak, Xts(key, encrypt, tweak, s)) == s
  {
    hide Xts, XtsBlock, TweakAt;
    var c := Xts(key, encrypt, tweak, s);
    var p := Xts(key, !encrypt, tweak, c);
    forall i: nat | i < |s| ensures p[i] == s[i] {
      var j := i / 16;
      XtsBlockAt(key, encrypt, tweak, s, j);
      XtsBlockAt(key, !encrypt, tweak, c, j);
      XtsBlockInverse(key, encrypt, tweak, j, BlockAt(s, j));
      assert p[i] == BlockAt(p, j)[i % 16] && s[i] == BlockAt(s, j)[i % 16];
    }
  }

  /** Each block XORed with the running tweak, which starts at t and advances by alpha. */
  function Mask(s: seq<byte>, t: Block): (r: seq<byte>)
    ensures |r| == |s|
  {
    if |s| < 16 then s else XorBlock(s[..16], t) + Mask(s[16..], MulAlpha(t))
  }

  lemma {:induction false} TweakFromNext(t: Block, j: nat)
    ensures TweakAt(MulAlpha(t), j) == TweakAt(t, j + 1)
  {
    hide MulAlpha;
    if j > 0 { TweakFromNext(t, j - 1); }
  }

  lemma {:induction false} MaskBlockAt(s: seq<byte>, t: Block, j: nat)
    requires 16 * j + 16 <= |s|
    ensures BlockAt(Mask(s, t), j) == XorBlock(BlockAt(s, j), TweakAt(t, j))
  {
    hide MulAlpha;
    if j > 0 {
      MaskBlockAt(s[16..], MulAlpha(t), j - 1);
      TweakFromNext(t, j - 1);
      assert BlockAt(s, j) == BlockAt(s[16..], j - 1);
      assert BlockAt(Mask(s, t), j) == BlockAt(Mask(s[16..], MulAlpha(t)), j - 1);
    }
  }

  function Ecb(f: Block -> Block, s: seq<byte>): (r: seq<byte>)
    requires |s| % 16 == 0
    ensures |r| == |s|
  {
    seq(|s|, i requires 0 <= i < |s| => f(BlockAt(s, i / 16))[i % 16])
  }

  /** Masking the whole sector, one ECB pass, masking again with the chain walked
      a second time: the same bytes as XTS block by block. */
  lemma MaskEcbMaskIsXts(key: XtsKey, encrypt: bool, tweak: Block, s: seq<byte>)
    requires |s| % 16 == 0
    ensures var t0 := key.tweak.enc(tweak);
            var f := if encrypt then key.data.enc else key.data.dec;
            Mask(Ecb(f, Mask(s, t0)), t0) == Xts(key, encrypt, tweak, s)
  {
    hide Mask, Ecb, Xts, TweakAt, MulAlpha;
    var t0 := key.tweak.enc(tweak);
    var f := if encrypt then key.data.enc else key.data.dec;
    var m := Mask(s, t0);
    var c := Ecb(f, m);
    var r, x := Mask(c, t0), Xts(key, encrypt, tweak, s);
    forall i: nat | i < |s| ensures r[i] == x[i] {
      var j := i / 16;
      MaskBlockAt(s, t0, j);
      EcbBlockAt(f, m, j);
      MaskBlockAt(c, t0, j);
      XtsBlockAt(key, encrypt, tweak, s, j);
      assert r[i] == BlockAt(r, j)[i % 16] && x[i] == BlockAt(x, j)[i % 16];
    }
  }

  lemma EcbBlockAt(f: Block -> Block, s: seq<byte>, j: nat)
    requires |s| % 16 == 0 && 16 * j + 16 <= |s|
    ensures BlockAt(Ecb(f, s), j) == f(BlockAt(s, j))
  {
    var r := Ecb(f, s);
    var b := f(BlockAt(s, j));
    forall i: nat | i < 16 ensures BlockAt(r, j)[i] == b[i] {
      assert (16 * j + i) / 16 == j && (16 * j + i) % 16 == i;
      assert BlockAt(r, j)[i] == r[16 * j + i];
    }
    assert BlockAt(r, j) == b;
  }

  /** What masking buf[at..end] in place, from tweak t on, makes of the buffer. */
  function Masked(buf: seq<byte>, at: nat, end: nat, t: Block): (r: seq<byte>)
    requires at <= end <= |buf|
    ensures SameOutside(buf, r, at, end)
  {
    SpliceSameOutside(buf, at, Mask(buf[at..end], t));
    Splice(buf, at, Mask(buf[at..end], t))
  }

  function MaskedBlock(buf: seq<byte>, at: nat, t: Block): (r: seq<byte>)
    requires at + 16 <= |buf|
    ensures |r| == |buf|
  {
    Splice(buf, at, XorBlock(buf[at..at + 16], t))
  }

  lemma MaskedStep(buf: seq<byte>, at: nat, end: nat, t: Block)
    requires at + 16 <= end <= |buf|
    ensures Masked(MaskedBlock(buf, at, t), at + 16, end, MulAlpha(t)) == Masked(buf, at, end, t)
  {
    var s := buf[at..end];
    assert s[..16] == buf[at..at + 16] && s[16..] == buf[at + 16..end];
    var next := MaskedBlock(buf, at, t);
    assert next[at + 16..end] == s[16..];
    SpliceMore(buf, at, XorBlock(s[..16], t), Mask(s[16..], MulAlpha(t)));
  }

  /** `xor_block` followed by `gf_mul_alpha`, over the whole of buf[from..end]. */
  method MaskAll(buf: array<byte>, from: nat, end: nat, t: array<byte>)
    requires from <= end <= buf.Length && (end - from) % 16 == 0 && t.Length == 16 && t != buf
    modifies buf, t
    ensures buf[..] == Masked(old(buf[..]), from, end, old(t[..]))
  {
    hide Mask, MaskedBlock, MulAlpha;
    var at := from;
    ghost var left: nat := (end - from) / 16;
    ghost var target := Masked(buf[..], at, end, t[..]);
    while at < end
      invariant at + 16 * left == end
      invariant Masked(buf[..], at, end, t[..]) == target
    {
      MaskedStep(buf[..], at, end, t[..]);
      MaskOne(buf, at, t);
      at := at + 16;
      left := left - 1;
    }
    assert buf[..] == Masked(buf[..], end, end, t[..]);
  }

  method MaskOne(buf: array<byte>, at: nat, t: array<byte>)
    requires at + 16 <= buf.Length && t.Length == 16 && t != buf
    modifies buf, t
    ensures t[..] == MulAlpha(old(t[..]))
    ensures buf[..] == MaskedBlock(old(buf[..]), at, old(t[..]))
  {
    XorBlockInto(buf, at, t[..]);
    GfMulAlpha(t);
  }

  /** `xor_block`: one 16-byte block in place. */
  method XorBlockInto(buf: array<byte>, at: nat, t: Block)
    requires at + 16 <= buf.Length
    modifies buf
    ensures buf[..] == MaskedBlock(old(buf[..]), at, t)
  {
    for k := 0 to 16
      invariant buf[..] == Splice(old(buf[..]), at, XorBlock(old(buf[..])[at..at + 16], t)[..k])
    {
      buf[at + k] := buf[at + k] ^ t[k];
    }
  }

  /** What one ECB pass over buf[from..end] makes of the buffer. */
  function Enciphered(f: Block -> Block, buf: seq<byte>, from: nat, end: nat): (r: seq<byte>)
    requires from <= end <= |buf| && (end - from) % 16 == 0
    ensures SameOutside(buf, r, from, end)
  {
    SpliceSameOutside(buf, from, Ecb(f, buf[from..end]));
    Splice(buf, from, Ecb(f, buf[from..end]))
  }

  /** The platform's ECB call, in place over buf[from..end]; it may fail, and then changes nothing. */
  method EcbRun(f: Block -> Block, buf: array<byte>, from: nat, end: nat) returns (r: int)
    requires from <= end <= buf.Length && (end - from) % 16 == 0
    modifies buf
    ensures r == OK || r == EIO
    ensures buf[..] == if r == OK then Enciphered(f, old(buf[..]), from, end) else old(buf[..])
  {
    if * {
      return EIO;
    }
    CopyInto(buf, from, Ecb(f, buf[..][from..end]));
    r := OK;
  }

  lemma EcbOfBlock(f: Block -> Block, b: Block)
    ensures Ecb(f, b) == f(b)
  {
    assert BlockAt(b, 0) == b;
  }

  /** The three passes over buf[from..end]: mask, ECB, mask again from the same tweak. */
  function ThreePasses(f: Block -> Block, buf: seq<byte>, from: nat, end: nat, t0: Block): (r: seq<byte>)
    requires from <= end <= |buf| && (end - from) % 16 == 0
    ensures SameOutside(buf, r, from, end)
  {
    Masked(Enciphered(f, Masked(buf, from, end, t0), from, end), from, end, t0)
  }

  lemma ThreePassesAreXts(key: XtsKey, encrypt: bool, tweak: Block, was: seq<byte>, from: nat, end: nat)
    requires from <= end <= |was| && (end - from) % 16 == 0
    ensures var f := if encrypt then key.data.enc else key.data.dec;
            ThreePasses(f, was, from, end, key.tweak.enc(tweak)) ==
            Splice(was, from, Xts(key, encrypt, tweak, was[from..end]))
  {
    var t0 := key.tweak.enc(tweak);
    var f := if encrypt then key.data.enc else key.data.dec;
    var s := was[from..end];
    var m := Masked(was, from, end, t0);
    assert m[from..end] == Mask(s, t0);
    var c := Enciphered(f, m, from, end);
    assert c[from..end] == Ecb(f, Mask(s, t0));
    MaskEcbMaskIsXts(key, encrypt, tweak, s);
  }

  /** T = E(key2, tweak): encryption, in both directions. */
  method EncryptTweak(key: XtsKey, tweak: Block) returns (r: int, t: array<byte>)
    ensures fresh(t) && t.Length == 16 && (r == OK || r == EIO)
    ensures r == OK ==> t[..] == key.tweak.enc(tweak)
  {
    t := new byte[16](i => 0);
    CopyInto(t, 0, tweak);
    EcbOfBlock(key.tweak.enc, tweak);
    r := EcbRun(key.tweak.enc, t, 0, 16);
  }

  method RunPasses(f: Block -> Block, buf: array<byte>, from: nat, end: nat, t: array<byte>) returns (r: int)
    requires from <= end <= buf.Length && (end - from) % 16 == 0 && t.Length == 16 && t != buf
    modifies buf, t
    ensures r == OK || r == EIO
    ensures r == OK ==> buf[..] == ThreePasses(f, old(buf[..]), from, end, old(t[..]))
    ensures SameOutside(old(buf[..]), buf[..], from, end)
  {
    hide Masked, Enciphered;
    var t0 := t[..];
    MaskAll(buf, from, end, t);
    r := EcbRun(f, buf, from, end);
    if r == OK {
      CopyInto(t, 0, t0);
      assert t[..] == t0;
      MaskAll(buf, from, end, t);
    }
  }

  /** `aes_xts_crypt_sector`: one sector, buf[from..from + len], in place. On an error of the data pass the
      sector is left masked; nothing outside it is ever touched. */
  method AesXtsCryptSector(key: XtsKey, encrypt: bool, tweak: Block, buf: array<byte>, from: nat, len: nat)
      returns (r: int)
    requires from + len <= buf.Length
    modifies buf
    ensures r == EINVAL <==> len == 0 || len % 16 != 0
    ensures r == OK || r == EINVAL || r == EIO
    ensures r == OK ==> buf[..] == Splice(old(buf[..]), from, Xts(key, encrypt, tweak, old(buf[..])[from..from + len]))
    ensures SameOutside(old(buf[..]), buf[..], from, from + len)
  {
    hide ThreePasses, Xts;
    if len == 0 || len % 16 != 0 {
      return EINVAL;
    }
    var t;
    r, t := EncryptTweak(key, tweak);
    if r != OK {
      return;
    }
    ThreePassesAreXts(key, encrypt, tweak, buf[..], from, from + len);
    r := RunPasses(if encrypt then key.data.enc else key.data.dec, buf, from, from + len, t);
  }
}

/**
 The two CRCs of tools/fuzz/ext4_csum.c. Both are reflected: bit k of a register of w bits is the coefficient of
 x^(w-1-k), and the message goes in least significant bit first.
 */
module Crc {
  import opened Bytes
  import opened Gf2Poly

  /** Section 12.1 of RFC 3720, without the leading x^32, reflected. */
  const CRC32C_POLY: bv32 := 0x82F63B78

  /** x^16 + x^15 + x^2 + 1, reflected. A 16-bit register is the low half of a word. */
  const CRC16_POLY: bv32 := 0xA001

  // ---- Bit by bit ----

  function Half(c: bv32): bv32 { c >> 1 }

  predicate Odd(c: bv32) { c & 1 == 1 }

  function Plus(a: bv32, b: bv32): bv32 { a ^ b }

  function Step(poly: bv32, c: bv32): bv32 {
    if Odd(c) then Plus(poly, Half(c)) else Half(c)
  }

  function Steps(poly: bv32, c: bv32, n: nat): bv32
    decreases n
  {
    if n == 0 then c else Steps(poly, Step(poly, c), n - 1)
  }

  function Feed(poly: bv32, c: bv32, b: byte): bv32 {
    Steps(poly, Plus(c, b as bv32), 8)
  }

  /** Bit-by-bit division: the reference. */
  function Crc(poly: bv32, c: bv32, data: seq<byte>): bv32 {
    if data == [] then c else Feed(poly, Crc(poly, c, data[..|data| - 1]), data[|data| - 1])
  }

  // ---- What a register stands for ----

  /** No bit from n on is set. */
  predicate Narrow(c: bv32, n: nat) {
    if n == 0 then c == 0 else Narrow(Half(c), n - 1)
  }

  function PolyOf(c: bv32, w: nat): (p: Poly)
    ensures DegreeBelow(p, w)
  {
    if w == 0 then {} else PolyOf(Half(c), w - 1) + if Odd(c) then {w - 1} else {}
  }

  function Modulus(poly: bv32, w: nat): Poly {
    {w} + PolyOf(poly, w)
  }

  /** The message as a polynomial, first byte highest, least significant bit first. */
  function Message(data: seq<byte>): Poly {
    if data == [] then {}
    else Add(Shift(Message(data[..|data| - 1]), 8), PolyOf(data[|data| - 1] as bv32, 8))
  }

  lemma XorWords(a: bv32, b: bv32)
    ensures Half(Plus(a, b)) == Plus(Half(a), Half(b))
    ensures Odd(Plus(a, b)) <==> Odd(a) != Odd(b)
  {}

  lemma {:induction false} PolyOfXor(a: bv32, b: bv32, w: nat)
    ensures PolyOf(Plus(a, b), w) == Add(PolyOf(a, w), PolyOf(b, w))
    decreases w
  {
    hide Half, Odd, Plus;
    if w > 0 {
      XorWords(a, b);
      PolyOfXor(Half(a), Half(b), w - 1);
    }
  }

  lemma {:induction false} NarrowXor(a: bv32, b: bv32, n: nat)
    requires Narrow(a, n) && Narrow(b, n)
    ensures Narrow(Plus(a, b), n)
    decreases n
  {
    if n > 0 {
      hide Half, Odd, Plus;
      XorWords(a, b);
      NarrowXor(Half(a), Half(b), n - 1);
    }
  }

  lemma {:induction false} PolyOfZero(w: nat)
    ensures PolyOf(0, w) == {}
  {
    if w > 0 { PolyOfZero(w - 1); }
  }

  /** A narrow word in a wider register stands for the same polynomial, higher up. */
  lemma {:induction false} PolyOfWider(c: bv32, n: nat, w: nat)
    requires Narrow(c, n) && n <= w
    ensures PolyOf(c, w) == Shift(PolyOf(c, n), w - n)
    decreases n
  {
    hide Half, Odd, Plus;
    if n == 0 {
      PolyOfZero(w);
    } else {
      PolyOfWider(Half(c), n - 1, w - 1);
    }
  }

  lemma {:induction false} NarrowWider(c: bv32, n: nat, w: nat)
    requires Narrow(c, n) && n <= w
    ensures Narrow(c, w)
    decreases w
  {
    if n > 0 {
      NarrowWider(Half(c), n - 1, w - 1);
    } else if w > 0 {
      NarrowWider(Half(c), 0, w - 1);
    }
  }

  /** Good parameters: a polynomial of this width, and the register too. */
  ghost predicate Fits(poly: bv32, w: nat, c: bv32) {
    w > 0 && Narrow(poly, w) && Narrow(c, w)
  }

  lemma HalfIsNarrower(c: bv32, w: nat)
    requires w > 0 && Narrow(c, w)
    ensures Narrow(Half(c), w - 1)
  {}

  /** Shifting the register right raises what it stands for, and drops the bit that falls out. */
  lemma HalfIsRaised(w: nat, c: bv32)
    requires w > 0 && Narrow(c, w)
    ensures Narrow(Half(c), w)
    ensures Shift(PolyOf(c, w), 1) == PolyOf(Half(c), w) + if Odd(c) then {w} else {}
  {
    hide Half, Odd, Shift, PolyOf, Narrow;
    HalfIsNarrower(c, w);
    NarrowWider(Half(c), w - 1, w);
    PolyOfWider(Half(c), w - 1, w);
    PolyOfUnfold(c, w);
    var p := PolyOf(Half(c), w - 1);
    assert PolyOf(Half(c), w) == Shift(p, 1);
    if Odd(c) {
      ShiftSum(p, {w - 1});
      ShiftSingle(w - 1);
    } else {
      PlusNothing(p);
      PlusNothing(Shift(p, 1));
    }
  }

  lemma PolyOfUnfold(c: bv32, w: nat)
    requires w > 0
    ensures PolyOf(c, w) == PolyOf(Half(c), w - 1) + if Odd(c) then {w - 1} else {}
  {}

  lemma PlusNothing(p: Poly)
    ensures p + {} == p
  {}

  lemma ShiftSingle(e: nat)
    ensures Shift({e}, 1) == {e + 1}
  {}

  lemma ShiftSum(p: Poly, q: Poly)
    ensures Shift(p + q, 1) == Shift(p, 1) + Shift(q, 1)
  {}

  /** One step is multiplication by x modulo the polynomial. */
  lemma StepIsMulX(poly: bv32, w: nat, c: bv32)
    requires Fits(poly, w, c)
    ensures Fits(poly, w, Step(poly, c))
    ensures PolyOf(Step(poly, c), w) == MulXMod(PolyOf(c, w), Modulus(poly, w), w)
  {
    hide Half, Odd, Plus, PolyOf, Narrow, Shift;
    HalfIsRaised(w, c);
    NarrowXor(poly, Half(c), w);
    PolyOfXor(poly, Half(c), w);
  }

  lemma {:induction false} StepsAreShift(poly: bv32, w: nat, c: bv32, n: nat)
    requires Fits(poly, w, c)
    ensures Fits(poly, w, Steps(poly, c, n))
    ensures Congruent(PolyOf(Steps(poly, c, n), w), Shift(PolyOf(c, w), n), Modulus(poly, w))
    decreases n
  {
    hide Narrow, PolyOf, Step, Congruent;
    var m, p := Modulus(poly, w), PolyOf(c, w);
    if n == 0 {
      assert Shift(p, 0) == p;
      CongruentReflexive(p, m);
    } else {
      var d := Step(poly, c);
      StepIsMulX(poly, w, c);
      MulXModIsProduct(p, m, w);
      StepsAreShift(poly, w, d, n - 1);
      CongruentShift(PolyOf(d, w), Shift(p, 1), n - 1, m);
      assert Shift(Shift(p, 1), n - 1) == Shift(p, n);
      CongruentTransitive(PolyOf(Steps(poly, c, n), w), Shift(PolyOf(d, w), n - 1), Shift(p, n), m);
    }
  }

  lemma ByteIsNarrow(b: byte)
    ensures Narrow(b as bv32, 8)
  {
    hide Narrow;
    NarrowByte(b as bv32);
  }

  lemma NarrowByte(c: bv32)
    requires c < 256
    ensures Narrow(c, 8)
  {
    var c4 := Half(Half(Half(Half(c))));
    assert Half(Half(Half(Half(c4)))) == 0;
    assert Narrow(Half(Half(c4)), 2);
    assert Narrow(c4, 4);
    assert Narrow(Half(Half(c)), 6);
  }

  /** A byte fed in: the register times x^8, plus the byte times x^w. */
  lemma FeedIsDivision(poly: bv32, w: nat, c: bv32, b: byte)
    requires Fits(poly, w, c) && w >= 8
    ensures Fits(poly, w, Feed(poly, c, b))
    ensures Congruent(PolyOf(Feed(poly, c, b), w),
                      Add(Shift(PolyOf(c, w), 8), Shift(PolyOf(b as bv32, 8), w)), Modulus(poly, w))
  {
    hide Narrow, PolyOf, Congruent, Steps, Plus;
    var v := b as bv32;
    ByteIsNarrow(b);
    NarrowWider(v, 8, w);
    PolyOfWider(v, 8, w);
    NarrowXor(c, v, w);
    PolyOfXor(c, v, w);
    StepsAreShift(poly, w, Plus(c, v), 8);
    assert Shift(Add(PolyOf(c, w), Shift(PolyOf(v, 8), w - 8)), 8)
        == Add(Shift(PolyOf(c, w), 8), Shift(PolyOf(v, 8), w));
  }

  /** The register after the whole message, and the polynomial it is the remainder of. */
  function Dividend(w: nat, c: bv32, data: seq<byte>): Poly {
    Add(Shift(PolyOf(c, w), 8 * |data|), Shift(Message(data), w))
  }

  lemma DividendOfNothing(w: nat, c: bv32)
    ensures Dividend(w, c, []) == PolyOf(c, w)
  {}

  lemma DividendSnoc(w: nat, c: bv32, data: seq<byte>)
    requires data != []
    ensures var n := |data| - 1;
            Dividend(w, c, data)
              == Add(Shift(Dividend(w, c, data[..n]), 8), Shift(PolyOf(data[n] as bv32, 8), w))
  {
    hide PolyOf, Add, Shift, Message;
    var n := |data| - 1;
    MessageSnoc(data);
    var p, m, b := PolyOf(c, w), Message(data[..n]), PolyOf(data[n] as bv32, 8);
    ShiftShift(p, 8 * n, 8);
    ShiftShift(m, 8, w);
    ShiftShift(m, w, 8);
    ShiftAdd(Shift(m, 8), b, w);
    ShiftAdd(Shift(p, 8 * n), Shift(m, w), 8);
    AddAssociates(Shift(p, 8 * n + 8), Shift(m, w + 8), Shift(b, w));
  }

  lemma MessageSnoc(data: seq<byte>)
    requires data != []
    ensures var n := |data| - 1; Message(data) == Add(Shift(Message(data[..n]), 8), PolyOf(data[n] as bv32, 8))
  {
    hide PolyOf, Add, Shift;
  }

  lemma ShiftShift(p: Poly, m: nat, n: nat)
    ensures Shift(Shift(p, m), n) == Shift(p, m + n)
  {}

  lemma ShiftAdd(p: Poly, q: Poly, n: nat)
    ensures Shift(Add(p, q), n) == Add(Shift(p, n), Shift(q, n))
  {}

  lemma AddAssociates(p: Poly, q: Poly, r: Poly)
    ensures Add(Add(p, q), r) == Add(p, Add(q, r))
  {}

  lemma {:induction false} CrcIsCongruent(poly: bv32, w: nat, c: bv32, data: seq<byte>)
    requires Fits(poly, w, c) && w >= 8
    ensures Fits(poly, w, Crc(poly, c, data))
    ensures Congruent(PolyOf(Crc(poly, c, data), w), Dividend(w, c, data), Modulus(poly, w))
    decreases |data|
  {
    hide Narrow, PolyOf, Congruent, Feed, Add, Shift, Dividend, Modulus;
    var m := Modulus(poly, w);
    if data == [] {
      DividendOfNothing(w, c);
      CongruentReflexive(PolyOf(c, w), m);
    } else {
      var front, last := data[..|data| - 1], data[|data| - 1];
      var r := Crc(poly, c, front);
      var b := Shift(PolyOf(last as bv32, 8), w);
      CrcIsCongruent(poly, w, c, front);
      FeedIsDivision(poly, w, r, last);
      CongruentShift(PolyOf(r, w), Dividend(w, c, front), 8, m);
      CongruentReflexive(b, m);
      CongruentAdd(Shift(PolyOf(r, w), 8), Shift(Dividend(w, c, front), 8), b, b, m);
      DividendSnoc(w, c, data);
      CongruentTransitive(PolyOf(Crc(poly, c, data), w), Add(Shift(PolyOf(r, w), 8), b), Dividend(w, c, data), m);
    }
  }

  /** The CRC is the remainder of the seed, raised past the message, plus the message, raised past the register:
      there is no other polynomial of lower degree than the modulus in that class. */
  lemma CrcIsTheRemainder(poly: bv32, w: nat, c: bv32, data: seq<byte>, r: Poly)
    requires Fits(poly, w, c) && w >= 8 && DegreeBelow(r, w)
    ensures Congruent(Dividend(w, c, data), r, Modulus(poly, w)) <==> r == PolyOf(Crc(poly, c, data), w)
  {
    hide PolyOf, Crc, Dividend, Narrow, Congruent;
    var p, q, m := Dividend(w, c, data), PolyOf(Crc(poly, c, data), w), Modulus(poly, w);
    CrcIsCongruent(poly, w, c, data);
    CongruentSymmetric(q, p, m);
    if Congruent(p, r, m) { RemainderUnique(p, r, q, m, w); }
  }

  lemma EightHalves(c: bv32)
    ensures Half(Half(Half(Half(Half(Half(Half(Half(c)))))))) == c >> 8
  {}

  lemma NarrowByEight(c: bv32, n: nat)
    requires Narrow(c >> 8, n)
    ensures Narrow(c, n + 8)
  {
    EightHalves(c);
    hide Half;
    var c4 := Half(Half(Half(Half(c))));
    assert Narrow(Half(Half(c4)), n + 2);
    assert Narrow(c4, n + 4);
    assert Narrow(Half(Half(c)), n + 6);
  }

  lemma NarrowHalfWord(c: bv32)
    requires c < 0x1_0000
    ensures Narrow(c, 16)
  {
    hide Narrow;
    NarrowByte(c >> 8);
    NarrowByEight(c, 8);
  }

  lemma NarrowWord(c: bv32)
    ensures Narrow(c, 32)
  {
    hide Narrow;
    ShiftTwice(c);
    NarrowHalfWord(c >> 8 >> 8);
    NarrowByEight(c >> 8, 16);
    NarrowByEight(c, 24);
  }

  lemma ShiftTwice(c: bv32)
    ensures c >> 8 >> 8 < 0x1_0000
  {}

  /** Both polynomials fit their registers, and so does every seed of the right width. */
  lemma Parameters(c: bv32, d: bv32)
    requires d < 0x1_0000
    ensures Fits(CRC32C_POLY, 32, c) && Fits(CRC16_POLY, 16, d)
  {
    hide Narrow;
    NarrowWord(c);
    NarrowWord(CRC32C_POLY);
    NarrowHalfWord(d);
    NarrowHalfWord(CRC16_POLY);
  }

  function TermIf(present: bool, e: nat): Poly {
    if present then {e} else {}
  }

  lemma NibbleWords(c: bv32)
    ensures Half(Half(Half(Half(c)))) == c >> 4
    ensures Odd(c) <==> c & 1 != 0
    ensures Odd(Half(c)) <==> c & 2 != 0
    ensures Odd(Half(Half(c))) <==> c & 4 != 0
    ensures Odd(Half(Half(Half(c)))) <==> c & 8 != 0
  {}

  lemma Nibble(c: bv32, w: nat)
    requires w >= 4
    ensures PolyOf(c, w) == PolyOf(c >> 4, w - 4) + TermIf(c & 8 != 0, w - 4) + TermIf(c & 4 != 0, w - 3)
                            + TermIf(c & 2 != 0, w - 2) + TermIf(c & 1 != 0, w - 1)
  {
    NibbleWords(c);
    hide PolyOf, Half, Odd;
    PolyOfUnfold(c, w);
    PolyOfUnfold(Half(c), w - 1);
    PolyOfUnfold(Half(Half(c)), w - 2);
    PolyOfUnfold(Half(Half(Half(c))), w - 3);
  }

  lemma HighHalf()
    ensures PolyOf(0x82F6, 16) == {14, 13, 11, 10, 9, 8, 6, 0}
  {
    hide PolyOf;
    Nibble(0x82F6, 16);
    Nibble(0x82F, 12);
    Nibble(0x82, 8);
    Nibble(0x8, 4);
    PolyOfZero(0);
  }

  /** The modulus of section 12.1 of RFC 3720. */
  lemma Crc32cModulus()
    ensures Modulus(CRC32C_POLY, 32) == {32, 28, 27, 26, 25, 23, 22, 20, 19, 18, 14, 13, 11, 10, 9, 8, 6, 0}
  {
    hide PolyOf;
    HighHalf();
    Nibble(0x82F63B78, 32);
    Nibble(0x82F63B7, 28);
    Nibble(0x82F63B, 24);
    Nibble(0x82F63, 20);
  }

  /** x^16 + x^15 + x^2 + 1 */
  lemma Crc16Modulus()
    ensures Modulus(CRC16_POLY, 16) == {16, 15, 2, 0}
  {
    hide PolyOf;
    Nibble(0xA001, 16);
    Nibble(0xA00, 12);
    Nibble(0xA0, 8);
    Nibble(0xA, 4);
    PolyOfZero(0);
  }

  // ---- Composition and linearity ----

  /** Feeding two pieces one after the other is feeding their concatenation. */
  lemma {:induction false} CrcConcat(poly: bv32, c: bv32, a: seq<byte>, b: seq<byte>)
    ensures Crc(poly, c, a + b) == Crc(poly, Crc(poly, c, a), b)
    decreases |b|
  {
    hide Feed;
    if b == [] {
      assert a + b == a;
    } else {
      assert (a + b)[..|a + b| - 1] == a + b[..|b| - 1];
      CrcConcat(poly, c, a, b[..|b| - 1]);
    }
  }

  lemma PlusAssociates(a: bv32, b: bv32, c: bv32)
    ensures Plus(Plus(a, b), c) == Plus(a, Plus(b, c))
  {}

  lemma PlusCommutes(a: bv32, b: bv32)
    ensures Plus(a, b) == Plus(b, a)
  {}

  lemma PlusCancels(p: bv32, a: bv32)
    ensures Plus(p, Plus(p, a)) == a
  {}

  lemma StepWords(p: bv32, a: bv32, b: bv32)
    ensures Plus(Plus(p, a), Plus(p, b)) == Plus(a, b)
    ensures Plus(Plus(p, a), b) == Plus(p, Plus(a, b)) && Plus(a, Plus(p, b)) == Plus(p, Plus(a, b))
  {
    hide Plus;
    PlusAssociates(p, a, b);
    PlusAssociates(a, p, b);
    PlusCommutes(p, a);
    PlusAssociates(p, a, Plus(p, b));
    PlusCancels(p, Plus(a, b));
  }

  lemma StepIsLinear(poly: bv32, a: bv32, b: bv32)
    ensures Step(poly, Plus(a, b)) == Plus(Step(poly, a), Step(poly, b))
  {
    hide Half, Odd, Plus;
    XorWords(a, b);
    StepWords(poly, Half(a), Half(b));
  }

  lemma {:induction false} StepsAreLinear(poly: bv32, a: bv32, b: bv32, n: nat)
    ensures Steps(poly, Plus(a, b), n) == Plus(Steps(poly, a, n), Steps(poly, b, n))
    decreases n
  {
    hide Step, Plus;
    if n > 0 {
      StepIsLinear(poly, a, b);
      StepsAreLinear(poly, Step(poly, a), Step(poly, b), n - 1);
    }
  }

  lemma FeedWords(a: bv32, b: bv32, x: byte, y: byte)
    ensures Plus(Plus(a, b), (x ^ y) as bv32) == Plus(Plus(a, x as bv32), Plus(b, y as bv32))
  {}

  lemma FeedIsLinear(poly: bv32, a: bv32, b: bv32, x: byte, y: byte)
    ensures Feed(poly, Plus(a, b), x ^ y) == Plus(Feed(poly, a, x), Feed(poly, b, y))
  {
    hide Steps, Plus;
    FeedWords(a, b, x, y);
    StepsAreLinear(poly, Plus(a, x as bv32), Plus(b, y as bv32), 8);
  }

  /** The CRC of a sum, of seeds and of data alike, is the sum of the CRCs. */
  lemma {:induction false} CrcIsLinear(poly: bv32, a: bv32, b: bv32, x: seq<byte>, y: seq<byte>)
    requires |x| == |y|
    ensures Crc(poly, Plus(a, b), Xor(x, y)) == Plus(Crc(poly, a, x), Crc(poly, b, y))
    decreases |x|
  {
    hide Feed, Plus;
    if x != [] {
      var n := |x| - 1;
      CrcIsLinear(poly, a, b, x[..n], y[..n]);
      assert Xor(x, y)[..n] == Xor(x[..n], y[..n]);
      FeedIsLinear(poly, Crc(poly, a, x[..n]), Crc(poly, b, y[..n]), x[n], y[n]);
    }
  }

  // ---- What it detects ----

  /** The polynomial has a constant term, so no step loses anything. */
  lemma StepInjective(a: bv32, b: bv32)
    requires Step(CRC32C_POLY, a) == Step(CRC32C_POLY, b)
    ensures a == b
  {}

  lemma {:induction false} StepsInjective(a: bv32, b: bv32, n: nat)
    requires Steps(CRC32C_POLY, a, n) == Steps(CRC32C_POLY, b, n)
    ensures a == b
    decreases n
  {
    hide Step;
    if n > 0 {
      StepsInjective(Step(CRC32C_POLY, a), Step(CRC32C_POLY, b), n - 1);
      StepInjective(a, b);
    }
  }

  lemma PlusInjective(a: bv32, b: bv32, x: byte, y: byte)
    ensures Plus(a, x as bv32) == Plus(b, x as bv32) ==> a == b
    ensures Plus(a, x as bv32) == Plus(a, y as bv32) ==> x == y
  {}

  lemma FeedInjective(a: bv32, b: bv32, x: byte, y: byte)
    ensures Feed(CRC32C_POLY, a, x) == Feed(CRC32C_POLY, b, x) ==> a == b
    ensures Feed(CRC32C_POLY, a, x) == Feed(CRC32C_POLY, a, y) ==> x == y
  {
    hide Steps, Plus;
    PlusInjective(a, b, x, y);
    if Feed(CRC32C_POLY, a, x) == Feed(CRC32C_POLY, b, x) {
      StepsInjective(Plus(a, x as bv32), Plus(b, x as bv32), 8);
    }
    if Feed(CRC32C_POLY, a, x) == Feed(CRC32C_POLY, a, y) {
      StepsInjective(Plus(a, x as bv32), Plus(a, y as bv32), 8);
    }
  }

  /** A difference in the register outlives every message fed to both. */
  lemma {:induction false} SeedShows(a: bv32, b: bv32, data: seq<byte>)
    requires Crc(CRC32C_POLY, a, data) == Crc(CRC32C_POLY, b, data)
    ensures a == b
    decreases |data|
  {
    hide Feed;
    if data != [] {
      var n := |data| - 1;
      FeedInjective(Crc(CRC32C_POLY, a, data[..n]), Crc(CRC32C_POLY, b, data[..n]), data[n], data[n]);
      SeedShows(a, b, data[..n]);
    }
  }

  /** CRC32C detects every change of one byte, at any length and anywhere. */
  lemma OneByteShows(seed: bv32, x: seq<byte>, y: seq<byte>, k: nat)
    requires |x| == |y| && k < |x| && x[k] != y[k] && forall i :: 0 <= i < |x| && i != k ==> x[i] == y[i]
    ensures Crc(CRC32C_POLY, seed, x) != Crc(CRC32C_POLY, seed, y)
  {
    var front, back := x[..k], x[k + 1..];
    assert x == x[..k + 1] + back && y == y[..k + 1] + back;
    assert x[..k + 1][..k] == front && y[..k + 1][..k] == front;
    hide Feed;
    CrcConcat(CRC32C_POLY, seed, x[..k + 1], back);
    CrcConcat(CRC32C_POLY, seed, y[..k + 1], back);
    var r := Crc(CRC32C_POLY, seed, front);
    FeedInjective(r, r, x[k], y[k]);
    if Crc(CRC32C_POLY, seed, x) == Crc(CRC32C_POLY, seed, y) {
      SeedShows(Crc(CRC32C_POLY, seed, x[..k + 1]), Crc(CRC32C_POLY, seed, y[..k + 1]), back);
    }
  }

  // ---- By table ----

  function LowByte(c: bv32): byte { (c & 0xFF) as byte }

  function Down8(c: bv32): bv32 { c >> 8 }

  /** Entry i: what eight steps make of i. */
  function Entry(poly: bv32, i: byte): bv32 {
    Steps(poly, i as bv32, 8)
  }

  lemma SplitWord(c: bv32)
    ensures c == Plus(LowByte(c) as bv32, c & 0xFFFF_FF00)
  {}

  lemma HighPartDown(c: bv32)
    ensures (c & 0xFFFF_FF00) >> 8 == Down8(c)
  {}

  lemma EvenHalves(c: bv32)
    ensures var d := c & 0xFFFF_FF00;
            && !Odd(d) && !Odd(Half(d)) && !Odd(Half(Half(d))) && !Odd(Half(Half(Half(d))))
            && var e := Half(Half(Half(Half(d))));
               !Odd(e) && !Odd(Half(e)) && !Odd(Half(Half(e))) && !Odd(Half(Half(Half(e))))
  {}

  /** Eight steps over a word whose low byte is zero only shift it. */
  lemma StepsOverZeros(poly: bv32, c: bv32)
    ensures Steps(poly, c & 0xFFFF_FF00, 8) == Down8(c)
  {
    EvenHalves(c);
    HighPartDown(c);
    EightHalves(c & 0xFFFF_FF00);
    hide Half, Odd, Plus, Down8;
    var d := c & 0xFFFF_FF00;
    var e := Half(Half(Half(Half(d))));
    assert Steps(poly, d, 8) == Steps(poly, Half(Half(d)), 6);
    assert Steps(poly, Half(Half(d)), 6) == Steps(poly, e, 4);
    assert Steps(poly, e, 4) == Steps(poly, Half(Half(e)), 2);
    assert Steps(poly, Half(Half(e)), 2) == Half(Half(Half(Half(e))));
  }

  lemma LowByteOfSum(c: bv32, b: byte)
    ensures Down8(Plus(c, b as bv32)) == Down8(c)
  {}

  /** A table look-up does the work of eight steps. */
  lemma LookUpIsFeed(poly: bv32, c: bv32, b: byte)
    ensures Plus(Entry(poly, LowByte(Plus(c, b as bv32))), Down8(c)) == Feed(poly, c, b)
  {
    hide Steps, Plus, Down8, LowByte;
    var v := Plus(c, b as bv32);
    SplitWord(v);
    StepsAreLinear(poly, LowByte(v) as bv32, v & 0xFFFF_FF00, 8);
    StepsOverZeros(poly, v);
    LowByteOfSum(c, b);
  }

  ghost predicate IsTable(poly: bv32, table: seq<bv32>) {
    |table| == 256 && forall i: byte :: table[i as int] == Entry(poly, i)
  }

  method BuildEntry(poly: bv32, i: byte) returns (c: bv32)
    ensures c == Entry(poly, i)
  {
    hide Step;
    c := i as bv32;
    for k := 0 to 8
      invariant Steps(poly, c, 8 - k) == Entry(poly, i)
    {
      c := Step(poly, c);
    }
  }

  lemma ByteOfIndex(j: byte, i: nat)
    requires i < 256 && j as int == i
    ensures j == i as byte
  {}

  /** `build_tables` */
  method BuildTable(poly: bv32) returns (table: array<bv32>)
    ensures fresh(table) && IsTable(poly, table[..])
  {
    hide Entry;
    table := new bv32[256](i => 0);
    for i := 0 to 256
      invariant forall j: byte :: j as int < i ==> table[j as int] == Entry(poly, j)
    {
      var c := BuildEntry(poly, i as byte);
      table[i] := c;
      forall j: byte | j as int <= i ensures table[j as int] == Entry(poly, j) {
        if j as int == i { ByteOfIndex(j, i); }
      }
    }
  }

  /** `fz_crc32c` and `fz_crc16`: one look-up a byte. */
  method Update(poly: bv32, table: array<bv32>, seed: bv32, buf: seq<byte>) returns (crc: bv32)
    requires IsTable(poly, table[..])
    ensures crc == Crc(poly, seed, buf)
  {
    hide Feed, Entry, Plus, Down8, LowByte;
    crc := seed;
    for i := 0 to |buf|
      invariant crc == Crc(poly, seed, buf[..i])
    {
      LookUpIsFeed(poly, crc, buf[i]);
      assert buf[..i + 1][..i] == buf[..i];
      var index := LowByte(Plus(crc, buf[i] as bv32));
      assert table[..][index as int] == Entry(poly, index);
      crc := Plus(table[index as int], Down8(crc));
    }
    assert buf[..|buf|] == buf;
  }
}

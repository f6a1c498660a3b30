/**
 What the CRC32C register shows of a few changed bytes: the four bytes of a checksum kept in two halves 32 bytes
 apart, as a 64-byte group descriptor keeps a bitmap's (tools/fuzz/ext4_csum.c).
 */
module CrcBurst {
  import opened Bytes
  import opened Crc

  function Zeros(n: nat): (r: seq<byte>)
    ensures |r| == n && forall i :: 0 <= i < n ==> r[i] == 0
  {
    seq(n, i => 0)
  }

  lemma ZeroWords(c: bv32)
    ensures Plus(c, (0 as byte) as bv32) == c && Plus(0, c) == c && Plus(c, c) == 0
    ensures Step(CRC32C_POLY, 0) == 0
  {}

  lemma {:induction false} StepsOfZero(n: nat)
    ensures Steps(CRC32C_POLY, 0, n) == 0
    decreases n
  {
    hide Step;
    if n > 0 {
      ZeroWords(0);
      StepsOfZero(n - 1);
    }
  }

  lemma {:induction false} StepsCompose(c: bv32, m: nat, n: nat)
    ensures Steps(CRC32C_POLY, Steps(CRC32C_POLY, c, m), n) == Steps(CRC32C_POLY, c, m + n)
    decreases m
  {
    hide Step;
    if m > 0 { StepsCompose(Step(CRC32C_POLY, c), m - 1, n); }
  }

  lemma {:induction false} CrcOfZeros(c: bv32, n: nat)
    ensures Crc.Crc(CRC32C_POLY, c, Zeros(n)) == Steps(CRC32C_POLY, c, 8 * n)
    decreases n
  {
    hide Steps, Plus;
    if n == 0 {
      assert Steps(CRC32C_POLY, c, 0) == c by { NoSteps(c); }
    } else {
      assert Zeros(n)[..n - 1] == Zeros(n - 1);
      CrcOfZeros(c, n - 1);
      ZeroWords(Steps(CRC32C_POLY, c, 8 * (n - 1)));
      StepsCompose(c, 8 * (n - 1), 8);
    }
  }

  lemma NoSteps(c: bv32)
    ensures Steps(CRC32C_POLY, c, 0) == c
  {}

  // ---- Two bytes at a time ----

  function Word16(x: byte, y: byte): bv32 {
    (x as bv32) | ((y as bv32) << 8)
  }

  lemma WordBytes(x: byte, y: byte)
    ensures Word16(x, y) < 0x1_0000 && (Word16(x, y) == 0 <==> x == 0 && y == 0)
    ensures Word16(x, y) == Plus(x as bv32, (y as bv32) << 8)
  {}

  /** A byte that waits eight bits away is eight steps later where a byte is fed. */
  lemma EightAway(y: byte)
    ensures Steps(CRC32C_POLY, (y as bv32) << 8, 8) == y as bv32
  {
    var c := (y as bv32) << 8;
    hide Steps, Eight;
    ByteUp(y);
    EightShifts(c);
    OneAtATime(c);
  }

  lemma ByteUp(y: byte)
    ensures ((y as bv32) << 8) & 0xFF == 0 && ((y as bv32) << 8) >> 8 == y as bv32
  {}

  lemma EightShifts(c: bv32)
    requires c & 0xFF == 0
    ensures Eight(c) == c >> 8
  {}

  /** Eight steps, written out. */
  function Eight(c: bv32): bv32 {
    var s1 := Step(CRC32C_POLY, c);
    var s2 := Step(CRC32C_POLY, s1);
    var s3 := Step(CRC32C_POLY, s2);
    var s4 := Step(CRC32C_POLY, s3);
    var s5 := Step(CRC32C_POLY, s4);
    var s6 := Step(CRC32C_POLY, s5);
    var s7 := Step(CRC32C_POLY, s6);
    Step(CRC32C_POLY, s7)
  }

  lemma OneAtATime(c: bv32)
    ensures Steps(CRC32C_POLY, c, 8) == Eight(c)
  {
    hide Step;
    var s2 := Step(CRC32C_POLY, Step(CRC32C_POLY, c));
    var s4 := Step(CRC32C_POLY, Step(CRC32C_POLY, s2));
    var s6 := Step(CRC32C_POLY, Step(CRC32C_POLY, s4));
    assert Steps(CRC32C_POLY, c, 8) == Steps(CRC32C_POLY, s2, 6);
    assert Steps(CRC32C_POLY, s2, 6) == Steps(CRC32C_POLY, s4, 4);
    assert Steps(CRC32C_POLY, s4, 4) == Steps(CRC32C_POLY, s6, 2);
  }

  lemma OneByte(c: bv32, x: byte)
    ensures Crc.Crc(CRC32C_POLY, c, [x]) == Feed(CRC32C_POLY, c, x)
  {
    assert [x][..0] == [];
  }

  /** Feeding two bytes is feeding their word, least significant byte first. */
  lemma TwoBytes(c: bv32, x: byte, y: byte)
    ensures Crc.Crc(CRC32C_POLY, c, [x, y]) == Steps(CRC32C_POLY, Plus(c, Word16(x, y)), 16)
  {
    hide Steps, Plus;
    var a, b := Plus(c, x as bv32), (y as bv32) << 8;
    OneByte(c, x);
    CrcConcat(CRC32C_POLY, c, [x], [y]);
    OneByte(Crc.Crc(CRC32C_POLY, c, [x]), y);
    assert [x] + [y] == [x, y];
    assert Plus(c, Word16(x, y)) == Plus(a, b) by {
      WordBytes(x, y);
      PlusAssociates(c, x as bv32, b);
    }
    StepsCompose(Plus(a, b), 8, 8);
    StepsAreLinear(CRC32C_POLY, a, b, 8);
    EightAway(y);
  }

  // ---- The two halves, 32 bytes apart ----

  /** Thirty bytes' worth of steps. */
  lemma {:induction false} Thirty()
    ensures Steps(CRC32C_POLY, 1, 240) == 0x15bb4109
  {
    hide Steps, Eight;
    Chain1();
    Chain2();
    Chain3();
    StepsCompose(1, 80, 80);
    StepsCompose(1, 160, 80);
  }

  lemma TenBytes(c: bv32, c1: bv32, c2: bv32, c3: bv32, c4: bv32, c5: bv32, c6: bv32, c7: bv32, c8: bv32, c9: bv32,
                 c10: bv32)
    requires Eight(c) == c1 && Eight(c1) == c2 && Eight(c2) == c3 && Eight(c3) == c4 && Eight(c4) == c5
    requires Eight(c5) == c6 && Eight(c6) == c7 && Eight(c7) == c8 && Eight(c8) == c9 && Eight(c9) == c10
    ensures Steps(CRC32C_POLY, c, 80) == c10
  {
    hide Steps, Eight;
    OneAtATime(c);
    OneAtATime(c1);
    StepsCompose(c, 8, 8);
    OneAtATime(c2);
    StepsCompose(c, 16, 8);
    OneAtATime(c3);
    StepsCompose(c, 24, 8);
    OneAtATime(c4);
    StepsCompose(c, 32, 8);
    OneAtATime(c5);
    StepsCompose(c, 40, 8);
    OneAtATime(c6);
    StepsCompose(c, 48, 8);
    OneAtATime(c7);
    StepsCompose(c, 56, 8);
    OneAtATime(c8);
    StepsCompose(c, 64, 8);
    OneAtATime(c9);
    StepsCompose(c, 72, 8);
  }

  lemma EightBytes()
    ensures Steps(CRC32C_POLY, 1, 64) == 0x493C7D27
  {
    hide Steps, Eight;
    EightOfChain();
    OneAtATime(1);
    OneAtATime(0xf26b8303);
    StepsCompose(1, 8, 8);
    OneAtATime(0x13a29877);
    StepsCompose(1, 16, 8);
    OneAtATime(0xa541927e);
    StepsCompose(1, 24, 8);
    OneAtATime(0xdd45aab8);
    StepsCompose(1, 32, 8);
    OneAtATime(0x38116fac);
    StepsCompose(1, 40, 8);
    OneAtATime(0xef306b19);
    StepsCompose(1, 48, 8);
    OneAtATime(0x68032cc8);
    StepsCompose(1, 56, 8);
  }

  lemma EightOfChain()
    ensures Eight(1) == 0xf26b8303 && Eight(0xf26b8303) == 0x13a29877 && Eight(0x13a29877) == 0xa541927e
    ensures Eight(0xa541927e) == 0xdd45aab8 && Eight(0xdd45aab8) == 0x38116fac && Eight(0x38116fac) == 0xef306b19
    ensures Eight(0xef306b19) == 0x68032cc8 && Eight(0x68032cc8) == 0x493C7D27
  {}

  lemma Chain1()
    ensures Steps(CRC32C_POLY, 1, 80) == 0xcb567ba5
  {
    hide Steps;
    TenBytes(1, 0xf26b8303, 0x13a29877, 0xa541927e, 0xdd45aab8, 0x38116fac, 0xef306b19, 0x68032cc8, 0x493c7d27,
             0xf43ed648, 0xcb567ba5);
  }

  lemma Chain2()
    ensures Steps(CRC32C_POLY, 0xcb567ba5, 80) == 0x3743f7bd
  {
    hide Steps;
    TenBytes(0xcb567ba5, 0x9771f7c1, 0x3171d430, 0x30d23865, 0x54075546, 0x678efd01, 0xf20c0dfe, 0x5fe4dc5f,
             0x0f69022b, 0xb93b4ce7, 0x3743f7bd);
  }

  lemma Chain3()
    ensures Steps(CRC32C_POLY, 0x3743f7bd, 80) == 0x15bb4109
  {
    hide Steps;
    TenBytes(0x3743f7bd, 0x0d0a7ded, 0x5c15eeb4, 0x75d3f038, 0xba4fc28e, 0x2e34cb9d, 0x2dae840f, 0x5e3e92a0,
             0xa2158b34, 0xf7dbcb25, 0x15bb4109);
  }

  lemma ManyThenMore()
    ensures Steps(CRC32C_POLY, 0x8000, 256) == 0x882b9bfc
  {
    hide Steps;
    Fifteen();
    Thirty();
    StepsCompose(0x8000, 15, 240);
    StepsCompose(0x8000, 255, 1);
    OneMore(0x15bb4109);
  }

  lemma Fifteen()
    ensures Steps(CRC32C_POLY, 0x8000, 15) == 1
  {
    hide Steps, Step, Eight;
    EightShifts(0x8000);
    EightShifts(0x100);
    Shifted();
    OneAtATime(0x8000);
    OneAtATime(0x100);
    StepsCompose(0x100, 1, 7);
    OneMore(0x100);
    StepsCompose(0x8000, 8, 7);
  }

  lemma Shifted()
    ensures Step(CRC32C_POLY, 0x100) == 0x80
    ensures (0x8000 as bv32) >> 8 == 0x80 && (0x100 as bv32) >> 8 == 1
  {
    assert !Odd(0x100);
  }

  lemma OneMore(c: bv32)
    ensures Steps(CRC32C_POLY, c, 1) == Step(CRC32C_POLY, c)
  {
    hide Step;
  }

  // ---- Sixteen bits from the high half of what they became ----

  function Pick(c: bv32, r: bv32): bv32 {
    if Odd(c) then r else 0
  }

  /** The sum of the words at the bits of c that are set. */
  function Gather(c: bv32, words: seq<bv32>): bv32 {
    if words == [] then 0 else Plus(Pick(c, words[0]), Gather(Half(c), words[1..]))
  }

  lemma PickWords(a: bv32, b: bv32, r: bv32)
    ensures Pick(Plus(a, b), r) == Plus(Pick(a, r), Pick(b, r))
    ensures Half(Plus(a, b)) == Plus(Half(a), Half(b))
  {}

  lemma FourWords(a: bv32, b: bv32, c: bv32, d: bv32)
    ensures Plus(Plus(a, b), Plus(c, d)) == Plus(Plus(a, c), Plus(b, d))
  {
    hide Plus;
    PlusAssociates(a, b, Plus(c, d));
    PlusAssociates(b, c, d);
    PlusCommutes(b, c);
    PlusAssociates(c, b, d);
    PlusAssociates(a, c, Plus(b, d));
  }

  lemma {:induction false} GatherIsLinear(a: bv32, b: bv32, words: seq<bv32>)
    ensures Gather(Plus(a, b), words) == Plus(Gather(a, words), Gather(b, words))
    decreases |words|
  {
    hide Pick, Half, Plus;
    if words == [] {
      ZeroWords(0);
    } else {
      PickWords(a, b, words[0]);
      GatherIsLinear(Half(a), Half(b), words[1..]);
      FourWords(Pick(a, words[0]), Pick(b, words[0]), Gather(Half(a), words[1..]), Gather(Half(b), words[1..]));
    }
  }

  /** The bits of e, from the high half of what e has become after 256 steps. */
  const WORDS: seq<bv32> := [
    0xe85b, 0xa146, 0xdb27, 0x2fe5, 0xb791, 0x1ed2, 0xd5ff, 0xda0e,
    0x2db7, 0xb335, 0x179a, 0x2f34, 0xb633, 0x1d96, 0xd377, 0xd71e]

  function High16(c: bv32): bv32 { c >> 16 }

  function Undo(c: bv32): bv32 {
    Gather(High16(c), WORDS)
  }

  /** The same sum written out, its last eight terms first. */
  function WrittenUp(h8: bv32): bv32 {
    var h9 := Half(h8);
    var h10 := Half(h9);
    var h11 := Half(h10);
    var h12 := Half(h11);
    var h13 := Half(h12);
    var h14 := Half(h13);
    var h15 := Half(h14);
    var p15 := Pick(h15, 0xd71e);
    var p14 := Plus(Pick(h14, 0xd377), p15);
    var p13 := Plus(Pick(h13, 0x1d96), p14);
    var p12 := Plus(Pick(h12, 0xb633), p13);
    var p11 := Plus(Pick(h11, 0x2f34), p12);
    var p10 := Plus(Pick(h10, 0x179a), p11);
    var p9 := Plus(Pick(h9, 0xb335), p10);
    var p8 := Plus(Pick(h8, 0x2db7), p9);
    p8
  }

  function Written(h0: bv32): bv32 {
    var h1 := Half(h0);
    var h2 := Half(h1);
    var h3 := Half(h2);
    var h4 := Half(h3);
    var h5 := Half(h4);
    var h6 := Half(h5);
    var h7 := Half(h6);
    var h8 := Half(h7);
    var p8 := WrittenUp(h8);
    var p7 := Plus(Pick(h7, 0xda0e), p8);
    var p6 := Plus(Pick(h6, 0xd5ff), p7);
    var p5 := Plus(Pick(h5, 0x1ed2), p6);
    var p4 := Plus(Pick(h4, 0xb791), p5);
    var p3 := Plus(Pick(h3, 0x2fe5), p4);
    var p2 := Plus(Pick(h2, 0xdb27), p3);
    var p1 := Plus(Pick(h1, 0xa146), p2);
    var p0 := Plus(Pick(h0, 0xe85b), p1);
    p0
  }

  lemma HighWords(a: bv32, b: bv32)
    ensures High16(Plus(a, b)) == Plus(High16(a), High16(b)) && (a < 0x1_0000 ==> High16(a) == 0)
  {}

  lemma UndoIsLinear(a: bv32, b: bv32)
    ensures Undo(Plus(a, b)) == Plus(Undo(a), Undo(b))
  {
    hide Gather, Plus, High16;
    HighWords(a, b);
    GatherIsLinear(High16(a), High16(b), WORDS);
  }

  /** The sum without its first k words. */
  function From(h: bv32, k: nat): bv32
    requires k <= 16
  {
    Gather(h, WORDS[k..])
  }

  lemma GatherIsWrittenUp(h8: bv32)
    ensures From(h8, 8) == WrittenUp(h8)
  {
    hide Pick, Plus, Half, From;
    var h9 := Half(h8);
    var h10 := Half(h9);
    var h11 := Half(h10);
    var h12 := Half(h11);
    var h13 := Half(h12);
    var h14 := Half(h13);
    var h15 := Half(h14);
    ZeroWords(Pick(h15, 0xd71e));
    PlusCommutes(0, Pick(h15, 0xd71e));
    Unfold(h15, 15, 0xd71e);
    Unfold(h14, 14, 0xd377);
    Unfold(h13, 13, 0x1d96);
    Unfold(h12, 12, 0xb633);
    Unfold(h11, 11, 0x2f34);
    Unfold(h10, 10, 0x179a);
    Unfold(h9, 9, 0xb335);
    Unfold(h8, 8, 0x2db7);
  }

  lemma GatherIsWritten(h0: bv32)
    ensures From(h0, 0) == Written(h0)
  {
    hide Pick, Plus, Half, From, WrittenUp;
    var h1 := Half(h0);
    var h2 := Half(h1);
    var h3 := Half(h2);
    var h4 := Half(h3);
    var h5 := Half(h4);
    var h6 := Half(h5);
    var h7 := Half(h6);
    var h8 := Half(h7);
    GatherIsWrittenUp(h8);
    Unfold(h7, 7, 0xda0e);
    Unfold(h6, 6, 0xd5ff);
    Unfold(h5, 5, 0x1ed2);
    Unfold(h4, 4, 0xb791);
    Unfold(h3, 3, 0x2fe5);
    Unfold(h2, 2, 0xdb27);
    Unfold(h1, 1, 0xa146);
    Unfold(h0, 0, 0xe85b);
  }

  lemma AllWords(h: bv32)
    ensures From(h, 0) == Gather(h, WORDS)
  {
    hide Gather;
    assert WORDS[0..] == WORDS;
  }

  lemma Unfold(h: bv32, k: nat, w: bv32)
    requires k < 16 && WORDS[k] == w
    ensures From(h, k) == Plus(Pick(h, w), From(Half(h), k + 1)) && From(Half(h), 16) == 0
  {
    hide Pick, Plus, Half;
    assert WORDS[k..][1..] == WORDS[k + 1..];
  }

  /** Undoing returns the bits from the lowest to m. */
  ghost predicate Returns(e: bv32, low: bv32) {
    Undo(Steps(CRC32C_POLY, e & low, 256)) == e & low
  }

  lemma OneMoreBit(e: bv32, m: bv32, low: bv32, all: bv32, c: bv32)
    requires Column(m, c) && Returns(e, low)
    requires Adds(m, low, all)
    ensures Returns(e, all)
  {
    hide Steps, Plus, Undo, Adds;
    MaskWords(e, m, low, all);
    StepsAreLinear(CRC32C_POLY, e & m, e & low, 256);
    UndoIsLinear(Steps(CRC32C_POLY, e & m, 256), Steps(CRC32C_POLY, e & low, 256));
    StepsOfZero(256);
    UndoOfZero();
  }

  /** One bit more. */
  predicate Adds(m: bv32, low: bv32, all: bv32) {
    m & low == 0 && m | low == all && m & (m - 1) == 0
  }

  lemma MaskWords(e: bv32, m: bv32, low: bv32, all: bv32)
    requires Adds(m, low, all)
    ensures e & all == Plus(e & m, e & low)
    ensures e & m == 0 || e & m == m
  {
    ABitOrNot(e, m);
    Disjoint(e, m, low);
  }

  lemma Disjoint(e: bv32, m: bv32, low: bv32)
    requires m & low == 0
    ensures e & (m | low) == Plus(e & m, e & low)
  {}

  lemma ABitOrNot(e: bv32, m: bv32)
    requires m & (m - 1) == 0
    ensures e & m == 0 || e & m == m
  {}

  lemma UndoOfZero()
    ensures Undo(0) == 0
  {
    hide Undo, Plus;
    ZeroWords(0);
    ZeroWords(Undo(0));
    UndoIsLinear(0, 0);
  }

  /** What each of the sixteen bits becomes, and that undoing returns it. */
  lemma OneBitReturns(m: bv32, c: bv32)
    requires Written(High16(c)) == m
    ensures Undo(c) == m
  {
    hide Written, Gather, High16, From;
    GatherIsWritten(High16(c));
    AllWords(High16(c));
  }

  /** What a bit becomes, and that undoing returns it. */
  ghost predicate Column(m: bv32, c: bv32) {
    Steps(CRC32C_POLY, m, 256) == c && Undo(c) == m
  }

  /** The bit below is a step ahead. */
  lemma Below(m: bv32, c: bv32, half: bv32, d: bv32)
    requires Column(m, c) && Step(CRC32C_POLY, m) == half && Step(CRC32C_POLY, c) == d && Written(High16(d)) == half
    ensures Column(half, d)
  {
    hide Steps, Step, Written, Gather, High16;
    OneMore(m);
    OneMore(c);
    StepsCompose(m, 1, 256);
    StepsCompose(m, 256, 1);
    OneBitReturns(half, d);
  }

  lemma TopColumn()
    ensures Column(0x8000, 0x882b9bfc)
  {
    hide Steps, Gather;
    ManyThenMore();
    OneBitReturns(0x8000, 0x882b9bfc);
  }

  lemma UpperColumns()
    ensures Column(0x8000, 0x882b9bfc)
         && Column(0x4000, 0x4415cdfe)
         && Column(0x2000, 0x220ae6ff)
         && Column(0x1000, 0x93f34807)
         && Column(0x800, 0xcb0f9f7b)
         && Column(0x400, 0xe771f4c5)
         && Column(0x200, 0xf14ec11a)
         && Column(0x100, 0x78a7608d)
  {
    hide Column;
    TopColumn();
    Below(0x8000, 0x882b9bfc, 0x4000, 0x4415cdfe);
    Below(0x4000, 0x4415cdfe, 0x2000, 0x220ae6ff);
    Below(0x2000, 0x220ae6ff, 0x1000, 0x93f34807);
    Below(0x1000, 0x93f34807, 0x800, 0xcb0f9f7b);
    Below(0x800, 0xcb0f9f7b, 0x400, 0xe771f4c5);
    Below(0x400, 0xe771f4c5, 0x200, 0xf14ec11a);
    Below(0x200, 0xf14ec11a, 0x100, 0x78a7608d);
  }

  lemma LowerColumns()
    requires Column(0x100, 0x78a7608d)
    ensures Column(0x80, 0xbea58b3e)
         && Column(0x40, 0x5f52c59f)
         && Column(0x20, 0xad5f59b7)
         && Column(0x10, 0xd45997a3)
         && Column(0x8, 0xe8daf0a9)
         && Column(0x4, 0xf69b432c)
         && Column(0x2, 0x7b4da196)
         && Column(0x1, 0x3da6d0cb)
  {
    hide Column;
    Below(0x100, 0x78a7608d, 0x80, 0xbea58b3e);
    Below(0x80, 0xbea58b3e, 0x40, 0x5f52c59f);
    Below(0x40, 0x5f52c59f, 0x20, 0xad5f59b7);
    Below(0x20, 0xad5f59b7, 0x10, 0xd45997a3);
    Below(0x10, 0xd45997a3, 0x8, 0xe8daf0a9);
    Below(0x8, 0xe8daf0a9, 0x4, 0xf69b432c);
    Below(0x4, 0xf69b432c, 0x2, 0x7b4da196);
    Below(0x2, 0x7b4da196, 0x1, 0x3da6d0cb);
  }

  lemma LowerReturns(e: bv32)
    requires Column(0x80, 0xbea58b3e)
         && Column(0x40, 0x5f52c59f)
         && Column(0x20, 0xad5f59b7)
         && Column(0x10, 0xd45997a3)
         && Column(0x8, 0xe8daf0a9)
         && Column(0x4, 0xf69b432c)
         && Column(0x2, 0x7b4da196)
         && Column(0x1, 0x3da6d0cb)
    ensures Returns(e, 0xff)
  {
    hide Returns, Column;
    NothingReturns(e);
    OneMoreBit(e, 0x1, 0x0, 0x1, 0x3da6d0cb);
    OneMoreBit(e, 0x2, 0x1, 0x3, 0x7b4da196);
    OneMoreBit(e, 0x4, 0x3, 0x7, 0xf69b432c);
    OneMoreBit(e, 0x8, 0x7, 0xf, 0xe8daf0a9);
    OneMoreBit(e, 0x10, 0xf, 0x1f, 0xd45997a3);
    OneMoreBit(e, 0x20, 0x1f, 0x3f, 0xad5f59b7);
    OneMoreBit(e, 0x40, 0x3f, 0x7f, 0x5f52c59f);
    OneMoreBit(e, 0x80, 0x7f, 0xff, 0xbea58b3e);
  }

  lemma UpperReturns(e: bv32)
    requires Returns(e, 0xff)
    requires Column(0x8000, 0x882b9bfc)
         && Column(0x4000, 0x4415cdfe)
         && Column(0x2000, 0x220ae6ff)
         && Column(0x1000, 0x93f34807)
         && Column(0x800, 0xcb0f9f7b)
         && Column(0x400, 0xe771f4c5)
         && Column(0x200, 0xf14ec11a)
         && Column(0x100, 0x78a7608d)
    ensures Returns(e, 0xffff)
  {
    hide Returns, Column;
    OneMoreBit(e, 0x100, 0xff, 0x1ff, 0x78a7608d);
    OneMoreBit(e, 0x200, 0x1ff, 0x3ff, 0xf14ec11a);
    OneMoreBit(e, 0x400, 0x3ff, 0x7ff, 0xe771f4c5);
    OneMoreBit(e, 0x800, 0x7ff, 0xfff, 0xcb0f9f7b);
    OneMoreBit(e, 0x1000, 0xfff, 0x1fff, 0x93f34807);
    OneMoreBit(e, 0x2000, 0x1fff, 0x3fff, 0x220ae6ff);
    OneMoreBit(e, 0x4000, 0x3fff, 0x7fff, 0x4415cdfe);
    OneMoreBit(e, 0x8000, 0x7fff, 0xffff, 0x882b9bfc);
  }

  lemma UndoSteps(e: bv32)
    requires e < 0x1_0000
    ensures Undo(Steps(CRC32C_POLY, e, 256)) == e
  {
    hide Steps, Undo, Column, Returns;
    UpperColumns();
    LowerColumns();
    LowerReturns(e);
    UpperReturns(e);
    AllSixteen(e);
  }

  lemma NothingReturns(e: bv32)
    ensures Returns(e, 0)
  {
    hide Undo, Steps;
    assert e & 0 == 0;
    StepsOfZero(256);
    UndoOfZero();
  }

  lemma AllSixteen(e: bv32)
    requires e < 0x1_0000 && Returns(e, 0xFFFF)
    ensures Undo(Steps(CRC32C_POLY, e, 256)) == e
  {
    hide Undo, Steps;
    assert e & 0xFFFF == e;
  }

  /** No sixteen bits but zero become sixteen bits again after 32 bytes. */
  lemma HalvesShow(e: bv32)
    requires e < 0x1_0000 && Steps(CRC32C_POLY, e, 256) < 0x1_0000
    ensures e == 0
  {
    hide Steps, Undo;
    UndoSteps(e);
    UndoOfSmall(Steps(CRC32C_POLY, e, 256));
  }

  lemma UndoOfSmall(c: bv32)
    requires c < 0x1_0000
    ensures Undo(c) == 0
  {
    hide Gather, High16;
    HighWords(c, c);
    UndoOfZero();
    HighWords(0, 0);
  }

  lemma SumIsZero(a: bv32, b: bv32)
    ensures Plus(a, b) == 0 <==> a == b
  {}

  /** A change confined to two pairs of bytes that start 32 bytes apart is never lost. */
  lemma FourBytesShow(a: byte, b: byte, c: byte, d: byte)
    requires Crc.Crc(CRC32C_POLY, 0, [a, b] + Zeros(30) + [c, d]) == 0
    ensures a == b == c == d == 0
  {
    hide Crc.Crc, Steps, Plus, Word16;
    var x, y := Word16(a, b), Word16(c, d);
    CrcConcat(CRC32C_POLY, 0, [a, b] + Zeros(30), [c, d]);
    CrcConcat(CRC32C_POLY, 0, [a, b], Zeros(30));
    TwoBytes(0, a, b);
    ZeroWords(x);
    CrcOfZeros(Steps(CRC32C_POLY, x, 16), 30);
    StepsCompose(x, 16, 240);
    var far := Steps(CRC32C_POLY, x, 256);
    TwoBytes(far, c, d);
    StepsOfZero(16);
    StepsInjective(Plus(far, y), 0, 16);
    SumIsZero(far, y);
    WordBytes(a, b);
    WordBytes(c, d);
    HalvesShow(x);
    StepsOfZero(256);
  }

  lemma Surrounded(before: nat, e: seq<byte>, after: nat)
    ensures Crc.Crc(CRC32C_POLY, 0, Zeros(before) + e + Zeros(after)) == 0 <==> Crc.Crc(CRC32C_POLY, 0, e) == 0
  {
    hide Crc.Crc, Steps;
    CrcConcat(CRC32C_POLY, 0, Zeros(before) + e, Zeros(after));
    CrcConcat(CRC32C_POLY, 0, Zeros(before), e);
    CrcOfZeros(0, before);
    StepsOfZero(8 * before);
    CrcOfZeros(Crc.Crc(CRC32C_POLY, 0, e), after);
    StepsOfZero(8 * after);
    if Crc.Crc(CRC32C_POLY, 0, Zeros(before) + e + Zeros(after)) == 0 {
      StepsInjective(Crc.Crc(CRC32C_POLY, 0, e), 0, 8 * after);
    }
  }

  /** The same wherever the message starts and ends among those bytes: e holds the bytes from `from` on. */
  lemma SparseShows(e: seq<byte>, from: nat, lo: nat)
    requires Crc.Crc(CRC32C_POLY, 0, e) == 0
    requires forall i :: 0 <= i < |e| && e[i] != 0 ==> lo <= from + i < lo + 2 || lo + 32 <= from + i < lo + 34
    ensures forall i :: 0 <= i < |e| ==> e[i] == 0
  {
    hide Crc.Crc;
    var end := from + |e|;
    var first, last := if from < lo then from else lo, if end > lo + 34 then end else lo + 34;
    var wide := Zeros(from - first) + e + Zeros(last - end);
    Surrounded(from - first, e, last - end);
    WideShows(wide, lo - first);
    forall i | 0 <= i < |e| ensures e[i] == 0 {
      assert wide[from - first + i] == e[i];
    }
  }

  lemma WideShows(wide: seq<byte>, at: nat)
    requires Crc.Crc(CRC32C_POLY, 0, wide) == 0 && at + 34 <= |wide|
    requires forall i :: 0 <= i < |wide| && wide[i] != 0 ==> at <= i < at + 2 || at + 32 <= i < at + 34
    ensures wide[at] == wide[at + 1] == wide[at + 32] == wide[at + 33] == 0
  {
    hide Crc.Crc;
    var a, b, c, d := wide[at], wide[at + 1], wide[at + 32], wide[at + 33];
    var mid := [a, b] + Zeros(30) + [c, d];
    assert wide == Zeros(at) + mid + Zeros(|wide| - at - 34);
    Surrounded(at, mid, |wide| - at - 34);
    FourBytesShow(a, b, c, d);
  }

  // ---- The last bytes, and half of the register ----

  function Low16(c: bv32): bv32 { c & 0xFFFF }

  function Rest(c: bv32): bv32 { c >> 8 }

  function LastByte(c: bv32): byte { (c & 0xFF) as byte }

  /** In the low half a change of the last byte is never lost. */
  lemma LastByteShows(x: byte)
    ensures Low16(Crc.Crc(CRC32C_POLY, 0, [x])) == 0 <==> x == 0
  {
    hide Crc.Crc, Steps, Plus, Low16, Eight;
    OneByte(0, x);
    ZeroWords(x as bv32);
    OneAtATime(x as bv32);
    LowOfOneByte(x);
  }

  lemma LowOfOneByte(x: byte)
    ensures Low16(Eight(x as bv32)) == 0 <==> x == 0
  {}

  /** What must hold of the first byte fed, and of what is in the last byte of the register before the second eight
      steps, for the low half to end at zero. */
  ghost predicate Vanishes(x: byte, z: byte) {
    Low16(Eight(z as bv32)) == Low16(Rest(Eight(x as bv32)))
  }

  lemma EndsIn0(x: byte, z: byte)
    requires x & 7 == 0 && Vanishes(x, z)
    ensures x == z == 0
  {}

  lemma EndsIn2(x: byte, z: byte)
    requires x & 7 == 2
    ensures !Vanishes(x, z)
  {}

  lemma EndsIn4(x: byte, z: byte)
    requires x & 7 == 4
    ensures !Vanishes(x, z)
  {}

  lemma EndsIn6(x: byte, z: byte)
    requires x & 7 == 6
    ensures !Vanishes(x, z)
  {}

  lemma EvenEnds(x: byte)
    requires x & 1 == 0
    ensures x & 7 == 0 || x & 7 == 2 || x & 7 == 4 || x & 7 == 6
  {}

  lemma EvenVanishes(x: byte, z: byte)
    requires x & 1 == 0 && Vanishes(x, z)
    ensures x == z == 0
  {
    hide Vanishes;
    EvenEnds(x);
    if x & 7 == 0 { EndsIn0(x, z); }
    if x & 7 == 2 { EndsIn2(x, z); }
    if x & 7 == 4 { EndsIn4(x, z); }
    if x & 7 == 6 { EndsIn6(x, z); }
  }

  lemma SplitLast(c: bv32)
    ensures c == Plus(LastByte(c) as bv32, c & 0xFFFF_FF00)
    ensures (c & 0xFFFF_FF00) & 0xFF == 0 && (c & 0xFFFF_FF00) >> 8 == Rest(c)
  {}

  /** Eight steps take the last byte of the register and shift the rest. */
  lemma EightIsSplit(c: bv32)
    ensures Eight(c) == Plus(Eight(LastByte(c) as bv32), Rest(c))
  {
    hide Steps, Plus, Eight, LastByte, Rest;
    var z, rest := LastByte(c) as bv32, c & 0xFFFF_FF00;
    SplitLast(c);
    StepsAreLinear(CRC32C_POLY, z, rest, 8);
    OneAtATime(c);
    OneAtATime(z);
    OneAtATime(rest);
    EightShifts(rest);
  }

  lemma SmallWords(w: bv32, r: bv32)
    requires w < 0x1_0000
    ensures Rest(Plus(r, Rest(w))) == Rest(r)
    ensures r == 0 && LastByte(Plus(r, Rest(w))) == 0 && LastByte(w) == 0 ==> w == 0
    ensures LastByte(w) & 1 == (w & 1) as byte
  {}

  lemma LowOfSum(a: bv32, b: bv32)
    ensures Low16(Plus(a, b)) == 0 <==> Low16(a) == Low16(b)
  {
    LowAdds(a, b);
    SumIsZero(Low16(a), Low16(b));
  }

  lemma LowAdds(a: bv32, b: bv32)
    ensures Low16(Plus(a, b)) == Plus(Low16(a), Low16(b))
  {}

  lemma EightOfZero()
    ensures Eight(0) == 0
  {}

  lemma EvenWordShows(w: bv32)
    requires w < 0x1_0000 && w & 1 == 0 && Low16(Eight(Eight(w))) == 0
    ensures w == 0
  {
    hide Eight, Plus, LastByte, Low16, Rest;
    var x := LastByte(w);
    var r := Eight(x as bv32);
    EightIsSplit(w);
    var z := LastByte(Plus(r, Rest(w)));
    EightIsSplit(Plus(r, Rest(w)));
    SmallWords(w, r);
    LowOfSum(Eight(z as bv32), Rest(r));
    assert Vanishes(x, z);
    hide Vanishes;
    EvenVanishes(x, z);
    EightOfZero();
  }

  lemma HiddenWords(w: bv32)
    requires w < 0x1_0000
    ensures Plus(w, 0x904D) < 0x1_0000 && (w & 1 != 0 ==> Plus(w, 0x904D) & 1 == 0)
    ensures Plus(w, 0x904D) == 0 <==> w == 0x904D
    ensures Low16(Eight(Eight(0x904D))) == 0
  {}

  /** Of the sixteen bits fed last, one pattern other than zero leaves the low half of the register at zero. */
  lemma WordMayHide(w: bv32)
    requires w < 0x1_0000
    ensures Low16(Steps(CRC32C_POLY, w, 16)) == 0 <==> w == 0 || w == 0x904D
  {
    hide Steps, Eight, Plus, Low16;
    var v := Plus(w, 0x904D);
    HiddenWords(w);
    TwiceEight(w);
    TwiceEight(v);
    TwiceEight(0x904D);
    StepsAreLinear(CRC32C_POLY, w, 0x904D, 16);
    LowOfSum(Steps(CRC32C_POLY, w, 16), Steps(CRC32C_POLY, 0x904D, 16));
    StepsOfZero(16);
    LowOfZero();
    if Low16(Steps(CRC32C_POLY, w, 16)) == 0 {
      if w & 1 == 0 {
        EvenWordShows(w);
      } else {
        EvenWordShows(v);
      }
    }
  }

  lemma LowOfZero()
    ensures Low16(0) == 0
  {}

  lemma TwiceEight(w: bv32)
    ensures Steps(CRC32C_POLY, w, 16) == Eight(Eight(w))
  {
    hide Steps, Eight;
    StepsCompose(w, 8, 8);
    OneAtATime(w);
    OneAtATime(Eight(w));
  }

  predicate Unseen(x: byte, y: byte) {
    (x == 0 && y == 0) || (x == 0x4D && y == 0x90)
  }

  /** In the low half alone one change of the last two bytes is lost, and only one. */
  lemma TwoBytesMayHide(x: byte, y: byte)
    ensures Low16(Crc.Crc(CRC32C_POLY, 0, [x, y])) == 0 <==> Unseen(x, y)
  {
    hide Crc.Crc, Steps, Plus, Low16;
    TwoBytes(0, x, y);
    ZeroWords(Word16(x, y));
    WordBytes(x, y);
    WordMayHide(Word16(x, y));
    hide Word16;
    HiddenWord(x, y);
  }

  lemma HiddenWord(x: byte, y: byte)
    ensures Word16(x, y) == 0x904D <==> x == 0x4D && y == 0x90
  {}
}

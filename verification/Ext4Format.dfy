/**
 Where the stamper finds things, said over the bytes of the image (tools/fuzz/ext4_csum.c): every field is the bytes its
 number is written as, at its place in the format.
 */
module Ext4Format {
  import opened Bytes
  import opened Crc
  import opened CrcBurst
  import opened Ext4Csum
  import opened Wrappers
  import Arith

  // ---- Numbers ----

  /** The least significant byte comes first. */
  lemma LittleEndian()
    ensures Le32(0x0403_0201) == [1, 2, 3, 4] && Le16(0x0201) == [1, 2]
  {}

  ghost predicate Is32(img: seq<byte>, at: nat, v: bv32) {
    at + 4 <= |img| && img[at..at + 4] == Le32(v)
  }

  ghost predicate Is16(img: seq<byte>, at: nat, v: bv32) {
    at + 2 <= |img| && img[at..at + 2] == Le16(v) && v < 0x1_0000
  }

  lemma Reads32(img: seq<byte>, at: nat, v: bv32)
    requires Is32(img, at, v)
    ensures Rd32(img, at) == v
  {
    hide Word32, Word16, ByteAt;
    FieldWords(v);
    var s := img[at..at + 4];
    assert img[at] == s[0] && img[at + 1] == s[1] && img[at + 2] == s[2] && img[at + 3] == s[3];
  }

  lemma Reads16(img: seq<byte>, at: nat, v: bv32)
    requires Is16(img, at, v)
    ensures Rd16(img, at) == v
  {
    hide Word32, Word16, ByteAt;
    FieldWords(v);
    SmallIsLow(v);
    var s := img[at..at + 2];
    assert img[at] == s[0] && img[at + 1] == s[1];
  }

  /** A flag in the low byte of a word. */
  lemma LowFlags(a: byte, b: byte)
    ensures Has(Word16(a, b), 1) <==> a & 1 != 0
    ensures Has(Word16(a, b), 2) <==> a & 2 != 0
  {}

  /** A block number: the high half counts in a 64-byte descriptor alone. */
  ghost function BlockNumber(L: Layout, lo: bv32, hi: bv32): nat {
    lo as nat + if L.descSize == 64 then 0x1_0000_0000 * hi as nat else 0
  }

  ghost predicate NamesBlock(L: Layout, img: seq<byte>, loAt: nat, hiAt: nat, lo: bv32, hi: bv32) {
    Is32(img, loAt, lo) && (L.descSize == 64 ==> Is32(img, hiAt, hi))
  }

  // ---- Bitmaps ----

  /** The stored checksum: two bytes, and two more when the descriptor has room for them. */
  ghost predicate IsStored(img: seq<byte>, loAt: nat, hiAt: nat, wide: bool, v: bv32) {
    if wide then Is16(img, loAt, Low16(v)) && Is16(img, hiAt, High16(v)) else Is16(img, loAt, v)
  }

  lemma StoredIsThere(img: seq<byte>, s: Slot)
    requires s.Fits(|img|)
    ensures IsStored(img, s.lo, s.hi, s.wide, Stored(img, s))
  {
    hide Word16, Le16, Both, Low16, High16;
    WordIsThere(img, s.lo);
    if s.wide {
      WordIsThere(img, s.hi);
      BothBack(Rd16(img, s.lo), Rd16(img, s.hi));
    }
    hide Rd16, Is16;
  }

  lemma WordIsThere(img: seq<byte>, at: nat)
    requires at + 2 <= |img|
    ensures Is16(img, at, Rd16(img, at)) && Rd16(img, at) < 0x1_0000
  {
    WordsBack(img[at], img[at + 1]);
    hide Word16, Le16;
    assert img[at..at + 2] == [img[at], img[at + 1]];
  }

  lemma WordsBack(a: byte, b: byte)
    ensures Le16(Word16(a, b)) == [a, b] && Word16(a, b) < 0x1_0000
  {}

  lemma BothBack(lo: bv32, hi: bv32)
    requires lo < 0x1_0000 && hi < 0x1_0000
    ensures Low16(Both(lo, hi)) == lo && High16(Both(lo, hi)) == hi
  {}

  /** The block bitmap: there is one on the medium when flag 2 of the group is clear, at the block that the descriptor
      names, as many bits as the group has blocks; its checksum is at 0x18 of the descriptor and from 58 bytes on also
      at 0x38. Nothing is checked or stamped otherwise. */
  lemma BlockBitmap(L: Layout, img: seq<byte>, g: U32, d: nat, lo: bv32, hi: bv32)
    requires Sane(L) && DescOffset(L, img, g) == Some(d)
    requires NamesBlock(L, img, d + 0x00, d + 0x20, lo, hi)
    ensures var at, size := BlockNumber(L, lo, hi) * L.blockSize % TWO64, L.blocksPerGroup / 8;
            if !L.metadataCsum || img[d + 0x12] & 2 != 0 || at + size > |img| then
              CheckBitmap(L, img, g, true) == None && StampBitmap(L, img, g, true) == None
            else
              var v := Crc32c(L.csumSeed, img[at..at + size]);
              ChecksBitmap(L, img, g, true, v, d + 0x18, d + 0x38, L.descSize >= 58)
  {
    hide ChecksBitmap, DescBlock, BlockNumber, DescOffset, Word16, Has;
    var at, size := BlockNumber(L, lo, hi) * L.blockSize % TWO64, L.blocksPerGroup / 8;
    BlockIsNamed(L, img, d, 0x00, 0x20, lo, hi);
    LowFlags(img[d + 0x12], img[d + 0x13]);
    if L.metadataCsum && img[d + 0x12] & 2 == 0 && at + size <= |img| {
      BitmapIsChecked(L, img, g, true, d, at, size);
    }
  }

  /** The same for the inode bitmap: flag 1, named at 0x04, a bit for each inode, its checksum at 0x1A and from 60 bytes
      on at 0x3A. */
  lemma InodeBitmap(L: Layout, img: seq<byte>, g: U32, d: nat, lo: bv32, hi: bv32)
    requires Sane(L) && DescOffset(L, img, g) == Some(d)
    requires NamesBlock(L, img, d + 0x04, d + 0x24, lo, hi)
    ensures var at, size := BlockNumber(L, lo, hi) * L.blockSize % TWO64, (L.inodesPerGroup + 7) / 8;
            if !L.metadataCsum || img[d + 0x12] & 1 != 0 || at + size > |img| then
              CheckBitmap(L, img, g, false) == None && StampBitmap(L, img, g, false) == None
            else
              var v := Crc32c(L.csumSeed, img[at..at + size]);
              ChecksBitmap(L, img, g, false, v, d + 0x1A, d + 0x3A, L.descSize >= 60)
  {
    hide ChecksBitmap, DescBlock, BlockNumber, DescOffset, Word16, Has;
    var at, size := BlockNumber(L, lo, hi) * L.blockSize % TWO64, (L.inodesPerGroup + 7) / 8;
    BlockIsNamed(L, img, d, 0x04, 0x24, lo, hi);
    LowFlags(img[d + 0x12], img[d + 0x13]);
    if L.metadataCsum && img[d + 0x12] & 1 == 0 && at + size <= |img| {
      BitmapIsChecked(L, img, g, false, d, at, size);
    }
  }

  /** The check compares what is stored there with v, or with its low half, and the stamp stores v there. */
  ghost predicate ChecksBitmap(
      L: Layout, img: seq<byte>, g: U32, blockMap: bool, v: bv32, loAt: nat, hiAt: nat, wide: bool)
    requires Sane(L)
  {
    && CheckBitmap(L, img, g, blockMap).Some?
    && CheckBitmap(L, img, g, blockMap).value.want == (if wide then v else Low16(v))
    && IsStored(img, loAt, hiAt, wide, CheckBitmap(L, img, g, blockMap).value.stored)
    && StampBitmap(L, img, g, blockMap).Some?
    && Stamps(img, StampBitmap(L, img, g, blockMap).value, loAt, hiAt, wide, v)
  }

  /** The checksum is there and nothing else is different. */
  ghost predicate Stamps(a: seq<byte>, b: seq<byte>, loAt: nat, hiAt: nat, wide: bool, v: bv32) {
    && |a| == |b| && IsStored(b, loAt, hiAt, wide, if wide then v else Low16(v))
    && forall k :: 0 <= k < |a| && !(loAt <= k < loAt + 2) && !(wide && hiAt <= k < hiAt + 2) ==> a[k] == b[k]
  }

  lemma StampIsThere(img: seq<byte>, s: Slot, v: bv32)
    requires s.Fits(|img|)
    ensures Stamps(img, Put(img, s, v), s.lo, s.hi, s.wide, v)
  {
    hide Put, Stored;
    PutThenStored(img, s, v);
    StoredIsThere(Put(img, s, v), s);
  }

  lemma BlockIsNamed(L: Layout, img: seq<byte>, d: nat, loAt: nat, hiAt: nat, lo: bv32, hi: bv32)
    requires 32 <= L.descSize <= 64 && InRange(img, d, L.descSize) && loAt <= 28 && hiAt <= 60
    requires NamesBlock(L, img, d + loAt, d + hiAt, lo, hi)
    ensures DescBlock(L, img, d, loAt, hiAt) == BlockNumber(L, lo, hi)
  {
    hide Rd32;
    Reads32(img, d + loAt, lo);
    if L.descSize == 64 { Reads32(img, d + hiAt, hi); }
  }

  /** A bitmap that is on the medium is checked and stamped. */
  lemma BitmapIsChecked(L: Layout, img: seq<byte>, g: U32, blockMap: bool, d: nat, at: nat, size: nat)
    requires Sane(L) && L.metadataCsum && DescOffset(L, img, g) == Some(d)
    requires BitmapRegion(L, img, g, blockMap) == Some((at, size))
    ensures var v := Crc32c(L.csumSeed, img[at..at + size]);
            if blockMap then ChecksBitmap(L, img, g, true, v, d + 0x18, d + 0x38, L.descSize >= 58)
            else ChecksBitmap(L, img, g, false, v, d + 0x1A, d + 0x3A, L.descSize >= 60)
  {
    hide BitmapRegion, Crc32c, Stored, Put, Low16;
    var s := BitmapSlot(L, d, blockMap);
    StoredIsThere(img, s);
    StampIsThere(img, s, Crc32c(L.csumSeed, img[at..at + size]));
    hide IsStored, Stamps;
  }

  // ---- Inodes ----

  /** The inode with its stored checksum, low half and perhaps high half, taken out. */
  ghost predicate WithoutChecksum(z: seq<byte>, inode: seq<byte>, wide: bool) {
    && |z| == |inode|
    && forall k :: 0 <= k < |z| ==>
         z[k] == if 0x7C <= k < 0x7E || (wide && 0x82 <= k < 0x84) then 0 else inode[k]
  }

  lemma ZeroedIsWithout(inode: seq<byte>, wide: bool)
    requires |inode| >= 128 && (wide ==> |inode| >= 256)
    ensures WithoutChecksum(Zeroed(inode, wide), inode, wide)
  {}

  lemma WithoutIsZeroed(z: seq<byte>, inode: seq<byte>, wide: bool)
    requires |inode| >= 128 && (wide ==> |inode| >= 256) && WithoutChecksum(z, inode, wide)
    ensures z == Zeroed(inode, wide)
  {}

  /** An inode is in its group's table, which begins at the block that the descriptor names at 0x08: the groups have the
      same number of inodes, and the first is inode 1. */
  lemma InodeIsThere(L: Layout, img: seq<byte>, ino: U32, d: nat, lo: bv32, hi: bv32)
    requires Sane(L) && L.ok && ino > 0 && DescOffset(L, img, (ino - 1) / L.inodesPerGroup) == Some(d)
    requires NamesBlock(L, img, d + 0x08, d + 0x28, lo, hi)
    ensures var at := (BlockNumber(L, lo, hi) * L.blockSize + (ino - 1) % L.inodesPerGroup * L.inodeSize) % TWO64;
            InodeOffset(L, img, ino) ==
              if 0 < L.inodesCount < ino || at + L.inodeSize > |img| then None else Some(at)
  {
    hide DescBlock, BlockNumber, DescOffset;
    BlockIsNamed(L, img, d, 0x08, 0x28, lo, hi);
    SumWraps(BlockNumber(L, lo, hi) * L.blockSize, (ino - 1) % L.inodesPerGroup * L.inodeSize);
  }

  lemma SumWraps(a: nat, b: nat)
    ensures U64(U64(a) + U64(b)) == (a + b) % TWO64
  {}

  /** Its checksum is at 0x7C, and at 0x82 when the extra size at 0x80 reaches that far; it is taken over the inode's
      number, its generation at 0x64 and the inode without it. Inodes above 4096 bytes have none here. */
  lemma InodeIsChecked(L: Layout, img: seq<byte>, ino: U32, at: nat, extra: bv32, z: seq<byte>)
    requires Sane(L) && InodeOffset(L, img, ino) == Some(at) && L.metadataCsum && L.inodeSize <= 4096
    requires L.inodeSize > 128 ==> Is16(img, at + 0x80, extra)
    requires WithoutChecksum(z, img[at..at + L.inodeSize], L.inodeSize > 128 && extra >= 4)
    ensures var wide, check := L.inodeSize > 128 && extra >= 4, CheckInode(L, img, ino);
            var v := Crc32c(L.csumSeed, Le32(ino as bv32) + img[at + 0x64..at + 0x68] + z);
            && check.Some? && check.value.want == (if wide then v else Low16(v))
            && IsStored(img, at + 0x7C, at + 0x82, wide, check.value.stored)
            && StampInode(L, img, ino).Some?
            && Stamps(img, StampInode(L, img, ino).value, at + 0x7C, at + 0x82, wide, v)
  {
    hide InodeOffset, Crc32c, Stored, Put, Zeroed, Word16, Low16, High16, ByteAt;
    var wide := L.inodeSize > 128 && extra >= 4;
    if L.inodeSize > 128 { Reads16(img, at + 0x80, extra); }
    assert HasHi(L, img, at) == wide;
    WithoutIsZeroed(z, img[at..at + L.inodeSize], wide);
    InodeCsumIsOneCrc(L, img, ino);
    StoredIsThere(img, InodeSlot(L, img, at));
    StampIsThere(img, InodeSlot(L, img, at), InodeCsum(L, img, ino).value);
    hide IsStored, Stamps;
  }

  /** Nothing is checked or stamped without metadata_csum, nor in an inode that large. */
  lemma NoInodeChecksum(L: Layout, img: seq<byte>, ino: U32)
    requires Sane(L) && (!L.metadataCsum || L.inodeSize > 4096 || InodeOffset(L, img, ino).None?)
    ensures CheckInode(L, img, ino) == None && StampInode(L, img, ino) == None
  {
    hide InodeOffset;
  }

  // ---- Descriptor and superblock ----

  /** There are as many descriptors as groups, one after the other from the block after the first data block on, and
      those count that the image holds. */
  lemma DescriptorIsThere(L: Layout, img: seq<byte>, g: U32)
    requires Sane(L)
    ensures var d := L.gdtBlock * L.blockSize + g * L.descSize;
            DescOffset(L, img, g) == if L.ok && g < L.groupCount && d + L.descSize <= |img| then Some(d) else None
  {
    if L.ok {
      SmallProduct(L.gdtBlock, L.blockSize, 65536);
      SmallProduct(g, L.descSize, 64);
      NoWrap(L.gdtBlock * L.blockSize + g * L.descSize);
    }
  }

  /** A descriptor's checksum is at 0x1E. */
  lemma DescriptorIsChecked(L: Layout, img: seq<byte>, g: U32, d: nat)
    requires Sane(L) && DescCsum(L, img, g).Some? && DescOffset(L, img, g) == Some(d)
    ensures d == L.gdtBlock * L.blockSize + g * L.descSize
    ensures var v := DescCsum(L, img, g).value;
            && CheckDesc(L, img, g).Some? && CheckDesc(L, img, g).value.want == v
            && IsStored(img, d + 0x1E, 0, false, CheckDesc(L, img, g).value.stored)
            && StampDesc(L, img, g).Some? && Stamps(img, StampDesc(L, img, g).value, d + 0x1E, 0, false, v)
  {
    hide DescOffset, DescCsum, Stored, Put, Low16;
    DescOffsetDoesNotWrap(L, img, g);
    StoredIsThere(img, DescSlot(d));
    StampIsThere(img, DescSlot(d), DescCsum(L, img, g).value);
    hide IsStored, Stamps;
  }

  /** The superblock's is its last four bytes, and covers all the others. */
  lemma SuperblockIsChecked(L: Layout, img: seq<byte>)
    requires |img| >= 2048 && L.metadataCsum
    ensures var v := Crc32c(0xFFFF_FFFF, img[1024..2044]);
            && CheckSb(L, img).Some? && CheckSb(L, img).value.want == v
            && IsStored(img, 2044, 2046, true, CheckSb(L, img).value.stored)
            && StampSb(L, img).Some? && Stamps(img, StampSb(L, img).value, 2044, 2046, true, v)
  {
    hide Crc32c, Stored, Put;
    StoredIsThere(img, SB_SLOT);
    StampIsThere(img, SB_SLOT, SbCsum(img));
    hide IsStored, Stamps;
  }

  // ---- The superblock's fields ----

  /** What a superblock says. */
  datatype Super = Super(
    magic: bv32, inodes: bv32, blocks: bv32, blocksHi: bv32, first: bv32, logSize: bv32, perGroup: bv32,
    inodesPerGroup: bv32, inodeSize: bv32, incompat: bv32, roCompat: bv32, descSize: bv32, seed: bv32)

  ghost predicate IsSuperblock(img: seq<byte>, s: Super) {
    && |img| >= 2048
    && Is32(img, 1024 + 0x00, s.inodes) && Is32(img, 1024 + 0x04, s.blocks) && Is32(img, 1024 + 0x14, s.first)
    && Is32(img, 1024 + 0x18, s.logSize) && Is32(img, 1024 + 0x20, s.perGroup)
    && Is32(img, 1024 + 0x28, s.inodesPerGroup) && Is16(img, 1024 + 0x38, s.magic)
    && Is16(img, 1024 + 0x58, s.inodeSize) && Is32(img, 1024 + 0x60, s.incompat)
    && Is32(img, 1024 + 0x64, s.roCompat) && Is16(img, 1024 + 0xFE, s.descSize)
    && Is32(img, 1024 + 0x150, s.blocksHi) && Is32(img, 1024 + 0x270, s.seed)
  }

  /** The numbers in it, before any of them is judged. */
  lemma NumbersAreRead(img: seq<byte>, s: Super)
    requires IsSuperblock(img, s)
    ensures var L := Fields(img);
            && L.inodesCount == s.inodes as nat && L.firstDataBlock == s.first as nat
            && L.blocksPerGroup == s.perGroup as nat && L.inodesPerGroup == s.inodesPerGroup as nat
            && L.inodeSize == s.inodeSize as nat && L.uuid == img[1024 + 0x68..1024 + 0x78]
  {
    hide Crc.Crc, Word16, Word32, Le16, Le32, Has;
    Reads32(img, 1024 + 0x00, s.inodes);
    Reads32(img, 1024 + 0x14, s.first);
    Reads32(img, 1024 + 0x20, s.perGroup);
    Reads32(img, 1024 + 0x28, s.inodesPerGroup);
    Reads16(img, 1024 + 0x58, s.inodeSize);
    hide Rd16, Rd32, Is16, Is32;
  }

  /** Its feature flags, and what they decide. */
  lemma FeaturesAreRead(img: seq<byte>, s: Super)
    requires IsSuperblock(img, s)
    ensures var L := Fields(img);
            && L.is64 == (s.incompat & 0x80 != 0) && L.gdtCsum == (s.roCompat & 0x10 != 0)
            && L.metadataCsum == (s.roCompat & 0x400 != 0)
            && L.blocksCount == s.blocks as nat + (if L.is64 then 0x1_0000_0000 * s.blocksHi as nat else 0)
            && L.descSize == (if L.is64 && s.descSize > 32 then s.descSize as nat else 32)
            && L.csumSeed == if s.incompat & 0x2000 != 0 then s.seed else Crc32c(0xFFFF_FFFF, L.uuid)
  {
    hide Crc.Crc, Word16, Word32, Le16, Le32;
    Reads32(img, 1024 + 0x04, s.blocks);
    Reads32(img, 1024 + 0x60, s.incompat);
    Reads32(img, 1024 + 0x64, s.roCompat);
    Reads16(img, 1024 + 0xFE, s.descSize);
    Reads32(img, 1024 + 0x150, s.blocksHi);
    Reads32(img, 1024 + 0x270, s.seed);
    ByNumber(s.descSize);
    hide Rd16, Rd32, Is16, Is32;
  }

  lemma ByNumber(v: bv32)
    ensures v > 32 <==> v as nat > 32
  {}

  lemma PowersOfTwo(v: bv32)
    requires 0 < v < 0x1_0000
    ensures PowerOfTwo(v) <==>
              v in {1, 2, 4, 8, 0x10, 0x20, 0x40, 0x80, 0x100, 0x200, 0x400, 0x800, 0x1000, 0x2000, 0x4000, 0x8000}
  {}

  ghost function Doubled(n: nat, times: nat): nat {
    if times == 0 then n else 2 * Doubled(n, times - 1)
  }

  lemma BlockSizeIsDoubled(v: bv32)
    requires v <= 6
    ensures BlockSize(v) == Doubled(1024, v as nat)
  {
    assert Doubled(1024, 1) == 2048 && Doubled(1024, 2) == 4096 && Doubled(1024, 3) == 8192;
    assert Doubled(1024, 4) == 16384 && Doubled(1024, 5) == 32768 && Doubled(1024, 6) == 65536;
  }

  /** The quotient is the number of groups that cover the blocks, unless a 64-bit sum wraps, and then it is zero. */
  lemma GroupsCover(blocks: nat, first: nat, perGroup: nat)
    requires first < blocks < TWO64 && 0 < perGroup < TWO32
    ensures var n, groups := blocks - first, Groups(blocks, first, perGroup);
            && (groups > 0 <==> n + perGroup <= TWO64)
            && (groups > 0 ==> (groups - 1) * perGroup < n <= groups * perGroup)
  {
    var n, groups := blocks - first, Groups(blocks, first, perGroup);
    if n + perGroup <= TWO64 {
      NoWrap(n + perGroup - 1);
      QuotientCovers(n, perGroup, groups);
    } else {
      assert U64(n + perGroup - 1) == n + perGroup - 1 - TWO64 < perGroup;
      Arith.DivUnique(U64(n + perGroup - 1), perGroup, 0, U64(n + perGroup - 1));
    }
  }

  lemma QuotientCovers(n: nat, perGroup: nat, groups: nat)
    requires n > 0 && perGroup > 0 && groups == (n + perGroup - 1) / perGroup
    ensures groups > 0 && (groups - 1) * perGroup < n <= groups * perGroup
  {
    Arith.DivMod(n + perGroup - 1, perGroup);
    Arith.Distribute(groups, 1, perGroup);
    assert groups * perGroup > 0;
  }

  /** Not so many groups that their number does not fit into 32 bits: not so many blocks. */
  lemma FewGroups(n: nat, perGroup: nat, groups: nat)
    requires perGroup > 0 && groups > 0 && (groups - 1) * perGroup < n <= groups * perGroup
    ensures groups < TWO32 <==> n <= 0xFFFF_FFFF * perGroup
  {
    if groups < TWO32 { Arith.MulMonotone(groups, 0xFFFF_FFFF, perGroup); }
    else { Arith.MulMonotone(0xFFFF_FFFF, groups - 1, perGroup); }
  }

  /** The last word on a layout, in terms of its fields. */
  ghost predicate Passes(F: Layout, magic: bv32, logSize: bv32, inodeSize: bv32) {
    && magic == 0xEF53 && logSize <= 6 && F.descSize <= 64 && F.blocksPerGroup > 0 && F.inodesPerGroup > 0
    && 128 <= F.inodeSize <= BlockSize(logSize) && PowerOfTwo(inodeSize) && F.firstDataBlock < F.blocksCount
    && 0 < Groups(F.blocksCount, F.firstDataBlock, F.blocksPerGroup) < TWO32
  }

  lemma NotYetOk(img: seq<byte>)
    requires |img| >= 2048
    ensures !Fields(img).ok
  {
    hide Fields;
    FieldsAreWords(img);
  }

  lemma ParsesWhenPassed(img: seq<byte>)
    requires |img| >= 2048
    ensures Parse(img).ok <==>
              Passes(Fields(img), Rd16(img, 1024 + 0x38), Rd32(img, 1024 + 0x18), Rd16(img, 1024 + 0x58))
  {
    hide Fields, Groups, PowerOfTwo, Rd16, Rd32, BlockSize;
    NotYetOk(img);
  }

  lemma ParsedFields(img: seq<byte>)
    requires |img| >= 2048 && Parse(img).ok
    ensures var F, L := Fields(img), Parse(img);
            && L == F.(blockSize := L.blockSize, groupCount := L.groupCount, gdtBlock := L.gdtBlock, ok := true)
            && L.blockSize == BlockSize(Rd32(img, 1024 + 0x18)) && L.gdtBlock == F.firstDataBlock + 1
            && F.blocksPerGroup > 0 && L.groupCount == Groups(F.blocksCount, F.firstDataBlock, F.blocksPerGroup)
  {
    hide Fields, Groups, PowerOfTwo, Rd16, Rd32, BlockSize;
    NotYetOk(img);
  }

  /** The groups can be counted. */
  ghost predicate Countable(blocks: nat, first: nat, perGroup: nat) {
    0 < blocks - first <= 0xFFFF_FFFF * perGroup && blocks - first + perGroup <= TWO64
  }

  /** What a superblock has to say for its image to parse. */
  ghost predicate MakesSense(F: Layout, s: Super) {
    && s.magic == 0xEF53 && s.logSize <= 6 && F.descSize <= 64 && F.blocksPerGroup > 0 && F.inodesPerGroup > 0
    && 128 <= F.inodeSize <= Doubled(1024, s.logSize as nat) && PowerOfTwo(s.inodeSize)
    && Countable(F.blocksCount, F.firstDataBlock, F.blocksPerGroup)
  }

  lemma CountableIff(blocks: nat, first: nat, perGroup: nat)
    requires first < TWO32 && blocks < TWO64 && 0 < perGroup < TWO32
    ensures Countable(blocks, first, perGroup) <==> first < blocks && 0 < Groups(blocks, first, perGroup) < TWO32
  {
    hide Groups;
    if first < blocks {
      GroupsCover(blocks, first, perGroup);
      var groups := Groups(blocks, first, perGroup);
      if groups > 0 { FewGroups(blocks - first, perGroup, groups); }
    }
  }

  lemma SensePasses(F: Layout, s: Super)
    requires F.firstDataBlock < TWO32 && F.blocksCount < TWO64 && F.blocksPerGroup < TWO32
    requires s.logSize <= 6 ==> BlockSize(s.logSize) == Doubled(1024, s.logSize as nat)
    ensures MakesSense(F, s) ==> Passes(F, s.magic, s.logSize, s.inodeSize)
  {
    hide Doubled, Groups, BlockSize, Countable, PowerOfTwo;
    if F.blocksPerGroup > 0 { CountableIff(F.blocksCount, F.firstDataBlock, F.blocksPerGroup); }
  }

  lemma PassingMakesSense(F: Layout, s: Super)
    requires F.firstDataBlock < TWO32 && F.blocksCount < TWO64 && F.blocksPerGroup < TWO32
    requires s.logSize <= 6 ==> BlockSize(s.logSize) == Doubled(1024, s.logSize as nat)
    ensures Passes(F, s.magic, s.logSize, s.inodeSize) ==> MakesSense(F, s)
  {
    hide Doubled, Groups, BlockSize, Countable, PowerOfTwo;
    if F.blocksPerGroup > 0 { CountableIff(F.blocksCount, F.firstDataBlock, F.blocksPerGroup); }
  }

  lemma FieldsAreSmall(img: seq<byte>, s: Super)
    requires IsSuperblock(img, s)
    ensures var F := Fields(img); F.firstDataBlock < TWO32 && F.blocksCount < TWO64 && F.blocksPerGroup < TWO32
  {
    hide Fields, Is32, Is16;
    NumbersAreRead(img, s);
    FeaturesAreRead(img, s);
  }

  /** An image parses exactly when its superblock makes sense, and its groups are then as many as cover its blocks. */
  lemma ParsesIff(img: seq<byte>, s: Super)
    requires IsSuperblock(img, s)
    ensures var F, L := Fields(img), Parse(img);
            && (L.ok <==> MakesSense(F, s))
            && (L.ok ==>
                  && L == F.(blockSize := L.blockSize, groupCount := L.groupCount, gdtBlock := L.gdtBlock, ok := true)
                  && L.blockSize == Doubled(1024, s.logSize as nat) && L.gdtBlock == F.firstDataBlock + 1
                  && (L.groupCount - 1) * F.blocksPerGroup < F.blocksCount - F.firstDataBlock
                       <= L.groupCount * F.blocksPerGroup)
  {
    hide Fields, Parse, Is32, Is16, Rd16, Rd32, Doubled, Groups, BlockSize, MakesSense, PowerOfTwo;
    Reads16(img, 1024 + 0x38, s.magic);
    Reads32(img, 1024 + 0x18, s.logSize);
    Reads16(img, 1024 + 0x58, s.inodeSize);
    ParsesWhenPassed(img);
    FieldsAreSmall(img, s);
    var F := Fields(img);
    if s.logSize <= 6 { BlockSizeIsDoubled(s.logSize); }
    SensePasses(F, s);
    PassingMakesSense(F, s);
    if Parse(img).ok {
      ParsedFields(img);
      GroupsCover(F.blocksCount, F.firstDataBlock, F.blocksPerGroup);
    }
  }
}

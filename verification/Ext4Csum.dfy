/**
 The checksum stamper (tools/fuzz/ext4_csum.c): where each structure of a possibly corrupt image is, what its
 checksum should be, and writing it back into the same image.
 */
module Ext4Csum {
  import opened Bytes
  import opened Crc
  import opened CrcBurst
  import Arith
  import opened Wrappers

  // ---- Little-endian fields ----

  function Word32(a: byte, b: byte, c: byte, d: byte): bv32 {
    (a as bv32) | ((b as bv32) << 8) | ((c as bv32) << 16) | ((d as bv32) << 24)
  }

  function ByteAt(v: bv32, shift: bv6): byte
    requires shift <= 24
  {
    ((v >> shift) & 0xFF) as byte
  }

  function Both(lo: bv32, hi: bv32): bv32 { lo | (hi << 16) }

  lemma FieldWords(v: bv32)
    ensures Word16(ByteAt(v, 0), ByteAt(v, 8)) == Low16(v)
    ensures Word32(ByteAt(v, 0), ByteAt(v, 8), ByteAt(v, 16), ByteAt(v, 24)) == v
  {}

  lemma HalfWords(v: bv32)
    ensures Both(Low16(v), Low16(High16(v))) == v && Low16(Low16(v)) == Low16(v)
  {}

  function Le16(v: bv32): (s: seq<byte>)
    ensures |s| == 2
  {
    [ByteAt(v, 0), ByteAt(v, 8)]
  }

  function Le32(v: bv32): (s: seq<byte>)
    ensures |s| == 4
  {
    [ByteAt(v, 0), ByteAt(v, 8), ByteAt(v, 16), ByteAt(v, 24)]
  }

  /** `fz_rd16`, `fz_rd32` */
  function Rd16(img: seq<byte>, at: nat): bv32
    requires at + 2 <= |img|
  {
    Word16(img[at], img[at + 1])
  }

  function Rd32(img: seq<byte>, at: nat): bv32
    requires at + 4 <= |img|
  {
    Word32(img[at], img[at + 1], img[at + 2], img[at + 3])
  }

  // ---- The layout ----

  const SB: nat := 1024
  const TWO32: nat := 0x1_0000_0000
  const TWO64: nat := 0x1_0000_0000_0000_0000

  type U32 = x: nat | x < TWO32

  /** 64-bit arithmetic wraps. */
  function U64(x: int): nat {
    x % TWO64
  }

  datatype Layout = Layout(
    ok: bool, blockSize: nat, firstDataBlock: nat, blocksPerGroup: nat, inodesPerGroup: nat, inodesCount: nat,
    blocksCount: nat, inodeSize: nat, descSize: nat, groupCount: nat, gdtBlock: nat, csumSeed: bv32,
    uuid: seq<byte>, metadataCsum: bool, gdtCsum: bool, is64: bool)

  const BLANK := Layout(
    false, 0, 0, 0, 0, 0, 0, 0, 0, 0, 0, 0, [0, 0, 0, 0, 0, 0, 0, 0, 0, 0, 0, 0, 0, 0, 0, 0], false, false, false)

  predicate Has(flags: bv32, mask: bv32) {
    flags & mask != 0
  }

  predicate PowerOfTwo(v: bv32) {
    v & (v - 1) == 0
  }

  /** The number of groups, as the 64-bit expression computes it. */
  function Groups(blocks: nat, first: nat, perGroup: nat): nat
    requires perGroup > 0
  {
    U64(blocks - first + perGroup - 1) / perGroup
  }

  /** Everything the superblock says before any of it is judged. */
  function Fields(img: seq<byte>): Layout
    requires |img| >= SB + 1024
  {
    var incompat, roCompat := Rd32(img, SB + 0x60), Rd32(img, SB + 0x64);
    var is64 := Has(incompat, 0x80);
    var lo := Rd32(img, SB + 0x04) as int;
    var size := if is64 then Rd16(img, SB + 0xFE) as int else 32;
    var uuid := img[SB + 0x68..SB + 0x78];
    BLANK.(firstDataBlock := Rd32(img, SB + 0x14) as int,
           blocksPerGroup := Rd32(img, SB + 0x20) as int,
           inodesPerGroup := Rd32(img, SB + 0x28) as int,
           inodesCount := Rd32(img, SB) as int,
           blocksCount := if is64 then lo + TWO32 * (Rd32(img, SB + 0x150) as int) else lo,
           inodeSize := Rd16(img, SB + 0x58) as int,
           descSize := if size < 32 then 32 else size,
           csumSeed := if Has(incompat, 0x2000) then Rd32(img, SB + 0x270)
                       else Crc.Crc(CRC32C_POLY, 0xFFFF_FFFF, uuid),
           uuid := uuid,
           metadataCsum := Has(roCompat, 0x400),
           gdtCsum := Has(roCompat, 0x10),
           is64 := is64)
  }

  /** `fz_layout_parse`: the layout, with `ok` when every field makes sense. */
  function Parse(img: seq<byte>): Layout {
    if |img| < SB + 1024 || Rd16(img, SB + 0x38) != 0xEF53 || Rd32(img, SB + 0x18) > 6 then BLANK
    else
      var L := Fields(img).(blockSize := BlockSize(Rd32(img, SB + 0x18)));
      if L.descSize > 64 then L.(csumSeed := 0)
      else if L.blocksPerGroup == 0 || L.inodesPerGroup == 0
              || L.inodeSize < 128 || L.inodeSize > L.blockSize || !PowerOfTwo(Rd16(img, SB + 0x58))
              || L.blocksCount <= L.firstDataBlock then L
      else
        var groups := Groups(L.blocksCount, L.firstDataBlock, L.blocksPerGroup);
        if groups == 0 || groups >= TWO32 then L
        else L.(groupCount := groups, gdtBlock := L.firstDataBlock + 1, ok := true)
  }

  function BlockSize(logBs: bv32): nat {
    if logBs == 0 then 1024 else if logBs == 1 then 2048 else if logBs == 2 then 4096 else if logBs == 3 then 8192
    else if logBs == 4 then 16384 else if logBs == 5 then 32768 else 65536
  }

  /** What every layout that parses keeps. */
  ghost predicate Sane(L: Layout) {
    && |L.uuid| == 16
    && (L.ok ==>
      && 1024 <= L.blockSize <= 65536 && 32 <= L.descSize <= 64
      && L.inodesPerGroup > 0 && L.blocksPerGroup > 0 && 0 < L.groupCount < TWO32
      && 128 <= L.inodeSize <= L.blockSize && (L.inodeSize > 128 ==> L.inodeSize >= 256)
      && L.gdtBlock == L.firstDataBlock + 1 <= TWO32)
  }

  lemma AtLeastDouble(v: bv32)
    requires 128 < v < 0x1_0000 && PowerOfTwo(v)
    ensures v >= 256
  {}

  lemma AtLeastDoubleInt(v: bv32)
    requires 128 < v as int && v < 0x1_0000 && PowerOfTwo(v)
    ensures v as int >= 256
  {
    AtLeastDouble(v);
  }

  lemma Rd16Small(a: byte, b: byte)
    ensures Word16(a, b) < 0x1_0000
  {}

  /** What the fields are whatever the image holds. */
  lemma FieldsAreWords(img: seq<byte>)
    requires |img| >= SB + 1024
    ensures var L := Fields(img);
            && |L.uuid| == 16 && !L.ok && L.descSize >= 32 && L.firstDataBlock < TWO32
            && L.inodeSize == Rd16(img, SB + 0x58) as int
  {
    hide Crc.Crc, Has, Word16, Word32;
  }

  lemma BlockSizes(logBs: bv32)
    ensures 1024 <= BlockSize(logBs) <= 65536
  {}

  /** What a layout that parses has passed, field by field. */
  lemma ParsedHasPassed(img: seq<byte>)
    requires Parse(img).ok
    ensures |img| >= SB + 1024
    ensures var L, F := Parse(img), Fields(img);
            && L.uuid == F.uuid && L.descSize == F.descSize <= 64 && L.inodeSize == F.inodeSize
            && L.blockSize == BlockSize(Rd32(img, SB + 0x18)) && 128 <= L.inodeSize <= L.blockSize
            && L.blocksPerGroup > 0 && L.inodesPerGroup > 0 && 0 < L.groupCount < TWO32
            && L.gdtBlock == F.firstDataBlock + 1 && L.firstDataBlock == F.firstDataBlock
            && PowerOfTwo(Rd16(img, SB + 0x58))
  {
    hide Fields, Groups, PowerOfTwo, Rd16, Rd32, BlockSize;
    if |img| >= SB + 1024 { FieldsAreWords(img); }
  }

  lemma ParsedKeepsUuid(img: seq<byte>)
    requires Parse(img) != BLANK
    ensures |img| >= SB + 1024 && Parse(img).uuid == Fields(img).uuid
  {
    hide Fields, Groups, PowerOfTwo, Rd16, Rd32, BlockSize, BLANK;
  }

  lemma ParsedHasUuid(img: seq<byte>)
    ensures |Parse(img).uuid| == 16
  {
    hide Parse, Fields;
    if Parse(img) != BLANK {
      ParsedKeepsUuid(img);
      FieldsAreWords(img);
    }
  }

  lemma ParsedInodeSize(img: seq<byte>)
    requires Parse(img).ok
    ensures Parse(img).inodeSize > 128 ==> Parse(img).inodeSize >= 256
  {
    hide Fields, Parse, PowerOfTwo, Word16;
    ParsedHasPassed(img);
    FieldsAreWords(img);
    var v := Rd16(img, SB + 0x58);
    Rd16Small(img[SB + 0x58], img[SB + 0x59]);
    if v as int > 128 { AtLeastDoubleInt(v); }
  }

  lemma ParsedIsSane(img: seq<byte>)
    ensures Sane(Parse(img))
  {
    hide Fields, Parse, PowerOfTwo, Rd16, Rd32, BlockSize;
    ParsedHasUuid(img);
    if Parse(img).ok {
      ParsedHasPassed(img);
      ParsedInodeSize(img);
      FieldsAreWords(img);
      BlockSizes(Rd32(img, SB + 0x18));
    }
  }

  // ---- Resolving addresses ----

  /** `fz_in_range`: two terms, never their sum. */
  predicate InRange(img: seq<byte>, off: nat, n: nat) {
    off <= |img| && n <= |img| - off
  }

  /** `fz_desc_offset`; it does not look at the image. */
  function DescOffset(L: Layout, img: seq<byte>, g: U32): (r: Option<nat>)
    ensures r.Some? ==> InRange(img, r.value, L.descSize) && L.ok
  {
    if !L.ok || g >= L.groupCount then None
    else
      var o := U64(L.gdtBlock * L.blockSize + g * L.descSize);
      if InRange(img, o, L.descSize) then Some(o) else None
  }

  /** `desc_block`: a descriptor shorter than 64 bytes has no high half. */
  function DescBlock(L: Layout, img: seq<byte>, d: nat, lo: nat, hi: nat): nat
    requires 32 <= L.descSize <= 64 && InRange(img, d, L.descSize) && lo <= 28 && hi <= 60
  {
    Rd32(img, d + lo) as int + if L.descSize >= 64 then TWO32 * (Rd32(img, d + hi) as int) else 0
  }

  lemma SmallProduct(a: nat, b: nat, bound: nat)
    requires a <= TWO32 && b <= bound <= 65536
    ensures 0 <= a * b <= TWO32 * 65536
  {
    Arith.MulMonotone(a, TWO32, b);
    Arith.MulMonotone(b, 65536, TWO32);
  }

  lemma DescOffsetDoesNotWrap(L: Layout, img: seq<byte>, g: U32)
    requires Sane(L) && DescOffset(L, img, g).Some?
    ensures DescOffset(L, img, g).value == L.gdtBlock * L.blockSize + g * L.descSize
  {
    SmallProduct(L.gdtBlock, L.blockSize, 65536);
    SmallProduct(g, L.descSize, 64);
    NoWrap(L.gdtBlock * L.blockSize + g * L.descSize);
  }

  lemma NoWrap(x: nat)
    requires x < TWO64
    ensures U64(x) == x
  {}

  /** No 64-bit sum wraps before it reaches a descriptor, so no two descriptors overlap. */
  lemma DescriptorsDoNotOverlap(L: Layout, img: seq<byte>, g: U32, h: U32)
    requires Sane(L) && g < h && DescOffset(L, img, g).Some? && DescOffset(L, img, h).Some?
    ensures DescOffset(L, img, g).value + L.descSize <= DescOffset(L, img, h).value
  {
    hide DescOffset;
    DescOffsetDoesNotWrap(L, img, g);
    DescOffsetDoesNotWrap(L, img, h);
    Arith.MulMonotone(g + 1, h, L.descSize);
    Arith.Distribute(g, 1, L.descSize);
  }

  function InodeGroup(L: Layout, ino: U32): U32
    requires Sane(L) && L.ok && ino > 0
  {
    (ino - 1) / L.inodesPerGroup
  }

  function InodeInTable(L: Layout, table: nat, ino: U32): nat
    requires Sane(L) && L.ok && ino > 0
  {
    U64(U64(table * L.blockSize) + U64((ino - 1) % L.inodesPerGroup * L.inodeSize))
  }

  /** `fz_inode_offset` */
  function InodeOffset(L: Layout, img: seq<byte>, ino: U32): (r: Option<nat>)
    requires Sane(L)
    ensures r.Some? ==> InRange(img, r.value, L.inodeSize) && L.ok && ino > 0
    ensures r.Some? ==> DescOffset(L, img, InodeGroup(L, ino)).Some?
  {
    if !L.ok || ino == 0 || (L.inodesCount > 0 && ino > L.inodesCount) then None
    else
      var d := DescOffset(L, img, InodeGroup(L, ino));
      if d.None? then None
      else
        var o := InodeInTable(L, DescBlock(L, img, d.value, 0x08, 0x28), ino);
        if InRange(img, o, L.inodeSize) then Some(o) else None
  }

  lemma IndexGap(i: nat, j: nat, n: nat)
    requires n > 0 && i < j && i / n == j / n
    ensures i % n < j % n
  {
    Arith.DivMod(i, n);
    Arith.DivMod(j, n);
  }

  lemma ProductGap(a: nat, b: nat, size: nat)
    requires a < b <= TWO32 && size <= 65536
    ensures a * size + size <= b * size <= TWO32 * 65536
  {
    SmallProduct(b, size, 65536);
    Arith.MulMonotone(a + 1, b, size);
    Arith.Distribute(a, 1, size);
  }

  lemma RemainderBound(i: nat, n: nat)
    requires n > 0
    ensures i % n <= i
  {
    Arith.DivMod(i, n);
  }

  /** How far into its group's table an inode is. */
  function IndexBytes(L: Layout, i: U32): nat
    requires Sane(L) && L.ok && i > 0
  {
    (i - 1) % L.inodesPerGroup * L.inodeSize
  }

  lemma IndexBytesApart(L: Layout, i: U32, j: U32)
    requires Sane(L) && L.ok && 0 < i < j && InodeGroup(L, i) == InodeGroup(L, j)
    ensures IndexBytes(L, i) + L.inodeSize <= IndexBytes(L, j) <= TWO32 * 65536
  {
    IndexGap(i - 1, j - 1, L.inodesPerGroup);
    RemainderBound(j - 1, L.inodesPerGroup);
    ProductGap((i - 1) % L.inodesPerGroup, (j - 1) % L.inodesPerGroup, L.inodeSize);
  }

  /** Where a group's inode table is. */
  function TableAt(L: Layout, img: seq<byte>, g: U32): nat
    requires Sane(L) && DescOffset(L, img, g).Some?
  {
    U64(DescBlock(L, img, DescOffset(L, img, g).value, 0x08, 0x28) * L.blockSize)
  }

  /** The place of an inode: only the sum with the table's place can wrap. */
  lemma InodePlace(L: Layout, img: seq<byte>, i: U32)
    requires Sane(L) && InodeOffset(L, img, i).Some?
    ensures var t := TableAt(L, img, InodeGroup(L, i));
            && InodeOffset(L, img, i).value == U64(t + IndexBytes(L, i))
            && InodeOffset(L, img, i).value + L.inodeSize <= |img| && t < TWO64
  {
    hide InodeGroup, DescBlock;
    RemainderBound(i - 1, L.inodesPerGroup);
    SmallProduct((i - 1) % L.inodesPerGroup, L.inodeSize, 65536);
    NoWrap(IndexBytes(L, i));
  }

  /** Within a group no two inodes share a byte, even where the 64-bit sum wraps: an image is shorter than that. */
  lemma InodesDoNotOverlap(L: Layout, img: seq<byte>, i: U32, j: U32)
    requires Sane(L) && i < j && |img| < TWO64 / 2
    requires InodeOffset(L, img, i).Some? && InodeOffset(L, img, j).Some? && InodeGroup(L, i) == InodeGroup(L, j)
    ensures InodeOffset(L, img, i).value + L.inodeSize <= InodeOffset(L, img, j).value
         || InodeOffset(L, img, j).value + L.inodeSize <= InodeOffset(L, img, i).value
  {
    hide InodeOffset, InodeGroup, TableAt, U64, DescOffset, IndexBytes;
    IndexBytesApart(L, i, j);
    InodePlace(L, img, i);
    InodePlace(L, img, j);
    WrappedApart(TableAt(L, img, InodeGroup(L, i)), IndexBytes(L, i), IndexBytes(L, j), L.inodeSize, |img|);
  }

  lemma WrappedApart(t: nat, x: nat, y: nat, size: nat, len: nat)
    requires t < TWO64 && x + size <= y <= TWO32 * 65536 && len < TWO64 / 2
    requires U64(t + x) + size <= len && U64(t + y) + size <= len
    ensures U64(t + x) + size <= U64(t + y) || U64(t + y) + size <= U64(t + x)
  {}

  /** Where a group's bitmap is and how long the part that counts is; None when it is not on the medium. */
  function BitmapRegion(L: Layout, img: seq<byte>, g: U32, blockMap: bool): (r: Option<(nat, nat)>)
    requires Sane(L)
    ensures r.Some? ==> InRange(img, r.value.0, r.value.1) && DescOffset(L, img, g).Some?
  {
    var d := DescOffset(L, img, g);
    if d.None? then None
    else if Has(Rd16(img, d.value + 0x12), if blockMap then 2 else 1) then None
    else
      var blk := DescBlock(L, img, d.value, if blockMap then 0x00 else 0x04, if blockMap then 0x20 else 0x24);
      var size := if blockMap then L.blocksPerGroup / 8 else (L.inodesPerGroup + 7) / 8;
      var off := U64(blk * L.blockSize);
      if InRange(img, off, size) then Some((off, size)) else None
  }

  // ---- What each checksum should be ----

  function Crc32c(seed: bv32, data: seq<byte>): bv32 { Crc.Crc(CRC32C_POLY, seed, data) }

  function Crc16(seed: bv32, data: seq<byte>): bv32 { Crc.Crc(CRC16_POLY, seed, data) }

  function SbCsum(img: seq<byte>): bv32
    requires |img| >= SB + 1024
  {
    Crc32c(0xFFFF_FFFF, img[SB..SB + 0x3FC])
  }

  /** `desc_csum`: the field itself counts as zero under metadata_csum and is left out under the older scheme. */
  function DescCsum(L: Layout, img: seq<byte>, g: U32): (r: Option<bv32>)
    requires Sane(L)
    ensures r.Some? ==> DescOffset(L, img, g).Some?
  {
    var at := DescOffset(L, img, g);
    if at.None? then None
    else
      var d, le := at.value, Le32(g as bv32);
      if L.metadataCsum then
        var crc := Crc32c(Crc32c(Crc32c(L.csumSeed, le), img[d..d + 0x1E]), [0, 0]);
        Some(Low16(if L.descSize > 32 then Crc32c(crc, img[d + 0x20..d + L.descSize]) else crc))
      else if L.gdtCsum then
        var crc := Crc16(Crc16(Crc16(0xFFFF, L.uuid), le), img[d..d + 0x1E]);
        Some(if L.is64 && L.descSize > 32 then Crc16(crc, img[d + 0x20..d + L.descSize]) else crc)
      else None
  }

  /** The high half of an inode's checksum is there when the extra size reaches it. */
  predicate HasHi(L: Layout, img: seq<byte>, off: nat)
    requires InRange(img, off, L.inodeSize)
  {
    L.inodeSize >= 0x82 && L.inodeSize > 128 && Rd16(img, off + 0x80) >= 4
  }

  /** An inode with its own checksum fields zeroed. */
  function Zeroed(copy: seq<byte>, hasHi: bool): (r: seq<byte>)
    requires |copy| >= 128 && (hasHi ==> |copy| >= 256)
    ensures |r| == |copy|
  {
    var lo := Splice(copy, 0x7C, [0, 0]);
    if hasHi then Splice(lo, 0x82, [0, 0]) else lo
  }

  /** `inode_csum` */
  function InodeCsum(L: Layout, img: seq<byte>, ino: U32): (r: Option<bv32>)
    requires Sane(L)
    ensures r.Some? ==> InodeOffset(L, img, ino).Some?
  {
    var at := InodeOffset(L, img, ino);
    if !L.metadataCsum || at.None? || L.inodeSize > 4096 then None
    else
      var copy := Zeroed(img[at.value..at.value + L.inodeSize], HasHi(L, img, at.value));
      Some(Crc32c(Crc32c(Crc32c(L.csumSeed, Le32(ino as bv32)), copy[0x64..0x68]), copy))
  }

  /** `bitmap_csum` */
  function BitmapCsum(L: Layout, img: seq<byte>, g: U32, blockMap: bool): (r: Option<bv32>)
    requires Sane(L)
    ensures r.Some? ==> BitmapRegion(L, img, g, blockMap).Some?
  {
    var region := BitmapRegion(L, img, g, blockMap);
    if !L.metadataCsum || region.None? then None
    else Some(Crc32c(L.csumSeed, img[region.value.0..region.value.0 + region.value.1]))
  }

  /** Under metadata_csum: the CRC of the group number and the whole descriptor with its checksum field zeroed. Under
      the older scheme: of the UUID, the group number and the descriptor without that field, the part past 32 bytes
      counting only with 64-bit. */
  lemma DescCsumIsOneCrc(L: Layout, img: seq<byte>, g: U32)
    requires Sane(L) && DescCsum(L, img, g).Some?
    ensures var d := DescOffset(L, img, g).value;
            var desc, le := img[d..d + L.descSize], Le32(g as bv32);
            DescCsum(L, img, g).value ==
              if L.metadataCsum then Low16(Crc32c(L.csumSeed, le + Splice(desc, 0x1E, [0, 0])))
              else Crc16(0xFFFF, L.uuid + le + desc[..0x1E] + if L.is64 then desc[0x20..] else [])
  {
    hide Crc.Crc, Low16, Le32;
    var d := DescOffset(L, img, g).value;
    var desc, le := img[d..d + L.descSize], Le32(g as bv32);
    var head, tail := img[d..d + 0x1E], img[d + 0x20..d + L.descSize];
    assert head == desc[..0x1E] && tail == desc[0x20..];
    if L.metadataCsum {
      CrcConcat(CRC32C_POLY, L.csumSeed, le, head);
      CrcConcat(CRC32C_POLY, L.csumSeed, le + head, [0, 0]);
      CrcConcat(CRC32C_POLY, L.csumSeed, le + head + [0, 0], tail);
      assert le + Splice(desc, 0x1E, [0, 0]) == le + head + [0, 0] + tail;
      if L.descSize == 32 { assert le + head + [0, 0] + tail == le + head + [0, 0]; }
    } else {
      CrcConcat(CRC16_POLY, 0xFFFF, L.uuid, le);
      CrcConcat(CRC16_POLY, 0xFFFF, L.uuid + le, head);
      CrcConcat(CRC16_POLY, 0xFFFF, L.uuid + le + head, tail);
      assert L.uuid + le + head + [] == L.uuid + le + head;
      if L.descSize == 32 { assert tail == []; }
    }
  }

  lemma GenerationIsKept(img: seq<byte>, off: nat, size: nat, hasHi: bool)
    requires off + size <= |img| && size >= 128 && (hasHi ==> size >= 256)
    ensures Zeroed(img[off..off + size], hasHi)[0x64..0x68] == img[off + 0x64..off + 0x68]
  {
    var z := Zeroed(img[off..off + size], hasHi);
    assert forall k :: 0x64 <= k < 0x68 ==> z[k] == img[off + k];
  }

  lemma CrcOfThree(seed: bv32, a: seq<byte>, b: seq<byte>, c: seq<byte>)
    ensures Crc32c(Crc32c(Crc32c(seed, a), b), c) == Crc32c(seed, a + b + c)
  {
    hide Crc.Crc;
    CrcConcat(CRC32C_POLY, seed, a, b);
    CrcConcat(CRC32C_POLY, seed, a + b, c);
  }

  /** The CRC of the inode number, its generation and the whole inode with the checksum fields it has zeroed. */
  lemma InodeCsumIsOneCrc(L: Layout, img: seq<byte>, ino: U32)
    requires Sane(L) && InodeCsum(L, img, ino).Some?
    ensures var off := InodeOffset(L, img, ino).value;
            InodeCsum(L, img, ino).value ==
              Crc32c(L.csumSeed, Le32(ino as bv32) + img[off + 0x64..off + 0x68]
                                 + Zeroed(img[off..off + L.inodeSize], HasHi(L, img, off)))
  {
    hide Crc32c, Le32, InodeOffset, Zeroed, Word16;
    var off := InodeOffset(L, img, ino).value;
    var copy := Zeroed(img[off..off + L.inodeSize], HasHi(L, img, off));
    GenerationIsKept(img, off, L.inodeSize, HasHi(L, img, off));
    CrcOfThree(L.csumSeed, Le32(ino as bv32), img[off + 0x64..off + 0x68], copy);
  }

  // ---- A checksum field in two halves ----

  /** Where a checksum is stored: two bytes, and two more when there is a high half. */
  datatype Slot = Slot(lo: nat, hi: nat, wide: bool) {
    predicate Holds(k: int) {
      lo <= k < lo + 2 || (wide && hi <= k < hi + 2)
    }

    predicate Fits(len: nat) {
      lo + 2 <= len && (wide ==> hi + 2 <= len && lo + 2 <= hi)
    }
  }

  function Put(img: seq<byte>, s: Slot, v: bv32): (r: seq<byte>)
    requires s.Fits(|img|)
    ensures |r| == |img|
  {
    var r := Splice(img, s.lo, Le16(v));
    if s.wide then Splice(r, s.hi, Le16(High16(v))) else r
  }

  function Stored(img: seq<byte>, s: Slot): bv32
    requires s.Fits(|img|)
  {
    if s.wide then Both(Rd16(img, s.lo), Rd16(img, s.hi)) else Rd16(img, s.lo)
  }

  function Wanted(s: Slot, v: bv32): bv32 {
    if s.wide then v else Low16(v)
  }

  /** The images agree outside the slot. */
  ghost predicate OnlySlot(a: seq<byte>, b: seq<byte>, s: Slot) {
    |a| == |b| && forall k :: 0 <= k < |a| && !s.Holds(k) ==> a[k] == b[k]
  }

  /** The slot touches none of these bytes. */
  ghost predicate Misses(s: Slot, from: nat, end: nat) {
    forall k :: from <= k < end ==> !s.Holds(k)
  }

  /** Putting a value in a slot is reading it back, and nothing else. */
  lemma PutThenStored(img: seq<byte>, s: Slot, v: bv32)
    requires s.Fits(|img|)
    ensures Stored(Put(img, s, v), s) == Wanted(s, v)
    ensures OnlySlot(img, Put(img, s, v), s)
  {
    hide Word16, Low16, High16, Both, ByteAt;
    FieldWords(v);
    FieldWords(High16(v));
    HalfWords(v);
  }

  /** What is put again is already there. */
  lemma PutAgain(img: seq<byte>, s: Slot, v: bv32)
    requires s.Fits(|img|)
    ensures Put(Put(img, s, v), s, v) == Put(img, s, v)
  {
    hide High16, ByteAt;
  }

  lemma SliceKept(a: seq<byte>, b: seq<byte>, s: Slot, from: nat, end: nat)
    requires OnlySlot(a, b, s) && Misses(s, from, end) && from <= end <= |a|
    ensures a[from..end] == b[from..end]
  {
    forall k | 0 <= k < end - from ensures a[from..end][k] == b[from..end][k] {
      assert !s.Holds(from + k);
    }
  }

  // ---- The slots ----

  function DescSlot(d: nat): Slot { Slot(d + 0x1E, 0, false) }

  function InodeSlot(L: Layout, img: seq<byte>, off: nat): (s: Slot)
    requires InRange(img, off, L.inodeSize)
  {
    Slot(off + 0x7C, off + 0x82, HasHi(L, img, off))
  }

  /** There is a high half as soon as it fits into the descriptor. */
  function BitmapSlot(L: Layout, d: nat, blockMap: bool): Slot {
    if blockMap then Slot(d + 0x18, d + 0x38, L.descSize >= 58) else Slot(d + 0x1A, d + 0x3A, L.descSize >= 60)
  }

  const SB_SLOT := Slot(SB + 0x3FC, SB + 0x3FE, true)

  // ---- Stamping and checking ----

  /** `fz_stamp_superblock`: None is failure; without metadata_csum there is nothing to do. */
  function StampSb(L: Layout, img: seq<byte>): Option<seq<byte>> {
    if |img| < SB + 1024 then None
    else if !L.metadataCsum then Some(img)
    else Some(Put(img, SB_SLOT, SbCsum(img)))
  }

  function StampDesc(L: Layout, img: seq<byte>, g: U32): Option<seq<byte>>
    requires Sane(L)
  {
    match DescCsum(L, img, g)
    case None => None
    case Some(v) => Some(Put(img, DescSlot(DescOffset(L, img, g).value), v))
  }

  function StampInode(L: Layout, img: seq<byte>, ino: U32): Option<seq<byte>>
    requires Sane(L)
  {
    match InodeCsum(L, img, ino)
    case None => None
    case Some(v) => Some(Put(img, InodeSlot(L, img, InodeOffset(L, img, ino).value), v))
  }

  function StampBitmap(L: Layout, img: seq<byte>, g: U32, blockMap: bool): Option<seq<byte>>
    requires Sane(L)
  {
    match BitmapCsum(L, img, g, blockMap)
    case None => None
    case Some(v) => Some(Put(img, BitmapSlot(L, DescOffset(L, img, g).value, blockMap), v))
  }

  /** What is stored and what should be. */
  datatype Verdict = Verdict(stored: bv32, want: bv32)

  function CheckSb(L: Layout, img: seq<byte>): Option<Verdict> {
    if |img| < SB + 1024 || !L.metadataCsum then None else Some(Verdict(Stored(img, SB_SLOT), SbCsum(img)))
  }

  function CheckDesc(L: Layout, img: seq<byte>, g: U32): Option<Verdict>
    requires Sane(L)
  {
    match DescCsum(L, img, g)
    case None => None
    case Some(v) => Some(Verdict(Stored(img, DescSlot(DescOffset(L, img, g).value)), v))
  }

  function CheckInode(L: Layout, img: seq<byte>, ino: U32): Option<Verdict>
    requires Sane(L)
  {
    match InodeCsum(L, img, ino)
    case None => None
    case Some(v) =>
      var s := InodeSlot(L, img, InodeOffset(L, img, ino).value);
      Some(Verdict(Stored(img, s), Wanted(s, v)))
  }

  function CheckBitmap(L: Layout, img: seq<byte>, g: U32, blockMap: bool): Option<Verdict>
    requires Sane(L)
  {
    match BitmapCsum(L, img, g, blockMap)
    case None => None
    case Some(v) =>
      var s := BitmapSlot(L, DescOffset(L, img, g).value, blockMap);
      Some(Verdict(Stored(img, s), Wanted(s, v)))
  }

  /** The check that applies finds what it should. */
  predicate Agrees(v: Option<Verdict>) {
    v.Some? && v.value.stored == v.value.want
  }

  // ---- Agreement, one structure at a time ----

  lemma StampSbAgrees(L: Layout, img: seq<byte>)
    requires |img| >= SB + 1024 && L.metadataCsum
    ensures var next := StampSb(L, img).value;
            && OnlySlot(img, next, SB_SLOT) && Agrees(CheckSb(L, next)) && StampSb(L, next) == Some(next)
  {
    hide Crc.Crc, Put, Stored;
    PutThenStored(img, SB_SLOT, SbCsum(img));
    var next := Put(img, SB_SLOT, SbCsum(img));
    SliceKept(img, next, SB_SLOT, SB, SB + 0x3FC);
    PutAgain(img, SB_SLOT, SbCsum(img));
  }

  /** A slot that misses what a descriptor's checksum covers does not change it. */
  lemma DescCsumKept(L: Layout, a: seq<byte>, b: seq<byte>, g: U32, s: Slot)
    requires Sane(L) && OnlySlot(a, b, s) && DescOffset(L, a, g).Some?
    requires var d := DescOffset(L, a, g).value;
             Misses(s, d, d + 0x1E) && (L.descSize > 32 ==> Misses(s, d + 0x20, d + L.descSize))
    ensures DescCsum(L, a, g) == DescCsum(L, b, g)
  {
    hide Crc.Crc, Le32;
    var d := DescOffset(L, a, g).value;
    SliceKept(a, b, s, d, d + 0x1E);
    if L.descSize > 32 { SliceKept(a, b, s, d + 0x20, d + L.descSize); }
  }

  lemma NarrowerByEight(c: bv32, n: nat)
    requires Narrow(c, n + 8)
    ensures Narrow(c >> 8, n)
  {
    EightHalves(c);
    hide Half;
    var c2 := Half(Half(c));
    assert Narrow(c2, n + 6) by { assert Narrow(Half(c), n + 7); }
    var c4 := Half(Half(c2));
    assert Narrow(c4, n + 4) by { assert Narrow(Half(c2), n + 5); }
    var c6 := Half(Half(c4));
    assert Narrow(c6, n + 2) by { assert Narrow(Half(c4), n + 3); }
    assert Narrow(Half(c6), n + 1);
  }

  lemma NarrowIsSmall(c: bv32)
    requires Narrow(c, 16)
    ensures c < 0x1_0000
  {
    NarrowerByEight(c, 8);
    NarrowerByEight(c >> 8, 0);
    NothingAbove16(c);
  }

  lemma NothingAbove16(c: bv32)
    requires c >> 8 >> 8 == 0
    ensures c < 0x1_0000
  {}

  /** The older checksum is a 16-bit one. */
  lemma Crc16IsSmall(seed: bv32, data: seq<byte>)
    requires seed < 0x1_0000
    ensures Crc16(seed, data) < 0x1_0000
  {
    hide Narrow, Crc.Crc;
    Parameters(0, seed);
    CrcIsCongruent(CRC16_POLY, 16, seed, data);
    NarrowIsSmall(Crc16(seed, data));
  }

  lemma SmallIsLow(v: bv32)
    ensures Low16(v) < 0x1_0000 && (v < 0x1_0000 ==> Low16(v) == v)
  {}

  lemma DescCsumIsSmall(L: Layout, img: seq<byte>, g: U32)
    requires Sane(L) && DescCsum(L, img, g).Some?
    ensures Low16(DescCsum(L, img, g).value) == DescCsum(L, img, g).value
  {
    hide Crc.Crc, Low16, Le32;
    var d, le := DescOffset(L, img, g).value, Le32(g as bv32);
    SmallIsLow(DescCsum(L, img, g).value);
    if L.metadataCsum {
      var crc := Crc32c(Crc32c(Crc32c(L.csumSeed, le), img[d..d + 0x1E]), [0, 0]);
      SmallIsLow(if L.descSize > 32 then Crc32c(crc, img[d + 0x20..d + L.descSize]) else crc);
    } else {
      var c1 := Crc16(0xFFFF, L.uuid);
      Crc16IsSmall(0xFFFF, L.uuid);
      Crc16IsSmall(c1, le);
      Crc16IsSmall(Crc16(c1, le), img[d..d + 0x1E]);
      if L.descSize > 32 { Crc16IsSmall(Crc16(Crc16(c1, le), img[d..d + 0x1E]), img[d + 0x20..d + L.descSize]); }
    }
  }

  /** A stamped descriptor checks, whatever it points at: its address does not depend on the image. */
  lemma StampDescAgrees(L: Layout, img: seq<byte>, g: U32)
    requires Sane(L) && StampDesc(L, img, g).Some?
    ensures var next := StampDesc(L, img, g).value;
            && OnlySlot(img, next, DescSlot(DescOffset(L, img, g).value))
            && Agrees(CheckDesc(L, next, g)) && StampDesc(L, next, g) == Some(next)
  {
    hide DescCsum, Put, Stored, Low16;
    var s, v := DescSlot(DescOffset(L, img, g).value), DescCsum(L, img, g).value;
    PutThenStored(img, s, v);
    DescCsumKept(L, img, Put(img, s, v), g, s);
    DescCsumIsSmall(L, img, g);
    PutAgain(img, s, v);
  }

  /** A slot that misses a descriptor's addresses moves nothing it points at. */
  lemma DescBlockKept(L: Layout, a: seq<byte>, b: seq<byte>, d: nat, lo: nat, hi: nat, s: Slot)
    requires 32 <= L.descSize <= 64 && InRange(a, d, L.descSize) && lo <= 28 && hi <= 60
    requires OnlySlot(a, b, s) && Misses(s, d + lo, d + lo + 4)
    requires L.descSize >= 64 ==> Misses(s, d + hi, d + hi + 4)
    ensures DescBlock(L, a, d, lo, hi) == DescBlock(L, b, d, lo, hi)
  {
    hide Word32;
    Rd32Kept(a, b, s, d + lo);
    if L.descSize >= 64 { Rd32Kept(a, b, s, d + hi); }
  }

  lemma Rd32Kept(a: seq<byte>, b: seq<byte>, s: Slot, at: nat)
    requires at + 4 <= |a| && OnlySlot(a, b, s) && Misses(s, at, at + 4)
    ensures Rd32(a, at) == Rd32(b, at)
  {
    assert !s.Holds(at) && !s.Holds(at + 1) && !s.Holds(at + 2) && !s.Holds(at + 3);
  }

  lemma Rd16Kept(a: seq<byte>, b: seq<byte>, s: Slot, at: nat)
    requires at + 2 <= |a| && OnlySlot(a, b, s) && Misses(s, at, at + 2)
    ensures Rd16(a, at) == Rd16(b, at)
  {
    assert !s.Holds(at) && !s.Holds(at + 1);
  }

  lemma InodeCsumKept(L: Layout, a: seq<byte>, b: seq<byte>, ino: U32, off: nat)
    requires Sane(L) && InodeOffset(L, a, ino) == Some(off) && OnlySlot(a, b, InodeSlot(L, a, off))
    requires InodeOffset(L, b, ino) == Some(off)
    ensures InodeSlot(L, b, off) == InodeSlot(L, a, off) && InodeCsum(L, a, ino) == InodeCsum(L, b, ino)
  {
    hide Crc.Crc, Zeroed, Le32, DescBlock, U64, InodeInTable, InodeGroup, Word16;
    var s := InodeSlot(L, a, off);
    if L.inodeSize > 128 { Rd16Kept(a, b, s, off + 0x80); }
    assert HasHi(L, b, off) == HasHi(L, a, off);
    ZeroedKept(a, b, off, L.inodeSize, s.wide);
  }

  /** The bytes of a descriptor that say where the inode table is. */
  predicate SaysTable(L: Layout, d: nat, k: nat) {
    d + 0x08 <= k < d + 0x0C || (L.descSize >= 64 && d + 0x28 <= k < d + 0x2C)
  }

  /** An inode stays where it is as long as the address of its table is not changed. */
  lemma InodeStays(L: Layout, a: seq<byte>, b: seq<byte>, ino: U32)
    requires Sane(L) && |a| == |b| && InodeOffset(L, a, ino).Some?
    requires var d := DescOffset(L, a, InodeGroup(L, ino)).value;
             forall k: nat :: k < |a| && SaysTable(L, d, k) ==> a[k] == b[k]
    ensures InodeOffset(L, b, ino) == InodeOffset(L, a, ino)
  {
    hide DescBlock, U64, InodeInTable, InodeGroup;
    SameBlock(L, a, b, DescOffset(L, a, InodeGroup(L, ino)).value);
  }

  lemma SameBlock(L: Layout, a: seq<byte>, b: seq<byte>, d: nat)
    requires 32 <= L.descSize <= 64 && |a| == |b| && InRange(a, d, L.descSize)
    requires forall k: nat :: k < |a| && SaysTable(L, d, k) ==> a[k] == b[k]
    ensures DescBlock(L, a, d, 0x08, 0x28) == DescBlock(L, b, d, 0x08, 0x28)
  {
    hide Word32;
  }

  /** Every byte of the address of its own table that lies on an inode's checksum already is the checksum's. */
  ghost predicate TableAlreadyThere(L: Layout, img: seq<byte>, ino: U32)
    requires Sane(L) && InodeCsum(L, img, ino).Some?
  {
    var d, s := DescOffset(L, img, InodeGroup(L, ino)).value, InodeSlot(L, img, InodeOffset(L, img, ino).value);
    forall k: nat :: k < |img| && SaysTable(L, d, k) && s.Holds(k) ==>
      img[k] == SlotByte(s, InodeCsum(L, img, ino).value, k)
  }

  /** A stamped inode checks unless its checksum lies on the address of its own table and changes it. */
  lemma StampInodeAgrees(L: Layout, img: seq<byte>, ino: U32)
    requires Sane(L) && StampInode(L, img, ino).Some?
    requires TableAlreadyThere(L, img, ino)
    ensures var next := StampInode(L, img, ino).value;
            && OnlySlot(img, next, InodeSlot(L, img, InodeOffset(L, img, ino).value))
            && Agrees(CheckInode(L, next, ino)) && StampInode(L, next, ino) == Some(next)
  {
    hide InodeCsum, InodeOffset, Put, Stored, Wanted, DescOffset, InodeGroup, Word16, SlotByte, SaysTable;
    var off := InodeOffset(L, img, ino).value;
    var s, v := InodeSlot(L, img, off), InodeCsum(L, img, ino).value;
    var next := Put(img, s, v);
    PutThenStored(img, s, v);
    var d := DescOffset(L, img, InodeGroup(L, ino)).value;
    forall k: nat | k < |img| && SaysTable(L, d, k) ensures img[k] == next[k] {
      PutByte(img, s, v, k);
    }
    InodeStays(L, img, next, ino);
    InodeCsumKept(L, img, next, ino, off);
    PutAgain(img, s, v);
  }

  lemma WordsDiffer(a: byte, b: byte, c: byte, d: byte, w: byte, x: byte, y: byte, z: byte)
    requires Word32(a, b, c, d) == Word32(w, x, y, z)
    ensures a == w && b == x && c == y && d == z
  {}

  lemma NumbersDiffer(a: bv32, b: bv32)
    requires a as int == b as int
    ensures a == b
  {
    SameWordBack(a);
    SameWordBack(b);
  }

  lemma SameWordBack(a: bv32)
    ensures (a as int) as bv32 == a
  {}

  lemma ShortBlock(L: Layout, img: seq<byte>, d: nat)
    requires 32 <= L.descSize < 64 && InRange(img, d, L.descSize)
    ensures DescBlock(L, img, d, 0x08, 0x28) == Rd32(img, d + 0x08) as int
  {
    hide Rd32;
  }

  /** In a short descriptor every change of the table's address changes it by whole blocks, and nothing wraps. */
  lemma ShortPlace(L: Layout, img: seq<byte>, ino: U32)
    requires Sane(L) && InodeOffset(L, img, ino).Some? && L.descSize < 64
    ensures var d := DescOffset(L, img, InodeGroup(L, ino)).value;
            InodeOffset(L, img, ino).value == (Rd32(img, d + 0x08) as int) * L.blockSize + IndexBytes(L, ino)
  {
    hide InodeGroup, Rd32, InodeOffset, DescOffset, DescBlock, U64;
    var d := DescOffset(L, img, InodeGroup(L, ino)).value;
    var t := Rd32(img, d + 0x08) as int;
    InodePlace(L, img, ino);
    ShortBlock(L, img, d);
    RemainderBound(ino - 1, L.inodesPerGroup);
    SmallProduct((ino - 1) % L.inodesPerGroup, L.inodeSize, 65536);
    SmallProduct(t, L.blockSize, 65536);
    NoWrap(t * L.blockSize);
    NoWrap(t * L.blockSize + IndexBytes(L, ino));
  }

  /** Such a change is what the exception of `StampInodeAgrees` is about: with a descriptor too short for a high
      half, the check then looks elsewhere, or nowhere. */
  lemma ChangedTableMoves(L: Layout, a: seq<byte>, b: seq<byte>, ino: U32, k: nat)
    requires Sane(L) && |a| == |b| && InodeOffset(L, a, ino).Some? && L.descSize < 64
    requires SaysTable(L, DescOffset(L, a, InodeGroup(L, ino)).value, k) && k < |a| && a[k] != b[k]
    ensures InodeOffset(L, b, ino) != InodeOffset(L, a, ino)
  {
    if InodeOffset(L, b, ino) == InodeOffset(L, a, ino) {
      ShortPlace(L, a, ino);
      ShortPlace(L, b, ino);
      var at := DescOffset(L, a, InodeGroup(L, ino)).value + 0x08;
      hide InodeOffset, InodeGroup, DescOffset, Word32, IndexBytes;
      SameProduct(Rd32(a, at) as int, Rd32(b, at) as int, L.blockSize);
      NumbersDiffer(Rd32(a, at), Rd32(b, at));
      WordsDiffer(a[at], a[at + 1], a[at + 2], a[at + 3], b[at], b[at + 1], b[at + 2], b[at + 3]);
    }
  }

  /** So with such a descriptor the check looks where the stamp was put exactly when that was no change. */
  lemma StampedInodeStaysIff(L: Layout, img: seq<byte>, ino: U32)
    requires Sane(L) && StampInode(L, img, ino).Some? && L.descSize < 64
    ensures var next := StampInode(L, img, ino).value;
            InodeOffset(L, next, ino) == InodeOffset(L, img, ino) <==> TableAlreadyThere(L, img, ino)
  {
    hide InodeCsum, InodeOffset, Put, DescOffset, InodeGroup, SlotByte, SaysTable, Word16;
    var off, d := InodeOffset(L, img, ino).value, DescOffset(L, img, InodeGroup(L, ino)).value;
    var s, v := InodeSlot(L, img, off), InodeCsum(L, img, ino).value;
    var next := Put(img, s, v);
    forall k: nat | k < |img| ensures next[k] == if s.Holds(k) then SlotByte(s, v, k) else img[k] {
      PutByte(img, s, v, k);
    }
    if TableAlreadyThere(L, img, ino) {
      InodeStays(L, img, next, ino);
    } else {
      var k: nat :| k < |img| && SaysTable(L, d, k) && s.Holds(k) && img[k] != SlotByte(s, v, k);
      ChangedTableMoves(L, img, next, ino, k);
    }
  }

  lemma SameProduct(x: nat, y: nat, size: nat)
    requires x * size == y * size && size > 0
    ensures x == y
  {
    if x < y { Arith.MulMonotone(x + 1, y, size); Arith.Distribute(x, 1, size); }
    if y < x { Arith.MulMonotone(y + 1, x, size); Arith.Distribute(y, 1, size); }
  }

  /** The fields of an inode's checksum do not count towards it. */
  lemma ZeroedKept(a: seq<byte>, b: seq<byte>, off: nat, size: nat, hasHi: bool)
    requires off + size <= |a| && size >= 128 && (hasHi ==> size >= 256)
    requires OnlySlot(a, b, Slot(off + 0x7C, off + 0x82, hasHi))
    ensures Zeroed(a[off..off + size], hasHi) == Zeroed(b[off..off + size], hasHi)
  {
    var s := Slot(off + 0x7C, off + 0x82, hasHi);
    var x, y := Zeroed(a[off..off + size], hasHi), Zeroed(b[off..off + size], hasHi);
    forall k | 0 <= k < size ensures x[k] == y[k] {
      if !s.Holds(off + k) { assert a[off + k] == b[off + k]; }
    }
  }

  /** A slot that misses a bitmap and what locates it does not change the bitmap's checksum. */
  lemma BitmapCsumKept(L: Layout, a: seq<byte>, b: seq<byte>, g: U32, blockMap: bool, s: Slot)
    requires Sane(L) && OnlySlot(a, b, s) && BitmapRegion(L, a, g, blockMap).Some?
    requires var r, d := BitmapRegion(L, a, g, blockMap).value, DescOffset(L, a, g).value;
             && Misses(s, r.0, r.0 + r.1)
             && Misses(s, d, d + 0x18) && (L.descSize >= 64 ==> Misses(s, d + 0x20, d + 0x28))
    ensures BitmapRegion(L, b, g, blockMap) == BitmapRegion(L, a, g, blockMap)
    ensures BitmapCsum(L, a, g, blockMap) == BitmapCsum(L, b, g, blockMap)
  {
    hide BitmapRegion, Crc.Crc;
    var r := BitmapRegion(L, a, g, blockMap).value;
    RegionKept(L, a, b, g, blockMap, s);
    SliceKept(a, b, s, r.0, r.0 + r.1);
  }

  /** A stamped bitmap checks unless the bitmap lies on its own checksum field. */
  lemma StampBitmapAgrees(L: Layout, img: seq<byte>, g: U32, blockMap: bool)
    requires Sane(L) && StampBitmap(L, img, g, blockMap).Some?
    requires var r := BitmapRegion(L, img, g, blockMap).value;
             Misses(BitmapSlot(L, DescOffset(L, img, g).value, blockMap), r.0, r.0 + r.1)
    ensures var next := StampBitmap(L, img, g, blockMap).value;
            && OnlySlot(img, next, BitmapSlot(L, DescOffset(L, img, g).value, blockMap))
            && Agrees(CheckBitmap(L, next, g, blockMap)) && StampBitmap(L, next, g, blockMap) == Some(next)
  {
    hide BitmapCsum, BitmapRegion, Put, Stored, Wanted;
    var s, v := BitmapSlot(L, DescOffset(L, img, g).value, blockMap), BitmapCsum(L, img, g, blockMap).value;
    PutThenStored(img, s, v);
    BitmapCsumKept(L, img, Put(img, s, v), g, blockMap, s);
    PutAgain(img, s, v);
  }

  // ---- A bitmap that lies on its own checksum ----

  /** What the slot gets at k. */
  function SlotByte(s: Slot, v: bv32, k: nat): byte
    requires s.Holds(k)
  {
    if s.lo <= k < s.lo + 2 then Le16(v)[k - s.lo] else Le16(High16(v))[k - s.hi]
  }

  lemma PutByte(img: seq<byte>, s: Slot, v: bv32, k: nat)
    requires s.Fits(|img|) && k < |img|
    ensures Put(img, s, v)[k] == if s.Holds(k) then SlotByte(s, v, k) else img[k]
  {
    hide ByteAt, High16;
  }

  /** What putting v changes in the n bytes from `from` on. */
  function Moved(img: seq<byte>, from: nat, n: nat, s: Slot, v: bv32): (r: seq<byte>)
    requires from + n <= |img|
    ensures |r| == n
    ensures forall i :: 0 <= i < n ==> r[i] == MovedByte(img, from + i, s, v)
  {
    seq(n, i requires 0 <= i < n => MovedByte(img, from + i, s, v))
  }

  function MovedByte(img: seq<byte>, k: nat, s: Slot, v: bv32): byte
    requires k < |img|
  {
    if s.Holds(k) then img[k] ^ SlotByte(s, v, k) else 0
  }

  lemma SameByte(a: byte, b: byte)
    ensures a ^ b == 0 <==> a == b
  {}

  lemma MovedIsXor(img: seq<byte>, from: nat, n: nat, s: Slot, v: bv32)
    requires s.Fits(|img|) && from + n <= |img|
    ensures Xor(img[from..from + n], Put(img, s, v)[from..from + n]) == Moved(img, from, n, s, v)
  {
    hide Put, SlotByte;
    var before, after := img[from..from + n], Put(img, s, v)[from..from + n];
    forall i | 0 <= i < n ensures Xor(before, after)[i] == Moved(img, from, n, s, v)[i] {
      PutByte(img, s, v, from + i);
      SameByte(img[from + i], img[from + i]);
      assert before[i] == img[from + i] && after[i] == Put(img, s, v)[from + i];
    }
  }

  lemma WantedOfSum(s: Slot, a: bv32, b: bv32)
    ensures Wanted(s, a) == Wanted(s, b) <==> Wanted(s, Plus(a, b)) == 0
  {
    hide Plus, Low16;
    SumIsZero(a, b);
    LowOfSum(a, b);
  }

  /** A stamped bitmap checks exactly when what the stamp changed of the bitmap itself, if anything, is lost in the part
      of the register that is stored: a condition on the image before it is stamped, for every overlap. */
  lemma BitmapAgreesByRegister(L: Layout, img: seq<byte>, g: U32, blockMap: bool)
    requires Sane(L) && StampBitmap(L, img, g, blockMap).Some?
    ensures var r, v := BitmapRegion(L, img, g, blockMap).value, BitmapCsum(L, img, g, blockMap).value;
            var s := BitmapSlot(L, DescOffset(L, img, g).value, blockMap);
            var next := StampBitmap(L, img, g, blockMap).value;
            && CheckBitmap(L, next, g, blockMap).Some?
            && (Agrees(CheckBitmap(L, next, g, blockMap)) <==> Wanted(s, Crc32c(0, Moved(img, r.0, r.1, s, v))) == 0)
  {
    hide Put, Stored, BitmapRegion, Crc.Crc, Moved, Wanted, Plus;
    var r, d := BitmapRegion(L, img, g, blockMap).value, DescOffset(L, img, g).value;
    var s, v := BitmapSlot(L, d, blockMap), BitmapCsum(L, img, g, blockMap).value;
    var next := Put(img, s, v);
    PutThenStored(img, s, v);
    RegionKept(L, img, next, g, blockMap, s);
    var before, after := img[r.0..r.0 + r.1], next[r.0..r.0 + r.1];
    MovedIsXor(img, r.0, r.1, s, v);
    CrcIsLinear(CRC32C_POLY, L.csumSeed, L.csumSeed, before, after);
    ZeroWords(L.csumSeed);
    WantedOfSum(s, v, Crc32c(L.csumSeed, after));
  }

  /** Every byte of the bitmap on its own checksum field already is what the stamp puts there. */
  ghost predicate AlreadyThere(img: seq<byte>, from: nat, n: nat, s: Slot, v: bv32)
    requires from + n <= |img|
  {
    forall k: nat :: from <= k < from + n && s.Holds(k) ==> img[k] == SlotByte(s, v, k)
  }

  lemma NothingMoves(img: seq<byte>, from: nat, n: nat, s: Slot, v: bv32)
    requires from + n <= |img|
    ensures AlreadyThere(img, from, n, s, v) <==> Moved(img, from, n, s, v) == Zeros(n)
  {
    hide SlotByte;
    var m := Moved(img, from, n, s, v);
    forall i | 0 <= i < n && s.Holds(from + i) ensures m[i] == 0 <==> img[from + i] == SlotByte(s, v, from + i) {
      SameByte(img[from + i], SlotByte(s, v, from + i));
    }
    if m == Zeros(n) {
      forall k: nat | from <= k < from + n && s.Holds(k) ensures img[k] == SlotByte(s, v, k) {
        assert m[k - from] == 0;
      }
    }
  }

  /** Where both halves are stored, and where only the low half is and the bitmap ends no later than its first byte: a
      stamped bitmap checks exactly when the bytes it has on its own checksum field already were the checksum's. */
  lemma AliasedBitmapAgreesIff(L: Layout, img: seq<byte>, g: U32, blockMap: bool)
    requires Sane(L) && StampBitmap(L, img, g, blockMap).Some?
    requires var r, s := BitmapRegion(L, img, g, blockMap).value, BitmapSlot(L, DescOffset(L, img, g).value, blockMap);
             s.wide || r.0 + r.1 <= s.lo + 1
    ensures var r, v := BitmapRegion(L, img, g, blockMap).value, BitmapCsum(L, img, g, blockMap).value;
            var s := BitmapSlot(L, DescOffset(L, img, g).value, blockMap);
            var next := StampBitmap(L, img, g, blockMap).value;
            Agrees(CheckBitmap(L, next, g, blockMap)) <==> AlreadyThere(img, r.0, r.1, s, v)
  {
    hide Put, BitmapRegion, BitmapCsum, DescOffset, Crc32c, Moved, CheckBitmap, AlreadyThere, Low16;
    BitmapAgreesByRegister(L, img, g, blockMap);
    var r, v := BitmapRegion(L, img, g, blockMap).value, BitmapCsum(L, img, g, blockMap).value;
    var s := BitmapSlot(L, DescOffset(L, img, g).value, blockMap);
    NothingMoves(img, r.0, r.1, s, v);
    if s.wide {
      WideMoves(img, r.0, r.1, s, v);
    } else {
      LastMoves(img, r.0, r.1, s, v);
    }
  }

  lemma ZerosVanish(n: nat)
    ensures Crc32c(0, Zeros(n)) == 0
  {
    hide Crc.Crc, Steps;
    CrcOfZeros(0, n);
    StepsOfZero(8 * n);
  }

  lemma WideMoves(img: seq<byte>, from: nat, n: nat, s: Slot, v: bv32)
    requires from + n <= |img| && s.hi == s.lo + 32
    ensures Crc32c(0, Moved(img, from, n, s, v)) == 0 <==> Moved(img, from, n, s, v) == Zeros(n)
  {
    hide SlotByte, Crc.Crc;
    var m := Moved(img, from, n, s, v);
    ZerosVanish(n);
    if Crc32c(0, m) == 0 { SparseShows(m, from, s.lo); }
  }

  lemma LastMoves(img: seq<byte>, from: nat, n: nat, s: Slot, v: bv32)
    requires from + n <= |img| && !s.wide && from + n <= s.lo + 1
    ensures Low16(Crc32c(0, Moved(img, from, n, s, v))) == 0 <==> Moved(img, from, n, s, v) == Zeros(n)
  {
    hide SlotByte, Crc.Crc;
    var m := Moved(img, from, n, s, v);
    ZerosVanish(n);
    if m != [] {
      var x := m[n - 1];
      assert m == Zeros(n - 1) + [x];
      FrontVanishes(n - 1, [x]);
      LastByteShows(x);
      if x == 0 { assert m == Zeros(n); }
    }
  }

  lemma FrontVanishes(n: nat, e: seq<byte>)
    ensures Crc32c(0, Zeros(n) + e) == Crc32c(0, e)
  {
    hide Crc.Crc;
    CrcConcat(CRC32C_POLY, 0, Zeros(n), e);
    ZerosVanish(n);
  }

  /** The two bytes at the low half already are the checksum's, or are off by the one pattern it cannot show. */
  predicate UnseenInLowHalf(img: seq<byte>, lo: nat, v: bv32)
    requires lo + 2 <= |img|
  {
    Unseen(img[lo] ^ ByteAt(v, 0), img[lo + 1] ^ ByteAt(v, 8))
  }

  /** Where only the low half is stored and the bitmap ends with it, exactly one other change goes unseen. */
  lemma AliasedLowHalfAgreesIff(L: Layout, img: seq<byte>, g: U32, blockMap: bool)
    requires Sane(L) && StampBitmap(L, img, g, blockMap).Some?
    requires var r, s := BitmapRegion(L, img, g, blockMap).value, BitmapSlot(L, DescOffset(L, img, g).value, blockMap);
             !s.wide && r.0 <= s.lo && r.0 + r.1 == s.lo + 2
    ensures var v, s := BitmapCsum(L, img, g, blockMap).value, BitmapSlot(L, DescOffset(L, img, g).value, blockMap);
            var next := StampBitmap(L, img, g, blockMap).value;
            Agrees(CheckBitmap(L, next, g, blockMap)) <==> UnseenInLowHalf(img, s.lo, v)
  {
    hide Put, BitmapRegion, DescOffset, Crc.Crc, CheckBitmap, Low16, Moved, UnseenInLowHalf;
    BitmapAgreesByRegister(L, img, g, blockMap);
    var r, v := BitmapRegion(L, img, g, blockMap).value, BitmapCsum(L, img, g, blockMap).value;
    LastTwoMove(img, r.0, r.1, BitmapSlot(L, DescOffset(L, img, g).value, blockMap), v);
  }

  lemma LastTwoMove(img: seq<byte>, from: nat, n: nat, s: Slot, v: bv32)
    requires s.Fits(|img|) && from + n <= |img| && !s.wide && from <= s.lo && from + n == s.lo + 2
    ensures Low16(Crc32c(0, Moved(img, from, n, s, v))) == 0 <==> UnseenInLowHalf(img, s.lo, v)
  {
    hide Crc.Crc, Low16, ByteAt, Unseen, MovedByte, UnseenInLowHalf;
    var x, y := MovedByte(img, s.lo, s, v), MovedByte(img, s.lo + 1, s, v);
    var m := Moved(img, from, n, s, v);
    forall i | 0 <= i < n - 2 ensures m[i] == 0 {
      NotMoved(img, from + i, s, v);
    }
    assert m == Zeros(n - 2) + [x, y] by { assert m[n - 2] == x && m[n - 1] == y; }
    FrontVanishes(n - 2, [x, y]);
    TwoBytesMayHide(x, y);
    LowHalfMoves(img, s, v);
  }

  lemma NotMoved(img: seq<byte>, k: nat, s: Slot, v: bv32)
    requires k < |img| && !s.Holds(k)
    ensures MovedByte(img, k, s, v) == 0
  {}

  lemma LowHalfMoves(img: seq<byte>, s: Slot, v: bv32)
    requires s.lo + 2 <= |img|
    ensures Unseen(MovedByte(img, s.lo, s, v), MovedByte(img, s.lo + 1, s, v)) <==> UnseenInLowHalf(img, s.lo, v)
  {
    hide Unseen, ByteAt;
  }

  // ---- Images on which the bitmap lies on its own checksum ----

  /** The first 2 KiB of the images below: 1024 blocks of 1 KiB in small groups, checksummed from this seed. */
  function SuperByte(perGroup: byte, descSize: byte, seed: bv32, k: nat): byte {
    if k == SB + 0x05 then 4                             // 1024 blocks
    else if k == SB + 0x14 then 1                        // the first of them
    else if k == SB + 0x20 then perGroup
    else if k == SB + 0x28 then 8                        // inodes in a group
    else if k == SB + 0x38 then 0x53
    else if k == SB + 0x39 then 0xEF
    else if k == SB + 0x58 then 128                      // inode size
    else if k == SB + 0x60 then 0x80                     // 64-bit
    else if k == SB + 0x61 then 0x20                     // with a seed
    else if k == SB + 0x65 then 4                        // metadata_csum
    else if k == SB + 0xFE then descSize
    else if SB + 0x270 <= k < SB + 0x274 then Le32(seed)[k - SB - 0x270]
    else 0
  }

  ghost predicate IsSuper(img: seq<byte>, perGroup: byte, descSize: byte, seed: bv32) {
    |img| >= 2 * SB && forall k: nat :: k < 2 * SB ==> img[k] == SuperByte(perGroup, descSize, seed, k)
  }

  lemma SuperWords(img: seq<byte>, perGroup: byte, descSize: byte, seed: bv32)
    requires IsSuper(img, perGroup, descSize, seed)
    ensures Rd16(img, SB + 0x38) == 0xEF53 && Rd32(img, SB + 0x18) == 0 && Rd32(img, SB + 0x60) == 0x2080
    ensures Rd32(img, SB + 0x64) == 0x400 && Rd32(img, SB + 0x04) == 1024 && Rd32(img, SB + 0x14) == 1
    ensures Rd32(img, SB + 0x28) == 8 && Rd16(img, SB + 0x58) == 128 && Rd32(img, SB + 0x150) == 0
    ensures Rd32(img, SB) == 0
  {}

  lemma SuperParameters(img: seq<byte>, perGroup: byte, descSize: byte, seed: bv32)
    requires IsSuper(img, perGroup, descSize, seed)
    ensures Rd32(img, SB + 0x20) == Word32(perGroup, 0, 0, 0) && Rd16(img, SB + 0xFE) == Word16(descSize, 0)
    ensures Rd32(img, SB + 0x270) == seed
  {
    hide Word32, Word16, ByteAt;
    FieldWords(seed);
  }

  lemma SuperNumbers()
    ensures Word32(8, 0, 0, 0) == 8 && Word32(16, 0, 0, 0) == 16 && PowerOfTwo(128)
    ensures Word16(40, 0) == 40 && Word16(33, 0) == 33
    ensures Has(0x2080, 0x80) && Has(0x2080, 0x2000) && Has(0x400, 0x400)
  {}

  /** The superblock makes sense. */
  lemma SuperParses(img: seq<byte>, perGroup: byte, descSize: byte, seed: bv32)
    requires IsSuper(img, perGroup, descSize, seed) && (perGroup == 8 || perGroup == 16) && descSize in {33, 40}
    ensures var L := Parse(img);
            && Sane(L) && L.ok && L.blockSize == 1024 && L.gdtBlock == 2 && L.descSize == descSize as int
            && L.metadataCsum && L.blocksPerGroup == perGroup as int && L.csumSeed == seed
            && L.inodesPerGroup == 8 && L.inodesCount == 0 && L.inodeSize == 128
            && L.groupCount == if perGroup == 8 then 128 else 64
  {
    SuperWords(img, perGroup, descSize, seed);
    SuperParameters(img, perGroup, descSize, seed);
    SuperNumbers();
    ParsedIsSane(img);
    hide Crc.Crc, Rd16, Rd32, Has, PowerOfTwo, Word32, Word16, IsSuper, Sane;
  }

  /** One byte of an image whose 40-byte descriptor of group 25 starts 24 bytes before a block, with its block bitmap
      in that block; `first` is the bitmap's first byte. */
  function SampleByte(perGroup: byte, seed: bv32, first: byte, k: nat): byte {
    if k < 2 * SB then SuperByte(perGroup, 40, seed, k)
    else if k == SAMPLE_DESC then 3                      // its block bitmap
    else if k == SAMPLE_DESC + 0x18 then first
    else 0
  }

  const SAMPLE_DESC: nat := 2 * 1024 + 25 * 40

  function Sample(perGroup: byte, seed: bv32, first: byte): (r: seq<byte>)
    ensures |r| == SAMPLE_DESC + 40
    ensures forall k :: 0 <= k < |r| ==> r[k] == SampleByte(perGroup, seed, first, k)
  {
    seq(SAMPLE_DESC + 40, k requires 0 <= k => SampleByte(perGroup, seed, first, k))
  }

  lemma SampleParses(perGroup: byte, seed: bv32, first: byte)
    requires perGroup == 8 || perGroup == 16
    ensures var L := Parse(Sample(perGroup, seed, first));
            && Sane(L) && L.ok && L.blockSize == 1024 && L.gdtBlock == 2 && L.descSize == 40 && L.metadataCsum
            && L.groupCount > 25 && L.blocksPerGroup == perGroup as int && L.csumSeed == seed
  {
    hide Parse, SuperByte, Sane;
    assert IsSuper(Sample(perGroup, seed, first), perGroup, 40, seed);
    SuperParses(Sample(perGroup, seed, first), perGroup, 40, seed);
  }

  lemma SampleDesc(perGroup: byte, seed: bv32, first: byte)
    ensures var img := Sample(perGroup, seed, first);
            && Rd32(img, SAMPLE_DESC) == 3 && Rd16(img, SAMPLE_DESC + 0x12) == 0 && !Has(0, 2)
  {}

  lemma SampleRegion(perGroup: byte, seed: bv32, first: byte)
    requires perGroup == 8 || perGroup == 16
    ensures var img := Sample(perGroup, seed, first);
            var L := Parse(img);
            && Sane(L) && L.ok && DescOffset(L, img, 25) == Some(SAMPLE_DESC)
            && BitmapRegion(L, img, 25, true) == Some((SAMPLE_DESC + 0x18, perGroup as int / 8))
            && BitmapSlot(L, SAMPLE_DESC, true) == Slot(SAMPLE_DESC + 0x18, SAMPLE_DESC + 0x38, false)
            && StampBitmap(L, img, 25, true).Some?
  {
    hide Parse, Crc.Crc, Rd16, Rd32, Has, Sample, Put;
    SampleParses(perGroup, seed, first);
    SampleDesc(perGroup, seed, first);
  }

  lemma FirstSampleCsum()
    ensures Crc32c(0, [1]) == 0xF26B8303 && ByteAt(0xF26B8303, 0) == 3
  {
    hide Steps, Feed, Crc.Crc, Plus, Eight;
    OneByte(0, 1);
    FedFromZero(1);
    OneAtATime(1);
    EightOfOne();
  }

  lemma SecondSampleCsum()
    ensures Crc32c(0x904D_0000, [0, 0]) == 0x904D && ByteAt(0x904D, 0) == 0x4D && ByteAt(0x904D, 8) == 0x90
  {
    hide Steps, Crc.Crc, Plus, Word16, Eight;
    TwoBytes(0x904D_0000, 0, 0);
    WordBytes(0, 0);
    ZeroWords(0x904D_0000);
    EightShifts(0x904D_0000);
    EightShifts(0x904D00);
    TwiceEight(0x904D_0000);
  }

  lemma EightOfOne()
    ensures Eight(1) == 0xF26B8303
  {}

  lemma FedFromZero(x: byte)
    ensures Feed(CRC32C_POLY, 0, x) == Steps(CRC32C_POLY, x as bv32, 8)
  {
    hide Steps, Plus;
    ZeroWords(x as bv32);
  }

  /** An image that parses, whose block bitmap of group 25 is the first byte of its own checksum: stamped, it does not
      check. */
  lemma StampedAndWrong()
    ensures var img := Sample(8, 0, 1);
            var L := Parse(img);
            && Sane(L) && L.ok && StampBitmap(L, img, 25, true).Some?
            && CheckBitmap(L, StampBitmap(L, img, 25, true).value, 25, true).Some?
            && !Agrees(CheckBitmap(L, StampBitmap(L, img, 25, true).value, 25, true))
  {
    hide Parse, Crc.Crc, ByteAt, DescOffset, CheckBitmap, BitmapRegion, Put;
    var img := Sample(8, 0, 1);
    var L := Parse(img);
    SampleRegion(8, 0, 1);
    SampleParses(8, 0, 1);
    assert img[SAMPLE_DESC + 0x18..SAMPLE_DESC + 0x19] == [1];
    FirstSampleCsum();
    BitmapAgreesByRegister(L, img, 25, true);
    AliasedBitmapAgreesIff(L, img, 25, true);
    var s, v := BitmapSlot(L, SAMPLE_DESC, true), BitmapCsum(L, img, 25, true).value;
    assert s.Holds(SAMPLE_DESC + 0x18) && SlotByte(s, v, SAMPLE_DESC + 0x18) == 3;
  }

  /** And one whose bitmap is the whole low half, and which does check, though what it held was not its checksum. */
  lemma StampedAndRightByChance()
    ensures var img := Sample(16, 0x904D_0000, 0);
            var L := Parse(img);
            && Sane(L) && L.ok && StampBitmap(L, img, 25, true).Some?
            && Agrees(CheckBitmap(L, StampBitmap(L, img, 25, true).value, 25, true))
            && var s, v := BitmapSlot(L, SAMPLE_DESC, true), BitmapCsum(L, img, 25, true).value;
               !AlreadyThere(img, SAMPLE_DESC + 0x18, 2, s, v)
  {
    hide Parse, Crc.Crc, ByteAt, DescOffset, CheckBitmap, BitmapRegion, Put;
    var img := Sample(16, 0x904D_0000, 0);
    var L := Parse(img);
    SampleRegion(16, 0x904D_0000, 0);
    SampleParses(16, 0x904D_0000, 0);
    assert img[SAMPLE_DESC + 0x18..SAMPLE_DESC + 0x1A] == [0, 0];
    SecondSampleCsum();
    AliasedLowHalfAgreesIff(L, img, 25, true);
    assert BitmapSlot(L, SAMPLE_DESC, true).Holds(SAMPLE_DESC + 0x18);
  }

  /** One byte of an image whose inode 934 ends on the descriptor of its own group, 116, its checksum on the address of
      the inode table. */
  function InodeSampleByte(k: nat): byte {
    if k < 2 * SB then SuperByte(8, 33, 934, k)
    else if k == INODE_DESC + 0x04 then 1                // the last of the inode that its checksum covers
    else if k == INODE_DESC + 0x08 then 5                // the inode table
    else 0
  }

  const INODE_DESC: nat := 2 * 1024 + 116 * 33

  function InodeSample(): (r: seq<byte>)
    ensures |r| == INODE_DESC + 33
    ensures forall k :: 0 <= k < |r| ==> r[k] == InodeSampleByte(k)
  {
    seq(INODE_DESC + 33, k requires 0 <= k => InodeSampleByte(k))
  }

  lemma InodeSampleParses()
    ensures var L := Parse(InodeSample());
            && Sane(L) && L.ok && L.blockSize == 1024 && L.gdtBlock == 2 && L.descSize == 33 && L.metadataCsum
            && L.groupCount == 128 && L.csumSeed == 934
            && L.inodesPerGroup == 8 && L.inodesCount == 0 && L.inodeSize == 128
  {
    hide Parse, SuperByte, Sane;
    assert IsSuper(InodeSample(), 8, 33, 934);
    SuperParses(InodeSample(), 8, 33, 934);
  }

  lemma InodeSampleWords()
    ensures Rd32(InodeSample(), INODE_DESC + 0x08) == 5
  {}

  lemma InodeSamplePlace()
    ensures var img := InodeSample();
            var L := Parse(img);
            && Sane(L) && InodeGroup(L, 934) == 116 && DescOffset(L, img, 116) == Some(INODE_DESC)
            && InodeOffset(L, img, 934) == Some(INODE_DESC - 116)
  {
    hide Parse, Rd32, InodeSample, Word16;
    InodeSampleParses();
    InodeSampleWords();
    var img := InodeSample();
    var L := Parse(img);
    ShortBlock(L, img, INODE_DESC);
  }

  /** The inode with its checksum zeroed. */
  lemma InodeSampleCopy()
    ensures var img := InodeSample();
            var copy := Zeroed(img[INODE_DESC - 116..INODE_DESC + 12], false);
            copy == Zeros(120) + [1, 0] + Zeros(6) && img[INODE_DESC - 16..INODE_DESC - 12] == Zeros(4)
  {
    hide SuperByte;
    var img := InodeSample();
    var copy := Zeroed(img[INODE_DESC - 116..INODE_DESC + 12], false);
    forall k | 0 <= k < 128 ensures copy[k] == if k == 120 then 1 else 0 {
      assert 0x7C <= k < 0x7E || copy[k] == img[INODE_DESC - 116 + k];
    }
  }

  /** The seed and the inode's number cancel; what is left is the one byte, eight bytes before the end. */
  lemma InodeSampleCsum()
    ensures Crc32c(934, Le32(934) + Zeros(4) + (Zeros(120) + [1, 0] + Zeros(6))) == 0x493C7D27
  {
    hide Crc.Crc, Steps, Plus, Word16, Eight;
    var le := Le32(934);
    NumberBytes();
    assert le == [0xA6, 0x03] + Zeros(2);
    TwoBytes(934, 0xA6, 0x03);
    NumberCancels();
    StepsOfZero(16);
    CrcConcat(CRC32C_POLY, 934, [0xA6, 0x03], Zeros(2));
    ZerosVanish(2);
    CrcConcat(CRC32C_POLY, 934, le, Zeros(4));
    ZerosVanish(4);
    CrcConcat(CRC32C_POLY, 934, le + Zeros(4), Zeros(120) + [1, 0] + Zeros(6));
    CrcConcat(CRC32C_POLY, 0, Zeros(120) + [1, 0], Zeros(6));
    FrontVanishes(120, [1, 0]);
    OneThenZeros();
  }

  lemma NumberBytes()
    ensures Le32(934) == [0xA6, 0x03, 0, 0]
  {}

  lemma NumberCancels()
    ensures Plus(934, Word16(0xA6, 0x03)) == 0
  {}

  lemma OneThenZeros()
    ensures Crc32c(Crc32c(0, [1, 0]), Zeros(6)) == 0x493C7D27
  {
    hide Crc.Crc, Steps, Plus, Eight;
    TwoBytes(0, 1, 0);
    assert Plus(0, Word16(1, 0)) == 1 by { OneAlone(); }
    CrcOfZeros(Steps(CRC32C_POLY, 1, 16), 6);
    StepsCompose(1, 16, 48);
    EightBytes();
  }

  lemma OneAlone()
    ensures Plus(0, Word16(1, 0)) == 1
  {}

  lemma NoHigh(L: Layout, img: seq<byte>, off: nat)
    requires InRange(img, off, L.inodeSize) && L.inodeSize == 128
    ensures !HasHi(L, img, off)
  {}

  /** What the stamp writes. */
  lemma InodeSampleStamp()
    ensures var img := InodeSample();
            var L := Parse(img);
            var s := Slot(INODE_DESC + 8, INODE_DESC + 14, false);
            Sane(L) && StampInode(L, img, 934) == Some(Put(img, s, 0x493C7D27))
  {
    var img := InodeSample();
    hide Parse, Crc.Crc, Rd32, Put, InodeSample, Zeroed, Le32, DescOffset, InodeOffset, HasHi, InodeGroup;
    var L := Parse(img);
    InodeSampleParses();
    InodeSamplePlace();
    InodeSampleCopy();
    InodeSampleCsum();
    assert InodeCsum(L, img, 934).Some?;
    NoHigh(L, img, INODE_DESC - 116);
    InodeCsumIsOneCrc(L, img, 934);
    assert InodeCsum(L, img, 934).value == 0x493C7D27;
  }

  /** With block 0x7D27 for its table, the inode is past the end. */
  lemma InodeSamplePast(L: Layout, next: seq<byte>)
    requires Sane(L) && L.ok && L.blockSize == 1024 && L.descSize == 33 && L.inodesPerGroup == 8 && L.inodeSize == 128
    requires |next| == INODE_DESC + 33 && DescOffset(L, next, 116) == Some(INODE_DESC)
    requires Rd32(next, INODE_DESC + 0x08) == 0x7D27
    ensures InodeOffset(L, next, 934) == None
  {
    hide Rd32, DescOffset;
    ShortBlock(L, next, INODE_DESC);
  }

  /** An image that parses, on which a stamped inode is not found again. */
  lemma StampedAndLost()
    ensures var img := InodeSample();
            var L := Parse(img);
            && Sane(L) && L.ok && StampInode(L, img, 934).Some?
            && CheckInode(L, StampInode(L, img, 934).value, 934) == None
  {
    hide Parse, Put, InodeSample, InodeOffset, DescOffset, Rd32, StampInode;
    var img := InodeSample();
    var L := Parse(img);
    InodeSampleParses();
    InodeSamplePlace();
    InodeSampleStamp();
    var next := Put(img, Slot(INODE_DESC + 8, INODE_DESC + 14, false), 0x493C7D27);
    StampedTable(img, next);
    SameDesc(L, img, next, 116);
    InodeSamplePast(L, next);
  }

  lemma SameDesc(L: Layout, a: seq<byte>, b: seq<byte>, g: U32)
    requires |a| == |b|
    ensures DescOffset(L, a, g) == DescOffset(L, b, g)
  {}

  lemma StampedTable(img: seq<byte>, next: seq<byte>)
    requires img == InodeSample() && next == Put(img, Slot(INODE_DESC + 8, INODE_DESC + 14, false), 0x493C7D27)
    ensures Rd32(next, INODE_DESC + 0x08) == 0x7D27
  {
    assert ByteAt(0x493C7D27, 0) == 0x27 && ByteAt(0x493C7D27, 8) == 0x7D;
    hide SuperByte;
  }

  lemma RegionKept(L: Layout, a: seq<byte>, b: seq<byte>, g: U32, blockMap: bool, s: Slot)
    requires Sane(L) && OnlySlot(a, b, s) && BitmapRegion(L, a, g, blockMap).Some?
    requires var d := DescOffset(L, a, g).value;
             Misses(s, d, d + 0x18) && (L.descSize >= 64 ==> Misses(s, d + 0x20, d + 0x28))
    ensures BitmapRegion(L, b, g, blockMap) == BitmapRegion(L, a, g, blockMap)
  {
    hide DescBlock, U64, Word16;
    var d := DescOffset(L, a, g).value;
    Rd16Kept(a, b, s, d + 0x12);
    DescBlockKept(L, a, b, d, if blockMap then 0x00 else 0x04, if blockMap then 0x20 else 0x24, s);
  }

  /** Damage to one byte of a bitmap whose check agreed is found, once the descriptor is long enough for both halves. */
  lemma BitmapDamageShows(L: Layout, img: seq<byte>, g: U32, blockMap: bool, k: nat, x: byte)
    requires Sane(L) && L.descSize >= 60 && Agrees(CheckBitmap(L, img, g, blockMap))
    requires var r, d := BitmapRegion(L, img, g, blockMap).value, DescOffset(L, img, g).value;
             r.0 <= k < r.0 + r.1 && !(d <= k < d + L.descSize) && img[k] != x
    ensures CheckBitmap(L, img[k := x], g, blockMap).Some? && !Agrees(CheckBitmap(L, img[k := x], g, blockMap))
  {
    hide Crc.Crc, Stored, DescBlock, U64, Word16;
    var r, d := BitmapRegion(L, img, g, blockMap).value, DescOffset(L, img, g).value;
    var next := img[k := x];
    OneByteMoves(L, img, g, blockMap, k, x);
    var before, after := img[r.0..r.0 + r.1], next[r.0..r.0 + r.1];
    forall i | 0 <= i < r.1 && i != k - r.0 ensures before[i] == after[i] {
      assert before[i] == img[r.0 + i] && after[i] == next[r.0 + i];
    }
    assert before[k - r.0] == img[k] && after[k - r.0] == x;
    OneByteShows(L.csumSeed, before, after, k - r.0);
  }

  lemma BlockBeside(L: Layout, img: seq<byte>, d: nat, lo: nat, hi: nat, k: nat, x: byte)
    requires 32 <= L.descSize <= 64 && InRange(img, d, L.descSize) && lo <= 28 && hi <= 60
    requires k < |img| && !(d <= k < d + L.descSize)
    ensures DescBlock(L, img[k := x], d, lo, hi) == DescBlock(L, img, d, lo, hi)
  {
    hide Rd32;
    FieldsBeside(img, d + lo, k, x);
    if L.descSize >= 64 { FieldsBeside(img, d + hi, k, x); }
  }

  lemma StoredBeside(L: Layout, img: seq<byte>, d: nat, blockMap: bool, k: nat, x: byte)
    requires 32 <= L.descSize <= 64 && InRange(img, d, L.descSize) && k < |img| && !(d <= k < d + L.descSize)
    ensures var s := BitmapSlot(L, d, blockMap); s.Fits(|img|) && Stored(img[k := x], s) == Stored(img, s)
  {
    hide Rd16, Both;
    var s := BitmapSlot(L, d, blockMap);
    FieldsBeside16(img, s.lo, k, x);
    if s.wide { FieldsBeside16(img, s.hi, k, x); }
  }

  /** A byte outside the descriptor moves no bitmap and no stored checksum. */
  lemma OneByteMoves(L: Layout, img: seq<byte>, g: U32, blockMap: bool, k: nat, x: byte)
    requires Sane(L) && BitmapRegion(L, img, g, blockMap).Some? && k < |img|
    requires var d := DescOffset(L, img, g).value; !(d <= k < d + L.descSize)
    ensures var next := img[k := x];
            && DescOffset(L, next, g) == DescOffset(L, img, g)
            && BitmapRegion(L, next, g, blockMap) == BitmapRegion(L, img, g, blockMap)
            && var s := BitmapSlot(L, DescOffset(L, img, g).value, blockMap);
               s.Fits(|img|) && Stored(next, s) == Stored(img, s)
  {
    hide U64, Rd16, Rd32, DescBlock, Stored, BitmapSlot, Has;
    var d := DescOffset(L, img, g).value;
    FieldsBeside(img, d + 0x12, k, x);
    BlockBeside(L, img, d, if blockMap then 0x00 else 0x04, if blockMap then 0x20 else 0x24, k, x);
    StoredBeside(L, img, d, blockMap, k, x);
  }

  lemma FieldsBeside(img: seq<byte>, at: nat, k: nat, x: byte)
    requires at + 4 <= |img| && k < |img| && !(at <= k < at + 4)
    ensures Rd16(img[k := x], at) == Rd16(img, at) && Rd32(img[k := x], at) == Rd32(img, at)
  {
    hide Word16, Word32;
  }

  lemma FieldsBeside16(img: seq<byte>, at: nat, k: nat, x: byte)
    requires at + 2 <= |img| && k < |img| && !(at <= k < at + 2)
    ensures Rd16(img[k := x], at) == Rd16(img, at)
  {
    hide Word16;
  }

  // ---- A whole group, in order ----

  /** A stamp that fails leaves the image alone. */
  function OrElse(r: Option<seq<byte>>, img: seq<byte>): seq<byte> {
    if r.Some? then r.value else img
  }

  /** What the mutator does after changing a descriptor: block bitmap, inode bitmap, descriptor, superblock. */
  function StampGroup(L: Layout, img: seq<byte>, g: U32): seq<byte>
    requires Sane(L)
  {
    var a := OrElse(StampBitmap(L, img, g, true), img);
    var b := OrElse(StampBitmap(L, a, g, false), a);
    var c := OrElse(StampDesc(L, b, g), b);
    OrElse(StampSb(L, c), c)
  }

  /** A bitmap, if it is there, has no byte on this slot. */
  ghost predicate BitmapMisses(L: Layout, img: seq<byte>, g: U32, blockMap: bool, s: Slot)
    requires Sane(L)
  {
    match BitmapRegion(L, img, g, blockMap)
    case None => true
    case Some(r) => Misses(s, r.0, r.0 + r.1)
  }

  /** Neither bitmap lies on any of the four checksum fields, nor the descriptor on the superblock's. */
  ghost predicate GroupApart(L: Layout, img: seq<byte>, g: U32)
    requires Sane(L)
  {
    match DescOffset(L, img, g)
    case None => true
    case Some(d) =>
      && (d + L.descSize <= SB + 0x3FC || SB + 1024 <= d)
      && forall s :: Harmless(L, d, s) ==> BitmapMisses(L, img, g, true, s) && BitmapMisses(L, img, g, false, s)
  }

  /** One of the four slots that stamping a group writes. */
  ghost predicate Harmless(L: Layout, d: nat, s: Slot) {
    || s == SB_SLOT || s == DescSlot(d) || s == BitmapSlot(L, d, true) || s == BitmapSlot(L, d, false)
  }

  /** None of the four stamps moves or changes either bitmap's checksum. */
  lemma BitmapsSurvive(L: Layout, a: seq<byte>, b: seq<byte>, g: U32, blockMap: bool, d: nat, s: Slot)
    requires Sane(L) && OnlySlot(a, b, s) && GroupApart(L, a, g) && DescOffset(L, a, g) == Some(d)
    requires Harmless(L, d, s)
    ensures BitmapRegion(L, b, g, blockMap) == BitmapRegion(L, a, g, blockMap)
    ensures BitmapCsum(L, b, g, blockMap) == BitmapCsum(L, a, g, blockMap)
  {
    hide BitmapRegion, BitmapCsum, DescOffset;
    if BitmapRegion(L, a, g, blockMap).Some? {
      var r := BitmapRegion(L, a, g, blockMap).value;
      assert BitmapMisses(L, a, g, blockMap, s);
      BitmapCsumKept(L, a, b, g, blockMap, s);
    } else {
      NoBitmapKept(L, a, b, g, blockMap, d, s);
    }
  }

  lemma NoBitmapKept(L: Layout, a: seq<byte>, b: seq<byte>, g: U32, blockMap: bool, d: nat, s: Slot)
    requires Sane(L) && OnlySlot(a, b, s) && DescOffset(L, a, g) == Some(d) && BitmapRegion(L, a, g, blockMap).None?
    requires Misses(s, d, d + 0x18) && (L.descSize >= 64 ==> Misses(s, d + 0x20, d + 0x28))
    ensures BitmapRegion(L, b, g, blockMap) == None
  {
    hide DescBlock, U64, Word16;
    Rd16Kept(a, b, s, d + 0x12);
    DescBlockKept(L, a, b, d, if blockMap then 0x00 else 0x04, if blockMap then 0x20 else 0x24, s);
  }

  lemma GroupApartKept(L: Layout, a: seq<byte>, b: seq<byte>, g: U32, d: nat, s: Slot)
    requires Sane(L) && OnlySlot(a, b, s) && GroupApart(L, a, g) && DescOffset(L, a, g) == Some(d)
    requires Harmless(L, d, s)
    ensures GroupApart(L, b, g) && DescOffset(L, b, g) == Some(d)
  {
    hide BitmapRegion;
    BitmapsSurvive(L, a, b, g, true, d, s);
    BitmapsSurvive(L, a, b, g, false, d, s);
  }

  lemma StoredKept(a: seq<byte>, b: seq<byte>, s: Slot, t: Slot)
    requires s.Fits(|a|) && OnlySlot(a, b, t) && forall k :: s.Holds(k) ==> !t.Holds(k)
    ensures Stored(a, s) == Stored(b, s)
  {
    hide Both, Word16;
    assert s.Holds(s.lo) && s.Holds(s.lo + 1) && (s.wide ==> s.Holds(s.hi) && s.Holds(s.hi + 1));
  }

  /** A bitmap's verdict outlives the other three stamps. */
  lemma BitmapVerdictKept(L: Layout, a: seq<byte>, b: seq<byte>, g: U32, blockMap: bool, d: nat, t: Slot)
    requires Sane(L) && OnlySlot(a, b, t) && GroupApart(L, a, g) && DescOffset(L, a, g) == Some(d)
    requires t == SB_SLOT || t == DescSlot(d) || t == BitmapSlot(L, d, !blockMap)
    ensures CheckBitmap(L, b, g, blockMap) == CheckBitmap(L, a, g, blockMap)
  {
    BitmapsSurvive(L, a, b, g, blockMap, d, t);
    GroupApartKept(L, a, b, g, d, t);
    hide BitmapRegion, BitmapCsum, DescOffset, Stored, Wanted;
    if BitmapCsum(L, a, g, blockMap).Some? {
      var s := BitmapSlot(L, d, blockMap);
      assert forall k :: s.Holds(k) ==> !t.Holds(k);
      StoredKept(a, b, s, t);
    }
  }

  /** And a descriptor's the superblock's. */
  lemma DescVerdictKept(L: Layout, a: seq<byte>, b: seq<byte>, g: U32, d: nat)
    requires Sane(L) && OnlySlot(a, b, SB_SLOT) && GroupApart(L, a, g) && DescOffset(L, a, g) == Some(d)
    ensures CheckDesc(L, b, g) == CheckDesc(L, a, g)
  {
    hide BitmapRegion, DescCsum, Stored;
    GroupApartKept(L, a, b, g, d, SB_SLOT);
    DescCsumKept(L, a, b, g, SB_SLOT);
    if DescCsum(L, a, g).Some? { StoredKept(a, b, DescSlot(d), SB_SLOT); }
  }

  /** One bitmap stamped: its check agrees if it applies, and the rest of the group is where it was. */
  lemma StampBitmapInGroup(L: Layout, a: seq<byte>, g: U32, blockMap: bool, d: nat)
    requires Sane(L) && GroupApart(L, a, g) && DescOffset(L, a, g) == Some(d)
    ensures var b := OrElse(StampBitmap(L, a, g, blockMap), a);
            && OnlySlot(a, b, BitmapSlot(L, d, blockMap))
            && GroupApart(L, b, g) && DescOffset(L, b, g) == Some(d)
            && (BitmapCsum(L, a, g, blockMap).Some? ==> Agrees(CheckBitmap(L, b, g, blockMap)))
            && BitmapCsum(L, b, g, !blockMap) == BitmapCsum(L, a, g, !blockMap)
  {
    hide BitmapRegion, BitmapCsum, DescOffset, CheckBitmap, Put;
    var b, s := OrElse(StampBitmap(L, a, g, blockMap), a), BitmapSlot(L, d, blockMap);
    if BitmapCsum(L, a, g, blockMap).Some? {
      var r := BitmapRegion(L, a, g, blockMap).value;
      assert Harmless(L, d, s) && BitmapMisses(L, a, g, blockMap, s);
      StampBitmapAgrees(L, a, g, blockMap);
    }
    GroupApartKept(L, a, b, g, d, s);
    BitmapsSurvive(L, a, b, g, !blockMap, d, s);
  }

  /** Stamping a group in the mutator's order leaves every check that applies agreeing, when no bitmap lies on a
      checksum field of the four and the descriptor not on the superblock's, for every descriptor size. */
  lemma StampGroupAgrees(L: Layout, img: seq<byte>, g: U32)
    requires Sane(L) && |img| >= SB + 1024 && GroupApart(L, img, g) && DescOffset(L, img, g).Some?
    ensures var out := StampGroup(L, img, g);
            && (BitmapCsum(L, img, g, true).Some? ==> Agrees(CheckBitmap(L, out, g, true)))
            && (BitmapCsum(L, img, g, false).Some? ==> Agrees(CheckBitmap(L, out, g, false)))
            && (L.metadataCsum || L.gdtCsum ==> Agrees(CheckDesc(L, out, g)))
            && (L.metadataCsum ==> Agrees(CheckSb(L, out)))
  {
    hide BitmapRegion, BitmapCsum, DescOffset, DescCsum, CheckBitmap, CheckDesc, CheckSb, GroupApart, SbCsum;
    var d := DescOffset(L, img, g).value;
    StampBitmapInGroup(L, img, g, true, d);
    var a := OrElse(StampBitmap(L, img, g, true), img);
    StampBitmapInGroup(L, a, g, false, d);
    var b := OrElse(StampBitmap(L, a, g, false), a);
    BitmapVerdictKept(L, a, b, g, true, d, BitmapSlot(L, d, false));
    var c := OrElse(StampDesc(L, b, g), b);
    DescStamped(L, b, g, d);
    BitmapVerdictKept(L, b, c, g, true, d, DescSlot(d));
    BitmapVerdictKept(L, b, c, g, false, d, DescSlot(d));
    GroupApartKept(L, b, c, g, d, DescSlot(d));
    var out := OrElse(StampSb(L, c), c);
    if L.metadataCsum {
      StampSbAgrees(L, c);
    }
    BitmapVerdictKept(L, c, out, g, true, d, SB_SLOT);
    BitmapVerdictKept(L, c, out, g, false, d, SB_SLOT);
    DescVerdictKept(L, c, out, g, d);
  }

  lemma DescStamped(L: Layout, b: seq<byte>, g: U32, d: nat)
    requires Sane(L) && DescOffset(L, b, g) == Some(d)
    ensures var c := OrElse(StampDesc(L, b, g), b);
            && OnlySlot(b, c, DescSlot(d))
            && (L.metadataCsum || L.gdtCsum ==> Agrees(CheckDesc(L, c, g)))
  {
    hide CheckDesc, Crc.Crc, Put;
    if L.metadataCsum || L.gdtCsum { StampDescAgrees(L, b, g); }
  }

  /** And nothing but the four checksum fields changes. */
  lemma StampGroupFrame(L: Layout, img: seq<byte>, g: U32, k: nat)
    requires Sane(L) && k < |img| && DescOffset(L, img, g).Some?
    requires var d := DescOffset(L, img, g).value;
             !SB_SLOT.Holds(k) && !DescSlot(d).Holds(k)
             && !BitmapSlot(L, d, true).Holds(k) && !BitmapSlot(L, d, false).Holds(k)
    ensures |StampGroup(L, img, g)| == |img| && StampGroup(L, img, g)[k] == img[k]
  {
    hide BitmapCsum, DescCsum, SbCsum, Put;
    var a := OrElse(StampBitmap(L, img, g, true), img);
    StampBitmapFrame(L, img, g, true);
    var b := OrElse(StampBitmap(L, a, g, false), a);
    StampBitmapFrame(L, a, g, false);
    var c := OrElse(StampDesc(L, b, g), b);
    if DescCsum(L, b, g).Some? { PutThenStored(b, DescSlot(DescOffset(L, b, g).value), DescCsum(L, b, g).value); }
    if |c| >= SB + 1024 && L.metadataCsum { PutThenStored(c, SB_SLOT, SbCsum(c)); }
  }

  lemma StampBitmapFrame(L: Layout, img: seq<byte>, g: U32, blockMap: bool)
    requires Sane(L) && DescOffset(L, img, g).Some?
    ensures OnlySlot(img, OrElse(StampBitmap(L, img, g, blockMap), img),
                     BitmapSlot(L, DescOffset(L, img, g).value, blockMap))
  {
    hide BitmapCsum, Put;
    var v := BitmapCsum(L, img, g, blockMap);
    if v.Some? { PutThenStored(img, BitmapSlot(L, DescOffset(L, img, g).value, blockMap), v.value); }
  }
}

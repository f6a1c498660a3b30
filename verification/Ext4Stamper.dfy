/** The code of tools/fuzz/ext4_csum.c over one image in memory, against the functions of Ext4Csum. */
module Ext4Stamper {
  import opened Bytes
  import opened Crc
  import opened CrcBurst
  import opened Ext4Csum
  import opened Wrappers

  class Stamper {
    const base: array<byte>
    const table32: array<bv32>
    const table16: array<bv32>
    var L: Layout

    ghost predicate Valid()
      reads this, table32, table16
    {
      IsTable(CRC32C_POLY, table32[..]) && IsTable(CRC16_POLY, table16[..]) && Sane(L)
    }

    constructor (base: array<byte>)
      ensures Valid() && this.base == base && fresh(table32) && fresh(table16) && !L.ok
    {
      var t32 := BuildTable(CRC32C_POLY);
      var t16 := BuildTable(CRC16_POLY);
      this.base, table32, table16, L := base, t32, t16, BLANK;
    }

    method FzCrc32c(seed: bv32, buf: seq<byte>) returns (crc: bv32)
      requires Valid()
      ensures crc == Crc32c(seed, buf)
    {
      crc := Update(CRC32C_POLY, table32, seed, buf);
    }

    method FzCrc16(seed: bv32, buf: seq<byte>) returns (crc: bv32)
      requires Valid()
      ensures crc == Ext4Csum.Crc16(seed, buf)
    {
      crc := Update(CRC16_POLY, table16, seed, buf);
    }

    /** `fz_wr16` */
    static method Wr16(buf: array<byte>, at: nat, v: bv32)
      requires at + 2 <= buf.Length
      modifies buf
      ensures buf[..] == Splice(old(buf[..]), at, Le16(v))
    {
      buf[at] := ByteAt(v, 0);
      buf[at + 1] := ByteAt(v, 8);
    }

    /** Write a checksum, low half then high half. */
    method WrSlot(s: Slot, v: bv32)
      requires s.Fits(base.Length)
      modifies base
      ensures base[..] == Put(old(base[..]), s, v)
    {
      hide Le16, High16;
      Wr16(base, s.lo, v);
      if s.wide {
        Wr16(base, s.hi, High16(v));
      }
    }

    static lemma ZeroBytes()
      ensures Le16(0) == [0, 0]
    {}

    method ReadSeed(incompat: bv32, uuid: seq<byte>) returns (seed: bv32)
      requires Valid() && base.Length >= SB + 1024
      ensures seed == if Has(incompat, 0x2000) then Rd32(base[..], SB + 0x270) else Crc32c(0xFFFF_FFFF, uuid)
    {
      hide Crc.Crc, Word32, IsTable, Has;
      if Has(incompat, 0x2000) {
        return Rd32(base[..], SB + 0x270);
      }
      seed := FzCrc32c(0xFFFF_FFFF, uuid);
    }

    /** Everything `fz_layout_parse` reads before it judges any of it. */
    method ReadFields() returns (next: Layout)
      requires Valid() && base.Length >= SB + 1024
      ensures next == Fields(base[..]) && !next.ok
    {
      hide Crc.Crc, Word16, Word32, IsTable, Has;
      var img := base[..];
      var incompat, roCompat := Rd32(img, SB + 0x60), Rd32(img, SB + 0x64);
      var is64 := Has(incompat, 0x80);
      var blocks := Rd32(img, SB + 0x04) as int;
      if is64 {
        blocks := blocks + TWO32 * (Rd32(img, SB + 0x150) as int);
      }
      var descSize := if is64 then Rd16(img, SB + 0xFE) as int else 32;
      if descSize < 32 {
        descSize := 32;
      }
      var uuid := img[SB + 0x68..SB + 0x78];
      var seed := ReadSeed(incompat, uuid);
      next := BLANK.(firstDataBlock := Rd32(img, SB + 0x14) as int,
                     blocksPerGroup := Rd32(img, SB + 0x20) as int,
                     inodesPerGroup := Rd32(img, SB + 0x28) as int,
                     inodesCount := Rd32(img, SB) as int,
                     blocksCount := blocks,
                     inodeSize := Rd16(img, SB + 0x58) as int,
                     descSize := descSize,
                     csumSeed := seed,
                     uuid := uuid,
                     metadataCsum := Has(roCompat, 0x400),
                     gdtCsum := Has(roCompat, 0x10),
                     is64 := is64);
    }

    /** `fz_layout_parse` */
    method LayoutParse() returns (ok: bool)
      requires Valid()
      modifies this`L
      ensures Valid() && L == Parse(base[..]) && ok == L.ok
    {
      hide Fields, Word16, Word32, PowerOfTwo, IsTable, Groups, BlockSize;
      ParsedIsSane(base[..]);
      L := BLANK;
      if base.Length < SB + 1024 || Rd16(base[..], SB + 0x38) != 0xEF53 {
        return false;
      }
      var logBs := Rd32(base[..], SB + 0x18);
      if logBs > 6 {
        return false;
      }
      var next := ReadFields();
      next := next.(blockSize := BlockSize(logBs));
      if next.descSize > 64 {
        L := next.(csumSeed := 0);
        return false;
      }
      L := next;
      if next.blocksPerGroup == 0 || next.inodesPerGroup == 0 {
        return false;
      }
      if next.inodeSize < 128 || next.inodeSize > next.blockSize || !PowerOfTwo(Rd16(base[..], SB + 0x58)) {
        return false;
      }
      if next.blocksCount <= next.firstDataBlock {
        return false;
      }
      var groups := Groups(next.blocksCount, next.firstDataBlock, next.blocksPerGroup);
      if groups == 0 || groups > TWO32 - 1 {
        return false;
      }
      L := next.(groupCount := groups, gdtBlock := next.firstDataBlock + 1, ok := true);
      return true;
    }

    /** `fz_stamp_superblock` */
    method StampSuperblock() returns (ok: bool)
      requires Valid()
      modifies base
      ensures Valid()
      ensures var r := StampSb(L, old(base[..])); ok == r.Some? && base[..] == OrElse(r, old(base[..]))
    {
      hide Crc.Crc, Put, IsTable;
      if base.Length < SB + 1024 {
        return false;
      }
      if !L.metadataCsum {
        return true;
      }
      var want := FzCrc32c(0xFFFF_FFFF, base[SB..SB + 0x3FC]);
      assert base[SB..SB + 0x3FC] == base[..][SB..SB + 0x3FC];
      WrSlot(SB_SLOT, want);
      return true;
    }

    method CheckSuperblock() returns (r: Option<Verdict>)
      requires Valid()
      ensures r == CheckSb(L, base[..])
    {
      hide Crc.Crc, IsTable;
      if base.Length < SB + 1024 || !L.metadataCsum {
        return None;
      }
      var want := FzCrc32c(0xFFFF_FFFF, base[SB..SB + 0x3FC]);
      assert base[SB..SB + 0x3FC] == base[..][SB..SB + 0x3FC];
      return Some(Verdict(Stored(base[..], SB_SLOT), want));
    }

    /** `desc_csum` */
    method DescChecksum(g: U32) returns (r: Option<bv32>)
      requires Valid()
      ensures r == DescCsum(L, base[..], g)
    {
      hide Crc.Crc, Le32, IsTable, Low16, U64;
      var at := DescOffset(L, base[..], g);
      if at.None? {
        return None;
      }
      var d := at.value;
      var le := Le32(g as bv32);
      assert base[d..d + 0x1E] == base[..][d..d + 0x1E];
      assert base[d + 0x20..d + L.descSize] == base[..][d + 0x20..d + L.descSize];
      if L.metadataCsum {
        var crc := FzCrc32c(L.csumSeed, le);
        crc := FzCrc32c(crc, base[d..d + 0x1E]);
        crc := FzCrc32c(crc, [0, 0]);
        if L.descSize > 32 {
          crc := FzCrc32c(crc, base[d + 0x20..d + L.descSize]);
        }
        return Some(Low16(crc));
      }
      if L.gdtCsum {
        var crc := FzCrc16(0xFFFF, L.uuid);
        crc := FzCrc16(crc, le);
        crc := FzCrc16(crc, base[d..d + 0x1E]);
        if L.is64 && L.descSize > 32 {
          crc := FzCrc16(crc, base[d + 0x20..d + L.descSize]);
        }
        return Some(crc);
      }
      return None;
    }

    /** `fz_stamp_desc` */
    method StampDescriptor(g: U32) returns (ok: bool)
      requires Valid()
      modifies base
      ensures Valid()
      ensures var r := StampDesc(L, old(base[..]), g); ok == r.Some? && base[..] == OrElse(r, old(base[..]))
    {
      hide DescCsum, Put, IsTable, U64;
      var want := DescChecksum(g);
      if want.None? {
        return false;
      }
      WrSlot(DescSlot(DescOffset(L, base[..], g).value), want.value);
      return true;
    }

    /** `fz_check_desc` */
    method CheckDescriptor(g: U32) returns (r: Option<Verdict>)
      requires Valid()
      ensures r == CheckDesc(L, base[..], g)
    {
      hide DescCsum, IsTable, U64;
      var want := DescChecksum(g);
      if want.None? {
        return None;
      }
      return Some(Verdict(Stored(base[..], DescSlot(DescOffset(L, base[..], g).value)), want.value));
    }

    /** `memcpy` out of the image. */
    method CopyOf(off: nat, n: nat) returns (copy: array<byte>)
      requires off + n <= base.Length
      ensures fresh(copy) && copy[..] == base[..][off..off + n]
    {
      copy := new byte[n](i => 0);
      for i := 0 to n
        invariant copy[..i] == base[off..off + i]
      {
        copy[i] := base[off + i];
      }
      assert copy[..] == copy[..n];
    }

    static method ZeroFields(copy: array<byte>, hasHi: bool)
      requires copy.Length >= 128 && (hasHi ==> copy.Length >= 256)
      modifies copy
      ensures copy[..] == Zeroed(old(copy[..]), hasHi)
    {
      hide Splice, Le16;
      ZeroBytes();
      Wr16(copy, 0x7C, 0);
      if hasHi {
        Wr16(copy, 0x82, 0);
      }
    }

    /** The copy of an inode with its two checksum fields zeroed in place. */
    method ZeroedCopy(off: nat) returns (copy: array<byte>)
      requires Valid() && L.ok && InRange(base[..], off, L.inodeSize)
      ensures fresh(copy) && copy[..] == Zeroed(base[..][off..off + L.inodeSize], HasHi(L, base[..], off))
    {
      hide IsTable, Word16, Zeroed;
      copy := CopyOf(off, L.inodeSize);
      var hasHi := false;
      if L.inodeSize > 128 {
        hasHi := Rd16(copy[..], 0x80) >= 4;
        assert copy[..][0x80] == base[..][off + 0x80] && copy[..][0x81] == base[..][off + 0x81];
      }
      ZeroFields(copy, hasHi);
    }

    /** `inode_csum` */
    method InodeChecksum(ino: U32) returns (r: Option<bv32>)
      requires Valid()
      ensures r == InodeCsum(L, base[..], ino)
    {
      hide Crc.Crc, Le32, IsTable, HasHi, InodeOffset, Zeroed;
      if !L.metadataCsum {
        return None;
      }
      var at := InodeOffset(L, base[..], ino);
      if at.None? || L.inodeSize > 4096 {
        return None;
      }
      ghost var img := base[..];
      var copy := ZeroedCopy(at.value);
      assert base[..] == img;
      assert copy[0x64..0x68] == copy[..][0x64..0x68];
      var crc := FzCrc32c(L.csumSeed, Le32(ino as bv32));
      crc := FzCrc32c(crc, copy[0x64..0x68]);
      crc := FzCrc32c(crc, copy[..]);
      return Some(crc);
    }

    /** `fz_stamp_inode` */
    method StampInodeChecksum(ino: U32) returns (ok: bool)
      requires Valid()
      modifies base
      ensures Valid()
      ensures var r := StampInode(L, old(base[..]), ino); ok == r.Some? && base[..] == OrElse(r, old(base[..]))
    {
      hide InodeCsum, InodeOffset, Put, IsTable, Word16;
      var want := InodeChecksum(ino);
      if want.None? {
        return false;
      }
      var off := InodeOffset(L, base[..], ino).value;
      WrSlot(InodeSlot(L, base[..], off), want.value);
      return true;
    }

    /** `fz_check_inode` */
    method CheckInodeChecksum(ino: U32) returns (r: Option<Verdict>)
      requires Valid()
      ensures r == CheckInode(L, base[..], ino)
    {
      hide InodeCsum, InodeOffset, IsTable, Word16;
      var want := InodeChecksum(ino);
      if want.None? {
        return None;
      }
      var s := InodeSlot(L, base[..], InodeOffset(L, base[..], ino).value);
      return Some(Verdict(Stored(base[..], s), Wanted(s, want.value)));
    }

    /** `bitmap_csum` */
    method BitmapChecksum(g: U32, blockMap: bool) returns (r: Option<bv32>)
      requires Valid()
      ensures r == BitmapCsum(L, base[..], g, blockMap)
    {
      hide Crc.Crc, IsTable, Word16, BitmapRegion;
      if !L.metadataCsum {
        return None;
      }
      var region := BitmapRegion(L, base[..], g, blockMap);
      if region.None? {
        return None;
      }
      var (off, size) := region.value;
      assert base[off..off + size] == base[..][off..off + size];
      var crc := FzCrc32c(L.csumSeed, base[off..off + size]);
      return Some(crc);
    }

    /** `stamp_bitmap` */
    method StampBitmapChecksum(g: U32, blockMap: bool) returns (ok: bool)
      requires Valid()
      modifies base
      ensures Valid()
      ensures var r := StampBitmap(L, old(base[..]), g, blockMap);
              ok == r.Some? && base[..] == OrElse(r, old(base[..]))
    {
      hide BitmapCsum, BitmapRegion, Put, IsTable, U64;
      var want := BitmapChecksum(g, blockMap);
      if want.None? {
        return false;
      }
      WrSlot(BitmapSlot(L, DescOffset(L, base[..], g).value, blockMap), want.value);
      return true;
    }

    /** `check_bitmap` */
    method CheckBitmapChecksum(g: U32, blockMap: bool) returns (r: Option<Verdict>)
      requires Valid()
      ensures r == CheckBitmap(L, base[..], g, blockMap)
    {
      hide BitmapCsum, BitmapRegion, IsTable, U64;
      var want := BitmapChecksum(g, blockMap);
      if want.None? {
        return None;
      }
      var s := BitmapSlot(L, DescOffset(L, base[..], g).value, blockMap);
      return Some(Verdict(Stored(base[..], s), Wanted(s, want.value)));
    }

    /** The end of `mut_group_desc`: every checksum the changed descriptor takes part in, in this order. */
    method RestampGroup(g: U32)
      requires Valid()
      modifies base
      ensures Valid() && base[..] == StampGroup(L, old(base[..]), g)
    {
      hide StampBitmap, StampDesc, StampSb, IsTable;
      var done := StampBitmapChecksum(g, true);
      done := StampBitmapChecksum(g, false);
      done := StampDescriptor(g);
      done := StampSuperblock();
    }
  }
}

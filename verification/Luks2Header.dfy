/**
 The two-copy LUKS2 header (Core/crypto/luks.c, `luks2_read_copy` and `luks2_load`), and what it is for:
 an update interrupted at any point leaves the complete old or the complete new metadata.
 */
module Luks2Header {
  import opened Bytes
  import opened Crypto
  import opened LuksUnlock
  import opened Wrappers

  const PRIMARY: seq<byte> := [0x4c, 0x55, 0x4b, 0x53, 0xba, 0xbe]
  const SECONDARY: seq<byte> := [0x53, 0x4b, 0x55, 0x4c, 0xba, 0xbe]
  const BIN_LEN: nat := 4096
  const MAX_HDR: nat := 0x40_0000
  const VERSION_AT: nat := 6
  const HDR_SIZE_AT: nat := 8
  const SEQID_AT: nat := 16
  const ALG_AT: nat := 72
  const UUID_AT: nat := 168
  const UUID_LEN: nat := 40
  const CSUM_AT: nat := 448
  const USUAL_SIZE: nat := 16384

  function Rd64be(p: seq<byte>, at: nat): nat
    requires at + 8 <= |p|
  {
    Rd32be(p, at) * 0x1_0000_0000 + Rd32be(p, at + 4)
  }

  /** A fixed-width field up to its first NUL. */
  function CString(s: seq<byte>): seq<byte> {
    if s == [] || s[0] == 0 then [] else [s[0]] + CString(s[1..])
  }

  /** One decoded copy: the metadata is the document, without the zero padding after it. */
  datatype Copy = Copy(seqid: nat, size: nat, metadata: seq<byte>, uuid: seq<byte>)

  datatype Loader = Loader(read: Reader, hashByName: seq<byte> -> Option<Hash>) {

    /** `luks2_checksum_ok`: the digest of the binary header with its own field zeroed, then the metadata area. */
    predicate ChecksumOk(bin: seq<byte>, json: seq<byte>, hash: Hash)
      requires |bin| == BIN_LEN
    {
      && 0 < hash.size <= 64
      && |hash.digest(Splice(bin, CSUM_AT, seq(64, i => 0)) + json)| == hash.size
      && hash.digest(Splice(bin, CSUM_AT, seq(64, i => 0)) + json) == bin[CSUM_AT..CSUM_AT + hash.size]
    }

    /** `luks2_read_copy`: one copy, from `base`, verified before it is believed. */
    function ReadCopy(base: nat, magic: seq<byte>): Option<Copy> {
      match read(base, BIN_LEN)
      case None => None
      case Some(bin) =>
        if |bin| != BIN_LEN || bin[..6] != magic then None
        else if bin[VERSION_AT] as nat * 0x100 + bin[VERSION_AT + 1] as nat != 2 then None
        else
          var size := Rd64be(bin, HDR_SIZE_AT);
          if size <= BIN_LEN || size > MAX_HDR then None
          else match read(base + BIN_LEN, size - BIN_LEN)
            case None => None
            case Some(json) =>
              match hashByName(CString(bin[ALG_AT..ALG_AT + 32]))
              case None => None
              case Some(hash) =>
                if |json| != size - BIN_LEN || !ChecksumOk(bin, json, hash) then None
                else Some(Copy(Rd64be(bin, SEQID_AT), size, CString(json), bin[UUID_AT..UUID_AT + UUID_LEN]))
    }

    /** `luks2_load`: the newer of the copies that verify. Without a primary its size is unknown, and the
        secondary is looked for where it usually is. */
    function Load(): Option<Copy> {
      var primary := ReadCopy(0, PRIMARY);
      var secondary := ReadCopy(if primary.Some? then primary.value.size else USUAL_SIZE, SECONDARY);
      if primary.Some? && secondary.Some? then
        if secondary.value.seqid > primary.value.seqid then secondary else primary
      else if primary.Some? then primary
      else secondary
    }

    /** Whatever is loaded verified, and nothing newer that was looked at did; the primary wins ties. */
    lemma LoadsNewestValid()
      ensures var p := ReadCopy(0, PRIMARY);
              var s := ReadCopy(if p.Some? then p.value.size else USUAL_SIZE, SECONDARY);
              && (Load() == p || Load() == s)
              && (Load().None? <==> p.None? && s.None?)
              && (p.Some? ==> Load().value.seqid >= p.value.seqid)
              && (s.Some? ==> Load().value.seqid >= s.value.seqid)
              && (p.Some? && s.Some? && p.value.seqid == s.value.seqid ==> Load() == p)
    {
      hide Loader.ReadCopy;
    }
  }

  // ---- An update, torn ----

  /** The container as a medium: a read inside it returns its bytes. */
  function DiskReader(disk: seq<byte>): Reader {
    (off: nat, len: nat) => if off + len <= |disk| then Some(disk[off..off + len]) else None
  }

  /** The two copies of one version of the metadata, each in its own area of this size. */
  ghost predicate Holds(disk: seq<byte>, names: seq<byte> -> Option<Hash>, c: Copy, size: nat) {
    && |disk| >= 2 * size && c.size == size
    && Loader(DiskReader(disk), names).ReadCopy(0, PRIMARY) == Some(c)
    && Loader(DiskReader(disk), names).ReadCopy(size, SECONDARY) == Some(c)
  }

  lemma CopyIsLonger(l: Loader, base: nat, magic: seq<byte>, c: Copy)
    requires l.ReadCopy(base, magic) == Some(c)
    ensures c.size > BIN_LEN
  {
    hide CString, Rd64be, Loader.ChecksumOk;
  }

  /** A copy that verifies is a function of its own area. */
  lemma CopyDependsOnItsArea(
      a: seq<byte>, b: seq<byte>, names: seq<byte> -> Option<Hash>, base: nat, magic: seq<byte>, c: Copy)
    requires Loader(DiskReader(a), names).ReadCopy(base, magic) == Some(c)
    requires base + c.size <= |a| && base + c.size <= |b| && a[base..base + c.size] == b[base..base + c.size]
    ensures Loader(DiskReader(b), names).ReadCopy(base, magic) == Some(c)
  {
    hide Loader.ReadCopy, DiskReader;
    CopyIsLonger(Loader(DiskReader(a), names), base, magic, c);
    SameArea(a, b, base, c.size);
    SameAnswers(Loader(DiskReader(a), names), Loader(DiskReader(b), names), base, magic, c);
  }

  lemma SameAnswers(l: Loader, m: Loader, base: nat, magic: seq<byte>, c: Copy)
    requires l.hashByName == m.hashByName && l.ReadCopy(base, magic) == Some(c) && c.size > BIN_LEN
    requires l.read(base, BIN_LEN) == m.read(base, BIN_LEN)
    requires l.read(base + BIN_LEN, c.size - BIN_LEN) == m.read(base + BIN_LEN, c.size - BIN_LEN)
    ensures m.ReadCopy(base, magic) == Some(c)
  {
    hide CString, Rd64be;
  }

  lemma SameRead(a: seq<byte>, b: seq<byte>, at: nat, n: nat)
    requires at + n <= |a| && at + n <= |b| && a[at..at + n] == b[at..at + n]
    ensures DiskReader(a)(at, n) == DiskReader(b)(at, n)
  {}

  lemma SameArea(a: seq<byte>, b: seq<byte>, base: nat, size: nat)
    requires size > BIN_LEN && base + size <= |a| && base + size <= |b| && a[base..base + size] == b[base..base + size]
    ensures DiskReader(a)(base, BIN_LEN) == DiskReader(b)(base, BIN_LEN)
    ensures DiskReader(a)(base + BIN_LEN, size - BIN_LEN) == DiskReader(b)(base + BIN_LEN, size - BIN_LEN)
  {
    hide DiskReader;
    SameSlice(a, b, base, base + size, base, base + BIN_LEN);
    SameSlice(a, b, base, base + size, base + BIN_LEN, base + BIN_LEN + (size - BIN_LEN));
    SameRead(a, b, base, BIN_LEN);
    SameRead(a, b, base + BIN_LEN, size - BIN_LEN);
  }

  lemma SameSlice(a: seq<byte>, b: seq<byte>, lo: nat, hi: nat, x: nat, y: nat)
    requires lo <= x <= y <= hi <= |a| && hi <= |b| && a[lo..hi] == b[lo..hi]
    ensures a[x..y] == b[x..y]
  {
    SliceOfSlice(a, lo, hi, x - lo, y - lo);
    SliceOfSlice(b, lo, hi, x - lo, y - lo);
  }

  /** Part of an area written over: any bytes of it, in any order. */
  ghost predicate Mixed(m: seq<byte>, a: seq<byte>, b: seq<byte>) {
    |m| == |a| == |b| && forall k :: 0 <= k < |m| ==> m[k] == a[k] || m[k] == b[k]
  }

  // ---- What a checksum covers ----

  /** The message: the whole area, the 64 bytes of the checksum's own field counted as zero. */
  function Covered(area: seq<byte>): (r: seq<byte>)
    ensures |r| == |area|
  {
    seq(|area|, k requires 0 <= k < |area| => if 448 <= k < 512 then 0 else area[k])
  }

  lemma ChecksumCovers(l: Loader, area: seq<byte>, hash: Hash)
    requires |area| > BIN_LEN
    ensures l.ChecksumOk(area[..BIN_LEN], area[BIN_LEN..], hash) <==>
            && 0 < hash.size <= 64 && |hash.digest(Covered(area))| == hash.size
            && hash.digest(Covered(area)) == area[448..448 + hash.size]
  {
    var bin, json := area[..BIN_LEN], area[BIN_LEN..];
    assert Splice(bin, CSUM_AT, seq(64, i => 0)) + json == Covered(area);
    if 0 < hash.size <= 64 { assert bin[CSUM_AT..CSUM_AT + hash.size] == area[448..448 + hash.size]; }
  }

  /** The algorithm an area names, in its 32 bytes at 72. */
  function Named(names: seq<byte> -> Option<Hash>, area: seq<byte>): Option<Hash>
    requires |area| > BIN_LEN
  {
    names(CString(area[72..104]))
  }

  /** An area's own checksum, under the algorithm it names. */
  predicate Verifies(names: seq<byte> -> Option<Hash>, area: seq<byte>)
    requires |area| > BIN_LEN
  {
    && Named(names, area).Some?
    && var hash := Named(names, area).value;
       0 < hash.size <= 64 && |hash.digest(Covered(area))| == hash.size
       && hash.digest(Covered(area)) == area[448..448 + hash.size]
  }

  /** What the checksum is for: an area that is neither the old one nor the new fails it. */
  ghost predicate MixturesFail(names: seq<byte> -> Option<Hash>, a: seq<byte>, b: seq<byte>) {
    forall m :: Mixed(m, a, b) && m != a && m != b && |m| > BIN_LEN ==> !Verifies(names, m)
  }

  lemma AreaVerifies(l: Loader, area: seq<byte>)
    requires |area| > BIN_LEN
    ensures Verifies(l.hashByName, area) <==>
            var hash := l.hashByName(CString(area[..BIN_LEN][ALG_AT..ALG_AT + 32]));
            hash.Some? && l.ChecksumOk(area[..BIN_LEN], area[BIN_LEN..], hash.value)
  {
    hide CString, Loader.ChecksumOk;
    assert area[..BIN_LEN][ALG_AT..ALG_AT + 32] == area[72..104];
    if Named(l.hashByName, area).Some? { ChecksumCovers(l, area, Named(l.hashByName, area).value); }
  }

  lemma SameByte(a: byte, b: byte)
    requires a as nat == b as nat
    ensures a == b
  {}

  lemma SameDigits(a0: nat, a1: nat, a2: nat, a3: nat, b0: nat, b1: nat, b2: nat, b3: nat)
    requires a0 < 256 && a1 < 256 && a2 < 256 && a3 < 256 && b0 < 256 && b1 < 256 && b2 < 256 && b3 < 256
    requires a0 * 0x100_0000 + a1 * 0x1_0000 + a2 * 0x100 + a3 == b0 * 0x100_0000 + b1 * 0x1_0000 + b2 * 0x100 + b3
    ensures a0 == b0 && a1 == b1 && a2 == b2 && a3 == b3
  {}

  function Value(a: byte, b: byte, c: byte, d: byte): nat {
    a as nat * 0x100_0000 + b as nat * 0x1_0000 + c as nat * 0x100 + d as nat
  }

  lemma SameBytes(a: byte, b: byte, c: byte, d: byte, w: byte, x: byte, y: byte, z: byte)
    requires Value(a, b, c, d) == Value(w, x, y, z)
    ensures a == w && b == x && c == y && d == z
  {
    SameDigits(a as nat, b as nat, c as nat, d as nat, w as nat, x as nat, y as nat, z as nat);
    hide Value;
    SameByte(a, w);
    SameByte(b, x);
    SameByte(c, y);
    SameByte(d, z);
  }

  lemma SameWord(a: seq<byte>, b: seq<byte>, at: nat)
    requires at + 4 <= |a| && at + 4 <= |b| && Rd32be(a, at) == Rd32be(b, at)
    ensures a[at] == b[at] && a[at + 1] == b[at + 1] && a[at + 2] == b[at + 2] && a[at + 3] == b[at + 3]
  {
    hide Rd32be, Value;
    WordIsValue(a, at);
    WordIsValue(b, at);
    SameBytes(a[at], a[at + 1], a[at + 2], a[at + 3], b[at], b[at + 1], b[at + 2], b[at + 3]);
  }

  lemma WordIsValue(p: seq<byte>, at: nat)
    requires at + 4 <= |p|
    ensures Rd32be(p, at) == Value(p[at], p[at + 1], p[at + 2], p[at + 3])
  {}

  lemma WordIsSmall(p: seq<byte>, at: nat)
    requires at + 4 <= |p|
    ensures Rd32be(p, at) < 0x1_0000_0000
  {}

  /** Headers that give the same size give it in the same bytes. */
  lemma SameSizeField(a: seq<byte>, b: seq<byte>)
    requires |a| >= BIN_LEN && |b| >= BIN_LEN && Rd64be(a, HDR_SIZE_AT) == Rd64be(b, HDR_SIZE_AT)
    ensures forall k :: HDR_SIZE_AT <= k < HDR_SIZE_AT + 8 ==> a[k] == b[k]
  {
    hide Rd32be;
    WordIsSmall(a, HDR_SIZE_AT + 4);
    WordIsSmall(b, HDR_SIZE_AT + 4);
    SameWord(a, b, HDR_SIZE_AT);
    SameWord(a, b, HDR_SIZE_AT + 4);
  }

  lemma SizeFromField(a: seq<byte>, b: seq<byte>)
    requires |a| >= BIN_LEN && |b| >= BIN_LEN && forall k :: HDR_SIZE_AT <= k < HDR_SIZE_AT + 8 ==> a[k] == b[k]
    ensures Rd64be(a, HDR_SIZE_AT) == Rd64be(b, HDR_SIZE_AT)
  {
    assert forall k :: 8 <= k < 16 ==> a[k] == b[k];
  }

  /** The size is what the header says. */
  lemma CopySize(l: Loader, base: nat, magic: seq<byte>, c: Copy)
    requires l.ReadCopy(base, magic) == Some(c)
    ensures l.read(base, BIN_LEN).Some? && |l.read(base, BIN_LEN).value| == BIN_LEN
    ensures Rd64be(l.read(base, BIN_LEN).value, HDR_SIZE_AT) == c.size
  {
    hide CString, Rd64be, Loader.ChecksumOk;
  }

  /** What is read of a copy whose header gives this size, when the area does not verify. */
  lemma FailedArea(disk: seq<byte>, names: seq<byte> -> Option<Hash>, base: nat, size: nat, magic: seq<byte>)
    requires base + size <= |disk| && size > BIN_LEN && !Verifies(names, disk[base..base + size])
    requires Rd64be(disk[base..base + BIN_LEN], HDR_SIZE_AT) == size
    ensures Loader(DiskReader(disk), names).ReadCopy(base, magic) == None
  {
    hide CString, Rd64be, Loader.ChecksumOk, Verifies;
    var area := disk[base..base + size];
    AreaVerifies(Loader(DiskReader(disk), names), area);
    assert area[..BIN_LEN] == disk[base..base + BIN_LEN];
    assert area[BIN_LEN..] == disk[base + BIN_LEN..base + BIN_LEN + (size - BIN_LEN)];
  }

  /** An area half written over is not taken for a copy. */
  lemma MixedIsNothing(
      torn: seq<byte>, d0: seq<byte>, d1: seq<byte>, names: seq<byte> -> Option<Hash>, base: nat, size: nat,
      magic: seq<byte>, before: Copy, after: Copy)
    requires base + size <= |torn| && base + size <= |d0| && base + size <= |d1|
    requires before.size == after.size == size
    requires Loader(DiskReader(d0), names).ReadCopy(base, magic) == Some(before)
    requires Loader(DiskReader(d1), names).ReadCopy(base, magic) == Some(after)
    requires var m, a, b := torn[base..base + size], d0[base..base + size], d1[base..base + size];
             Mixed(m, a, b) && m != a && m != b && MixturesFail(names, a, b)
    ensures Loader(DiskReader(torn), names).ReadCopy(base, magic) == None
  {
    var l, n := Loader(DiskReader(d0), names), Loader(DiskReader(d1), names);
    hide Loader.ReadCopy, Verifies, Rd64be;
    CopyIsLonger(l, base, magic, before);
    CopySize(l, base, magic, before);
    CopySize(n, base, magic, after);
    var h, g, t := d0[base..base + BIN_LEN], d1[base..base + BIN_LEN], torn[base..base + BIN_LEN];
    SameSizeField(h, g);
    forall k | HDR_SIZE_AT <= k < HDR_SIZE_AT + 8 ensures t[k] == h[k] {
      assert torn[base..base + size][k] == t[k] && d0[base..base + size][k] == h[k] && d1[base..base + size][k] == g[k];
    }
    SizeFromField(t, h);
    FailedArea(torn, names, base, size, magic);
  }

  // ---- The format, as bytes ----

  function Be64(n: nat): (r: seq<byte>)
    ensures |r| == 8
  {
    Be32(n / WORD) + Be32(n % WORD)
  }

  lemma NumberIsRead(p: seq<byte>, at: nat, n: nat)
    requires at + 8 <= |p| && p[at..at + 8] == Be64(n) && n < WORD * WORD
    ensures Rd64be(p, at) == n
  {
    hide Be32, Rd32be;
    SliceOfSlice(p, at, at + 8, 0, 4);
    SliceOfSlice(p, at, at + 8, 4, 8);
    WordIsRead(p, at, n / WORD);
    WordIsRead(p, at + 4, n % WORD);
  }

  lemma VersionIsTwo(a: byte, b: byte)
    ensures a as nat * 0x100 + b as nat == 2 <==> a == 0 && b == 2
  {
    if a as nat * 0x100 + b as nat == 2 {
      SameByte(a, 0);
      SameByte(b, 2);
    }
  }

  /** The text before the first zero byte, or all of it. */
  lemma {:induction false} CStringIs(s: seq<byte>)
    ensures CString(s) <= s && 0 !in CString(s) && (|CString(s)| < |s| ==> s[|CString(s)|] == 0)
    decreases |s|
  {
    if s != [] && s[0] != 0 {
      CStringIs(s[1..]);
      assert s == [s[0]] + s[1..];
    }
  }

  /** One copy is read exactly when it has its magic and version 2 and verifies, and then everything in it is what its
      bytes say. */
  lemma CopyIsReadIff(disk: seq<byte>, names: seq<byte> -> Option<Hash>, base: nat, magic: seq<byte>, size: nat)
    requires base + size <= |disk| && 4096 < size <= 0x40_0000 && |magic| == 6
    requires disk[base..base + size][8..16] == Be64(size)
    ensures var area, r := disk[base..base + size], Loader(DiskReader(disk), names).ReadCopy(base, magic);
            && (r.Some? <==> area[0..6] == magic && area[6] == 0 && area[7] == 2 && Verifies(names, area))
            && (r.Some? ==>
                  && r.value.size == size && r.value.uuid == area[168..208]
                  && (forall n :: 0 <= n < WORD * WORD && area[16..24] == Be64(n) ==> r.value.seqid == n)
                  && var text := r.value.metadata;
                     text <= area[4096..] && 0 !in text && (4096 + |text| < size ==> area[4096 + |text|] == 0))
  {
    hide CString, Be64, Rd64be, Rd32be, Verifies, Loader.ChecksumOk, Named;
    var area := disk[base..base + size];
    var bin := disk[base..base + BIN_LEN];
    var l := Loader(DiskReader(disk), names);
    BinaryPart(disk, base, size);
    NumberIsRead(bin, 8, size);
    VersionIsTwo(bin[6], bin[7]);
    AreaVerifies(l, area);
    CStringIs(area[BIN_LEN..]);
    forall n | 0 <= n < WORD * WORD && area[16..24] == Be64(n) ensures Rd64be(bin, 16) == n {
      NumberIsRead(bin, 16, n);
    }
  }

  /** A copy of another size than these is never read. */
  lemma SizeIsBounded(l: Loader, base: nat, magic: seq<byte>, bin: seq<byte>, size: nat)
    requires l.read(base, BIN_LEN) == Some(bin) && |bin| == 4096 && bin[8..16] == Be64(size) && size < WORD * WORD
    ensures l.ReadCopy(base, magic).Some? ==> 4096 < size <= 0x40_0000
  {
    hide CString, Be64, Rd64be, Loader.ChecksumOk;
    NumberIsRead(bin, 8, size);
  }

  /** The first 4096 bytes, and the rest. */
  lemma BinaryPart(disk: seq<byte>, base: nat, size: nat)
    requires base + size <= |disk| && size > BIN_LEN
    ensures var area, bin := disk[base..base + size], disk[base..base + BIN_LEN];
            && area[..BIN_LEN] == bin && area[BIN_LEN..] == disk[base + BIN_LEN..base + BIN_LEN + (size - BIN_LEN)]
            && bin[..6] == area[0..6] && bin[6] == area[6] && bin[7] == area[7]
            && bin[8..16] == area[8..16] && bin[16..24] == area[16..24] && bin[168..208] == area[168..208]
            && bin[72..104] == area[72..104]
  {}

  // ---- Damage ----

  /** Copies that are read from areas that differ in the field alone are the same. */
  lemma SameCopy(
      disk: seq<byte>, other: seq<byte>, names: seq<byte> -> Option<Hash>, base: nat, magic: seq<byte>, size: nat,
      k: nat, x: byte)
    requires base + size <= |disk| && 4096 < size <= 0x40_0000 && |magic| == 6
    requires disk[base..base + size][8..16] == Be64(size)
    requires 448 <= k < 512 && other == disk[base + k := x]
    requires Loader(DiskReader(disk), names).ReadCopy(base, magic).Some?
    requires Loader(DiskReader(other), names).ReadCopy(base, magic).Some?
    ensures Loader(DiskReader(other), names).ReadCopy(base, magic)
         == Loader(DiskReader(disk), names).ReadCopy(base, magic)
  {
    hide CString, Be64, Rd32be, Loader.ChecksumOk;
    BinaryPart(disk, base, size);
    var bin, after := disk[base..base + BIN_LEN], other[base..base + BIN_LEN];
    NumberIsRead(bin, 8, size);
    assert after == bin[k := x];
    NumberStays(bin, after, 8);
    NumberStays(bin, after, 16);
    assert other[base + BIN_LEN..base + BIN_LEN + (size - BIN_LEN)]
        == disk[base + BIN_LEN..base + BIN_LEN + (size - BIN_LEN)];
    assert after[168..208] == bin[168..208];
    hide Rd64be;
  }

  lemma NumberStays(a: seq<byte>, b: seq<byte>, at: nat)
    requires at + 8 <= |a| == |b| && forall k :: at <= k < at + 8 ==> a[k] == b[k]
    ensures Rd64be(a, at) == Rd64be(b, at)
  {}

  /** A copy of this size that is read, its checksum made by this algorithm. */
  ghost predicate IsRead(
    disk: seq<byte>, names: seq<byte> -> Option<Hash>, base: nat, magic: seq<byte>, size: nat, hash: Hash)
  {
    && base + size <= |disk| && 4096 < size <= 0x40_0000 && |magic| == 6
    && disk[base..base + size][8..16] == Be64(size) && Named(names, disk[base..base + size]) == Some(hash)
    && Loader(DiskReader(disk), names).ReadCopy(base, magic).Some?
  }

  /** One byte changed that does not steer the reading: not the size, nor the algorithm's name. */
  lemma ChangedByte(
      disk: seq<byte>, names: seq<byte> -> Option<Hash>, base: nat, magic: seq<byte>, size: nat, hash: Hash, k: nat,
      x: byte)
    requires IsRead(disk, names, base, magic, size, hash) && k < size && !(8 <= k < 16) && !(72 <= k < 104)
    ensures var area, after := disk[base..base + size], disk[base..base + size][k := x];
            var r := Loader(DiskReader(disk[base + k := x]), names).ReadCopy(base, magic);
            && Verifies(names, area) && area[0..6] == magic && area[6] == 0 && area[7] == 2
            && Named(names, after) == Some(hash)
            && (r.Some? <==> after[0..6] == magic && after[6] == 0 && after[7] == 2 && Verifies(names, after))
  {
    hide Loader.ReadCopy, Loader.ChecksumOk, CString, Be64, Verifies;
    var area, damaged := disk[base..base + size], disk[base + k := x];
    var after := area[k := x];
    assert damaged[base..base + size] == after;
    assert after[8..16] == area[8..16] && after[72..104] == area[72..104];
    CopyIsReadIff(disk, names, base, magic, size);
    CopyIsReadIff(damaged, names, base, magic, size);
  }

  lemma FieldOf(area: seq<byte>, k: nat, x: byte, n: nat)
    requires |area| > BIN_LEN && k < |area| && n <= 64
    ensures var after := area[k := x];
            && (448 <= k < 512 ==> Covered(after) == Covered(area))
            && (448 <= k < 448 + n && area[k] != x ==> after[448..448 + n] != area[448..448 + n])
            && (!(448 <= k < 448 + n) ==> after[448..448 + n] == area[448..448 + n])
  {
    var after := area[k := x];
    if 448 <= k < 448 + n { assert after[448..448 + n][k - 448] == x && area[448..448 + n][k - 448] == area[k]; }
  }

  lemma AreaAfter(names: seq<byte> -> Option<Hash>, area: seq<byte>, hash: Hash, k: nat, x: byte)
    requires |area| > BIN_LEN && k < |area| && Verifies(names, area)
    requires Named(names, area) == Some(hash) && Named(names, area[k := x]) == Some(hash)
    ensures 448 <= k < 448 + hash.size && area[k] != x ==> !Verifies(names, area[k := x])
    ensures 448 + hash.size <= k < 512 ==> Verifies(names, area[k := x])
    ensures !(448 <= k < 512) && hash.digest(Covered(area[k := x])) != hash.digest(Covered(area)) ==>
      !Verifies(names, area[k := x])
  {
    hide Covered, Named;
    FieldOf(area, k, x, hash.size);
  }

  /** Damage outside the field: the copy is no longer read, as long as the digest tells the two areas apart. */
  lemma DamageShows(
      disk: seq<byte>, names: seq<byte> -> Option<Hash>, base: nat, magic: seq<byte>, size: nat, hash: Hash, k: nat,
      x: byte)
    requires IsRead(disk, names, base, magic, size, hash) && k < size && disk[base + k] != x
    requires !(8 <= k < 16) && !(72 <= k < 104) && !(448 <= k < 512)
    requires var area := disk[base..base + size]; hash.digest(Covered(area[k := x])) != hash.digest(Covered(area))
    ensures Loader(DiskReader(disk[base + k := x]), names).ReadCopy(base, magic) == None
  {
    hide Loader.ReadCopy, Covered, Verifies, Named, Be64;
    ChangedByte(disk, names, base, magic, size, hash, k, x);
    AreaAfter(names, disk[base..base + size], hash, k, x);
  }

  /** Damage to the checksum itself: the same, whatever the digest. */
  lemma FieldDamageShows(
      disk: seq<byte>, names: seq<byte> -> Option<Hash>, base: nat, magic: seq<byte>, size: nat, hash: Hash, k: nat,
      x: byte)
    requires IsRead(disk, names, base, magic, size, hash) && 448 <= k < 448 + hash.size <= 512 && disk[base + k] != x
    ensures Loader(DiskReader(disk[base + k := x]), names).ReadCopy(base, magic) == None
  {
    hide Loader.ReadCopy, Covered, Verifies, Named, Be64;
    ChangedByte(disk, names, base, magic, size, hash, k, x);
    AreaAfter(names, disk[base..base + size], hash, k, x);
  }

  /** What the field holds after the checksum does not count. */
  lemma PaddingDoesNotCount(
      disk: seq<byte>, names: seq<byte> -> Option<Hash>, base: nat, magic: seq<byte>, size: nat, hash: Hash, k: nat,
      x: byte)
    requires IsRead(disk, names, base, magic, size, hash) && 448 + hash.size <= k < 512
    ensures Loader(DiskReader(disk[base + k := x]), names).ReadCopy(base, magic)
         == Loader(DiskReader(disk), names).ReadCopy(base, magic)
  {
    hide Loader.ReadCopy, Covered, Verifies, Named, Be64;
    ChangedByte(disk, names, base, magic, size, hash, k, x);
    var area, after := disk[base..base + size], disk[base..base + size][k := x];
    assert after[0..6] == area[0..6];
    AreaAfter(names, area, hash, k, x);
    SameCopy(disk, disk[base + k := x], names, base, magic, size, k, x);
  }

  // ---- Mixtures, from the digest alone ----

  /** Two areas that verify under one algorithm, alike after their checksums in the field; of the messages that mix
      theirs none has a digest that mixes theirs. Then no mixture of the areas verifies. */
  lemma MixturesFailByDigest(names: seq<byte> -> Option<Hash>, a: seq<byte>, b: seq<byte>, hash: Hash)
    requires |a| == |b| > BIN_LEN && Verifies(names, a) && Verifies(names, b)
    requires a[72..104] == b[72..104] && Named(names, a) == Some(hash)
    requires a[448 + hash.size..512] == b[448 + hash.size..512]
    requires forall m :: Mixed(m, Covered(a), Covered(b)) && m != Covered(a) && m != Covered(b) ==>
               !Mixed(hash.digest(m), hash.digest(Covered(a)), hash.digest(Covered(b)))
    ensures MixturesFail(names, a, b)
  {
    hide Verifies, Mixed, Covered;
    assert forall m :: Mixed(m, a, b) ==> |m| == |a| by { MixedLength(a, b); }
    forall m | Mixed(m, a, b) && |m| > BIN_LEN && Verifies(names, m) ensures m == a || m == b {
      VerifiedMixture(names, a, b, hash, m);
    }
  }

  lemma VerifiedMixture(names: seq<byte> -> Option<Hash>, a: seq<byte>, b: seq<byte>, hash: Hash, m: seq<byte>)
    requires |a| == |b| > BIN_LEN && Verifies(names, a) && Verifies(names, b) && Mixed(m, a, b) && Verifies(names, m)
    requires a[72..104] == b[72..104] && Named(names, a) == Some(hash)
    requires a[448 + hash.size..512] == b[448 + hash.size..512]
    requires Mixed(Covered(m), Covered(a), Covered(b)) && Covered(m) != Covered(a) && Covered(m) != Covered(b) ==>
               !Mixed(hash.digest(Covered(m)), hash.digest(Covered(a)), hash.digest(Covered(b)))
    ensures m == a || m == b
  {
    hide CString, Covered;
    var n := hash.size;
    assert m[72..104] == a[72..104] by {
      forall k | 72 <= k < 104 ensures m[k] == a[k] { assert a[72..104][k - 72] == b[72..104][k - 72]; }
    }
    forall k | 448 + n <= k < 512 ensures m[k] == a[k] == b[k] {
      assert a[448 + n..512][k - 448 - n] == b[448 + n..512][k - 448 - n];
    }
    MixedCovers(m, a, b);
    assert Mixed(m[448..448 + n], a[448..448 + n], b[448..448 + n]);
    if Covered(m) == Covered(a) {
      SameWhole(m, a, n);
    } else if Covered(m) == Covered(b) {
      SameWhole(m, b, n);
    }
  }

  lemma MixedLength(a: seq<byte>, b: seq<byte>)
    ensures forall m :: Mixed(m, a, b) ==> |m| == |a|
  {}

  lemma MixedCovers(m: seq<byte>, a: seq<byte>, b: seq<byte>)
    requires Mixed(m, a, b)
    ensures Mixed(Covered(m), Covered(a), Covered(b))
  {}

  lemma SameWhole(m: seq<byte>, a: seq<byte>, n: nat)
    requires |m| == |a| > 512 && n <= 64 && Covered(m) == Covered(a) && m[448..448 + n] == a[448..448 + n]
    requires forall k :: 448 + n <= k < 512 ==> m[k] == a[k]
    ensures m == a
  {
    forall k | 0 <= k < |m| ensures m[k] == a[k] {
      if k < 448 || k >= 512 {
        assert Covered(m)[k] == m[k] && Covered(a)[k] == a[k];
      } else if k < 448 + n {
        assert m[448..448 + n][k - 448] == a[448..448 + n][k - 448];
      }
    }
  }

  // ---- An update, torn anywhere ----

  /** Old and new metadata in headers of the same size, nothing else touched, and a checksum that does its work. */
  ghost predicate Update(
    d0: seq<byte>, d1: seq<byte>, names: seq<byte> -> Option<Hash>, before: Copy, after: Copy, size: nat)
  {
    && Holds(d0, names, before, size) && Holds(d1, names, after, size) && after.seqid > before.seqid
    && |d0| == |d1| && d0[2 * size..] == d1[2 * size..]
    && MixturesFail(names, d0[0..size], d1[0..size]) && MixturesFail(names, d0[size..2 * size], d1[size..2 * size])
  }

  /** The power fails while the primary is written: any of its bytes may be new, and nothing after them is. */
  ghost predicate TornFirst(torn: seq<byte>, d0: seq<byte>, d1: seq<byte>, size: nat)
    requires size <= |d0| == |d1|
  {
    |torn| == |d0| && Mixed(torn[0..size], d0[0..size], d1[0..size]) && torn[size..] == d0[size..]
  }

  /** The power fails while the secondary is written. */
  ghost predicate TornSecond(torn: seq<byte>, d0: seq<byte>, d1: seq<byte>, size: nat)
    requires 2 * size <= |d0| == |d1|
  {
    && |torn| == |d0| && torn[0..size] == d1[0..size]
    && Mixed(torn[size..2 * size], d0[size..2 * size], d1[size..2 * size])
  }

  /** The primary's area, however far the writer got, is the old copy, the new one, or none. */
  lemma AreaIs(
      torn: seq<byte>, d0: seq<byte>, d1: seq<byte>, names: seq<byte> -> Option<Hash>, base: nat, size: nat,
      magic: seq<byte>, before: Copy, after: Copy)
    requires base + size <= |torn| && base + size <= |d0| && base + size <= |d1|
    requires before.size == after.size == size
    requires Loader(DiskReader(d0), names).ReadCopy(base, magic) == Some(before)
    requires Loader(DiskReader(d1), names).ReadCopy(base, magic) == Some(after)
    requires var m, a, b := torn[base..base + size], d0[base..base + size], d1[base..base + size];
             Mixed(m, a, b) && MixturesFail(names, a, b)
    ensures var m, a, b := torn[base..base + size], d0[base..base + size], d1[base..base + size];
            Loader(DiskReader(torn), names).ReadCopy(base, magic)
              == if m == b then Some(after) else if m == a then Some(before) else None
  {
    hide Loader.ReadCopy, Mixed, MixturesFail;
    var m, a, b := torn[base..base + size], d0[base..base + size], d1[base..base + size];
    if m == b {
      CopyDependsOnItsArea(d1, torn, names, base, magic, after);
    } else if m == a {
      CopyDependsOnItsArea(d0, torn, names, base, magic, before);
    } else {
      MixedIsNothing(torn, d0, d1, names, base, size, magic, before, after);
    }
  }

  /** Torn anywhere in the primary, in headers of the usual size: the old metadata until the last byte is written, then
      the new. */
  lemma TornPrimary(
      torn: seq<byte>, d0: seq<byte>, d1: seq<byte>, names: seq<byte> -> Option<Hash>, before: Copy, after: Copy)
    requires Update(d0, d1, names, before, after, USUAL_SIZE) && TornFirst(torn, d0, d1, USUAL_SIZE)
    ensures Loader(DiskReader(torn), names).Load()
         == if torn[0..USUAL_SIZE] == d1[0..USUAL_SIZE] then Some(after) else Some(before)
  {
    hide Loader.ReadCopy;
    AreaIs(torn, d0, d1, names, 0, USUAL_SIZE, PRIMARY, before, after);
    hide MixturesFail, Mixed;
    assert torn[USUAL_SIZE..2 * USUAL_SIZE] == torn[USUAL_SIZE..][..USUAL_SIZE];
    assert d0[USUAL_SIZE..2 * USUAL_SIZE] == d0[USUAL_SIZE..][..USUAL_SIZE];
    CopyDependsOnItsArea(d0, torn, names, USUAL_SIZE, SECONDARY, before);
  }

  /** Torn anywhere in the secondary, in headers of any size: the new metadata. */
  lemma TornSecondary(
      torn: seq<byte>, d0: seq<byte>, d1: seq<byte>, names: seq<byte> -> Option<Hash>, before: Copy, after: Copy,
      size: nat)
    requires Update(d0, d1, names, before, after, size) && TornSecond(torn, d0, d1, size)
    ensures Loader(DiskReader(torn), names).Load() == Some(after)
  {
    hide Loader.ReadCopy, MixturesFail, Mixed;
    AreaIs(torn, d0, d1, names, size, size, SECONDARY, before, after);
    CopyDependsOnItsArea(d1, torn, names, 0, PRIMARY, after);
  }

  // ---- What another size loses ----

  /** No secondary header begins where a header of the usual size would have its own, however far the writer got. */
  ghost predicate NoStray(d0: seq<byte>, d1: seq<byte>, size: nat)
    requires |d0| == |d1|
  {
    || |d0| < USUAL_SIZE + BIN_LEN
    || exists k :: 0 <= k < 6 && d0[USUAL_SIZE + k] != SECONDARY[k]
                   && (USUAL_SIZE + k < size ==> d1[USUAL_SIZE + k] != SECONDARY[k])
  }

  lemma StrayIsNothing(torn: seq<byte>, d0: seq<byte>, d1: seq<byte>, names: seq<byte> -> Option<Hash>, size: nat)
    requires size <= |d0| == |d1| && TornFirst(torn, d0, d1, size) && NoStray(d0, d1, size)
    ensures Loader(DiskReader(torn), names).ReadCopy(USUAL_SIZE, SECONDARY) == None
  {
    hide CString, Rd64be, Loader.ChecksumOk;
    if |d0| >= USUAL_SIZE + BIN_LEN {
      var k :| 0 <= k < 6 && d0[USUAL_SIZE + k] != SECONDARY[k]
               && (USUAL_SIZE + k < size ==> d1[USUAL_SIZE + k] != SECONDARY[k]);
      var at := USUAL_SIZE + k;
      if at < size {
        assert torn[0..size][at] == torn[at] && d0[0..size][at] == d0[at] && d1[0..size][at] == d1[at];
      } else {
        assert torn[size..][at - size] == torn[at] && d0[size..][at - size] == d0[at];
      }
      assert torn[USUAL_SIZE..USUAL_SIZE + BIN_LEN][..6][k] == torn[at];
    }
  }

  /** Some byte has been written and some other has not. */
  lemma HalfWritten(d0: seq<byte>, d1: seq<byte>, size: nat, i: nat, j: nat) returns (torn: seq<byte>)
    requires i < size <= |d0| == |d1| && j < size && i != j && d0[i] != d1[i] && d0[j] != d1[j]
    ensures TornFirst(torn, d0, d1, size) && torn[0..size] != d0[0..size] && torn[0..size] != d1[0..size]
  {
    torn := d0[i := d1[i]];
    assert torn[0..size][i] == d1[i] && d0[0..size][i] == d0[i];
    assert torn[0..size][j] == d0[j] && d1[0..size][j] == d1[j];
  }

  /** Whether an update survives a cut anywhere in the primary, when old and new differ in two bytes there or more
      and no stray secondary lies at 16 KiB: exactly when the header has the usual size. With any other the loader
      looks for the secondary in the wrong place, and old and new are both lost. */
  lemma SurvivesIffUsual(
      d0: seq<byte>, d1: seq<byte>, names: seq<byte> -> Option<Hash>, before: Copy, after: Copy, size: nat,
      i: nat, j: nat)
    requires Update(d0, d1, names, before, after, size) && (size != USUAL_SIZE ==> NoStray(d0, d1, size))
    requires i < size && j < size && i != j && d0[i] != d1[i] && d0[j] != d1[j]
    ensures (forall torn :: TornFirst(torn, d0, d1, size) ==>
               Loader(DiskReader(torn), names).Load() in {Some(before), Some(after)})
       <==> size == USUAL_SIZE
  {
    assert size <= |d0| == |d1|;
    hide Loader.ReadCopy, Loader.Load, Update;
    if size == USUAL_SIZE {
      forall torn | TornFirst(torn, d0, d1, size)
        ensures Loader(DiskReader(torn), names).Load() in {Some(before), Some(after)}
      {
        TornPrimary(torn, d0, d1, names, before, after);
      }
    } else {
      var torn := HalfWritten(d0, d1, size, i, j);
      LostPrimary(torn, d0, d1, names, before, after, size);
    }
  }

  /** What is lost then: everything. */
  lemma LostPrimary(
      torn: seq<byte>, d0: seq<byte>, d1: seq<byte>, names: seq<byte> -> Option<Hash>, before: Copy, after: Copy,
      size: nat)
    requires Update(d0, d1, names, before, after, size) && TornFirst(torn, d0, d1, size) && NoStray(d0, d1, size)
    requires torn[0..size] != d0[0..size] && torn[0..size] != d1[0..size]
    ensures Loader(DiskReader(torn), names).Load() == None
  {
    hide Loader.ReadCopy, MixturesFail, Mixed, NoStray;
    AreaIs(torn, d0, d1, names, 0, size, PRIMARY, before, after);
    StrayIsNothing(torn, d0, d1, names, size);
  }
}

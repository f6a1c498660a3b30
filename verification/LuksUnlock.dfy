/**
 Turning a passphrase into the master key of a LUKS1 container (Core/crypto/luks.c, `try_slot` and
 `luks_unlock`), and the theorem that it undoes what a formatter wrote.
 */
module LuksUnlock {
  import opened Bytes
  import opened Errno
  import opened Arith
  import opened Crypto
  import opened AesXts
  import opened AfSplit
  import opened LuksDevice
  import opened Wrappers

  datatype Status = Ok | NotLuks | Unsupported | BadPassphrase | Io | Corrupt

  /** The container's bytes, as the caller's read callback answers for them. */
  type Reader = (nat, nat) -> Option<seq<byte>>

  /** The primitives under one hash: its digest, its PBKDF2, and AES under a key. */
  datatype Platform = Platform(hash: Hash, pbkdf2: (seq<byte>, seq<byte>, nat, nat) -> seq<byte>,
                               aes: seq<byte> -> BlockCipher) {
    ghost predicate Valid() {
      && hash.Valid()
      && (forall pass, salt, iterations, len :: |pbkdf2(pass, salt, iterations, len)| == len)
      && (forall k :: aes(k).Bijective())
    }

    /** `aes_xts_key_create`: the two halves of the key, for the data and for the tweak. */
    function Schedule(key: seq<byte>): XtsKey {
      XtsKey(aes(key[..|key| / 2]), aes(key[|key| / 2..]))
    }
  }

  const MAX_MASTER_KEY: nat := 64
  const MAX_PBKDF2_ITER: nat := 100_000_000
  const MAX_STRIPES: nat := 8192
  const MK_DIGEST: nat := 112
  const MK_DIGEST_SALT: nat := 132
  const MK_DIGEST_ITER: nat := 164
  const KEY_SLOTS: nat := 208
  const DIGEST_LEN: nat := 20
  const SALT_LEN: nat := 32
  const NUM_SLOTS: nat := 8
  const SLOT_SIZE: nat := 48
  const SLOT_ENABLED: nat := 0x00AC71F3
  const SECTOR: nat := 512
  const HEADER_LEN: nat := 592
  const MAGIC: seq<byte> := [0x4c, 0x55, 0x4b, 0x53, 0xba, 0xbe]

  function Rd32be(p: seq<byte>, at: nat): nat
    requires at + 4 <= |p|
  {
    p[at] as nat * 0x100_0000 + p[at + 1] as nat * 0x1_0000 + p[at + 2] as nat * 0x100 + p[at + 3] as nat
  }

  datatype Slot = Slot(active: nat, iterations: nat, salt: seq<byte>, keyMaterialOffset: nat, stripes: nat)

  /** `read_slot`. */
  function ReadSlot(hdr: seq<byte>, i: nat): Slot
    requires |hdr| == HEADER_LEN && i < NUM_SLOTS
  {
    var p := KEY_SLOTS + i * SLOT_SIZE;
    Slot(Rd32be(hdr, p), Rd32be(hdr, p + 4), hdr[p + 8..p + 8 + SALT_LEN], Rd32be(hdr, p + 40), Rd32be(hdr, p + 44))
  }

  // ---- The format, as bytes (section 3.1 of the LUKS On-Disk Format Specification 1.2.3) ----

  const WORD: nat := 0x1_0000_0000

  lemma Digits(n: nat)
    requires n < WORD
    ensures n == n / 0x100_0000 % 0x100 * 0x100_0000 + n / 0x1_0000 % 0x100 * 0x1_0000
                 + n / 0x100 % 0x100 * 0x100 + n % 0x100
  {}

  /** A big-endian word is read as what was written. */
  lemma WordIsRead(p: seq<byte>, at: nat, n: nat)
    requires at + 4 <= |p| && p[at..at + 4] == Be32(n) && n < WORD
    ensures Rd32be(p, at) == n
  {
    var b := Be32(n);
    assert p[at] == b[0] && p[at + 1] == b[1] && p[at + 2] == b[2] && p[at + 3] == b[3];
    ByteValue(n / 0x100_0000 % 0x100);
    ByteValue(n / 0x1_0000 % 0x100);
    ByteValue(n / 0x100 % 0x100);
    ByteValue(n % 0x100);
    Digits(n);
  }

  /** A key slot's 48 bytes. */
  function SlotBytes(slot: Slot): seq<byte> {
    Be32(slot.active) + Be32(slot.iterations) + slot.salt + Be32(slot.keyMaterialOffset) + Be32(slot.stripes)
  }

  lemma SlotParts(slot: Slot)
    requires |slot.salt| == 32
    ensures var b := SlotBytes(slot);
            && |b| == 48 && b[0..4] == Be32(slot.active) && b[4..8] == Be32(slot.iterations) && b[8..40] == slot.salt
            && b[40..44] == Be32(slot.keyMaterialOffset) && b[44..48] == Be32(slot.stripes)
  {
    hide Be32;
  }

  lemma SlotIsRead(hdr: seq<byte>, i: nat, slot: Slot)
    requires |hdr| == 592 && i < 8 && |slot.salt| == 32 && hdr[208 + 48 * i..256 + 48 * i] == SlotBytes(slot)
    requires slot.active < WORD && slot.iterations < WORD && slot.keyMaterialOffset < WORD && slot.stripes < WORD
    ensures ReadSlot(hdr, i) == slot
  {
    hide Be32, Rd32be;
    var p, b := 208 + 48 * i, SlotBytes(slot);
    SlotParts(slot);
    SliceOfSlice(hdr, p, p + 48, 0, 4);
    SliceOfSlice(hdr, p, p + 48, 4, 8);
    SliceOfSlice(hdr, p, p + 48, 8, 40);
    SliceOfSlice(hdr, p, p + 48, 40, 44);
    SliceOfSlice(hdr, p, p + 48, 44, 48);
    hide SlotBytes;
    WordIsRead(hdr, p, slot.active);
    WordIsRead(hdr, p + 4, slot.iterations);
    WordIsRead(hdr, p + 40, slot.keyMaterialOffset);
    WordIsRead(hdr, p + 44, slot.stripes);
  }

  /** Key material, sector by sector: XTS under the number of each 512 bytes, the last of them perhaps short. */
  ghost predicate SectorIs(c: seq<byte>, p: seq<byte>, key: XtsKey, first: nat, n: nat)
    requires |c| == |p| && |p| % 16 == 0 && 512 * n < |p|
  {
    var x := 512 * n;
    var y := if x + 512 <= |p| then x + 512 else |p|;
    c[x..y] == Xts(key, true, Plain64(first + n), p[x..y])
  }

  ghost predicate SectorsAre(c: seq<byte>, p: seq<byte>, key: XtsKey, first: nat) {
    |c| == |p| && |p| % 16 == 0 && forall n: nat :: 512 * n < |p| ==> SectorIs(c, p, key, first, n)
  }

  lemma NextSectors(c: seq<byte>, p: seq<byte>, key: XtsKey, first: nat, n: nat)
    requires SectorsAre(c, p, key, first) && |p| > 512 && 512 * n < |p| - 512
    ensures SectorIs(c[512..], p[512..], key, first + 1, n)
  {
    hide Xts, Plain64;
    assert SectorIs(c, p, key, first, n + 1);
    var x := 512 * n;
    var y := if x + 512 <= |p| - 512 then x + 512 else |p| - 512;
    assert c[512..][x..y] == c[x + 512..y + 512] && p[512..][x..y] == p[x + 512..y + 512];
    assert first + (n + 1) == first + 1 + n;
  }

  lemma {:induction false} SectorsAreARun(c: seq<byte>, p: seq<byte>, key: XtsKey, first: nat)
    requires SectorsAre(c, p, key, first)
    ensures CryptRun(Sectors(key, 512, 1), true, p, first) == c
    decreases |p|
  {
    hide Xts, Plain64;
    if p == [] {
    } else {
      assert SectorIs(c, p, key, first, 0);
      if |p| <= 512 {
        assert p[..|p|] == p[0..|p|] == p && c[0..|p|] == c;
        assert CryptRun(Sectors(key, 512, 1), true, [], first + 1) == [];
      } else {
        forall n: nat | 512 * n < |p| - 512 ensures SectorIs(c[512..], p[512..], key, first + 1, n) {
          NextSectors(c, p, key, first, n);
        }
        SectorsAreARun(c[512..], p[512..], key, first + 1);
        assert c == c[0..512] + c[512..];
      }
    }
  }

  /** Everything `luks_unlock` is given. */
  datatype Request = Request(platform: Platform, keyBytes: nat, read: Reader, passphrase: seq<byte>) {

    ghost predicate Valid() {
      platform.Valid() && keyBytes <= MAX_MASTER_KEY
    }

    /** `digest_matches`: the header's own digest of the master key. */
    predicate DigestMatches(hdr: seq<byte>, mk: seq<byte>)
      requires |hdr| == HEADER_LEN
    {
      var iterations := Rd32be(hdr, MK_DIGEST_ITER);
      && 0 < iterations <= MAX_PBKDF2_ITER
      && platform.pbkdf2(mk, hdr[MK_DIGEST_SALT..MK_DIGEST_SALT + SALT_LEN], iterations, DIGEST_LEN)
         == hdr[MK_DIGEST..MK_DIGEST + DIGEST_LEN]
    }

    predicate Bounded(slot: Slot) {
      0 < slot.stripes <= MAX_STRIPES && 0 < slot.iterations <= MAX_PBKDF2_ITER
    }

    /** The key material of a slot is numbered from sector 0 of its own area, in 512-byte sectors. */
    function SlotSectors(slot: Slot): Sectors {
      Sectors(platform.Schedule(platform.pbkdf2(passphrase, slot.salt, slot.iterations, keyBytes)), SECTOR, 1)
    }

    /** The master key this passphrase makes of what the slot's area holds. */
    function Candidate(slot: Slot, material: seq<byte>): (mk: seq<byte>)
      requires platform.hash.Valid() && slot.stripes > 0 && |material| == slot.stripes * keyBytes
      ensures |mk| == keyBytes
    {
      Merge(CryptRun(SlotSectors(slot), false, material, 0), keyBytes, slot.stripes, platform.hash)
    }

    /** `try_slot`: the outcome of one enabled slot, when the machine itself does not fail. */
    function TrySlot(hdr: seq<byte>, slot: Slot): (r: (Status, seq<byte>))
      requires |hdr| == HEADER_LEN && platform.hash.Valid()
      ensures r.0.Ok? ==> |r.1| == keyBytes && DigestMatches(hdr, r.1)
    {
      if !Bounded(slot) then (Corrupt, [])
      else if keyBytes == 0 then (Io, [])
      else match read(slot.keyMaterialOffset * SECTOR, slot.stripes * keyBytes)
        case None => (Io, [])
        case Some(material) =>
          if |material| != slot.stripes * keyBytes then (Io, [])
          else if keyBytes != 32 && keyBytes != 64 then (Unsupported, [])
          else
            var mk := Candidate(slot, material);
            if DigestMatches(hdr, mk) then (Ok, mk) else (BadPassphrase, [])
    }

    /** The slot loop: the first enabled slot that opens, else the last failure other than a wrong passphrase.
        A slot in `failed` is one where an allocation or a cipher call failed. */
    function TryFrom(hdr: seq<byte>, i: nat, last: Status, failed: set<nat>): (r: (Status, seq<byte>))
      requires |hdr| == HEADER_LEN && platform.hash.Valid() && i <= NUM_SLOTS && !last.Ok?
      ensures r.0.Ok? ==> |r.1| == keyBytes && DigestMatches(hdr, r.1)
      decreases NUM_SLOTS - i
    {
      if i == NUM_SLOTS then (last, [])
      else
        var slot := ReadSlot(hdr, i);
        if slot.active != SLOT_ENABLED then TryFrom(hdr, i + 1, last, failed)
        else
          var s := SlotOutcome(hdr, i, failed);
          if s.0.Ok? then s
          else TryFrom(hdr, i + 1, if s.0.BadPassphrase? then last else s.0, failed)
    }

    function SlotOutcome(hdr: seq<byte>, i: nat, failed: set<nat>): (r: (Status, seq<byte>))
      requires |hdr| == HEADER_LEN && platform.hash.Valid() && i < NUM_SLOTS
      ensures r.0.Ok? ==> |r.1| == keyBytes && DigestMatches(hdr, r.1)
    {
      if i in failed && Bounded(ReadSlot(hdr, i)) then (Io, []) else TrySlot(hdr, ReadSlot(hdr, i))
    }

    /** `luks_unlock` for version 1. */
    function Unlock(failed: set<nat>): (r: (Status, seq<byte>))
      requires platform.hash.Valid()
      ensures r.0.Ok? ==> |r.1| == keyBytes
    {
      match read(0, HEADER_LEN)
      case None => (Io, [])
      case Some(hdr) =>
        if |hdr| != HEADER_LEN then (Io, [])
        else if hdr[..6] != MAGIC then (NotLuks, [])
        else TryFrom(hdr, 0, BadPassphrase, failed)
    }

    // ---- Unlock undoes format ----

    predicate Enabled(hdr: seq<byte>, i: nat)
      requires |hdr| == HEADER_LEN && i < NUM_SLOTS
    {
      ReadSlot(hdr, i).active == SLOT_ENABLED
    }

    /** A slot's area as written for this passphrase: the master key AF-split over the stripes, encrypted under
        the key the passphrase stretches into (section 4 of the LUKS On-Disk Format Specification 1.2.3). */
    function SlotArea(slot: Slot, mk: seq<byte>, random: seq<seq<byte>>): seq<byte>
      requires platform.hash.Valid() && forall s :: s in random ==> |s| == |mk|
    {
      CryptRun(SlotSectors(slot), true, Split(mk, random, platform.hash), 0)
    }

    ghost predicate SlotHolds(slot: Slot, mk: seq<byte>, random: seq<seq<byte>>)
      requires platform.hash.Valid()
    {
      && slot.active == SLOT_ENABLED && Bounded(slot)
      && slot.stripes == |random| + 1 && (forall s :: s in random ==> |s| == |mk|)
      && read(slot.keyMaterialOffset * SECTOR, slot.stripes * keyBytes) == Some(SlotArea(slot, mk, random))
    }

    /** The header a formatter leaves, with its digest of the master key. */
    ghost predicate Formatted(hdr: seq<byte>, mk: seq<byte>) {
      && (keyBytes == 32 || keyBytes == 64) && |mk| == keyBytes
      && |hdr| == HEADER_LEN && hdr[..6] == MAGIC && read(0, HEADER_LEN) == Some(hdr)
      && DigestMatches(hdr, mk)
    }

    lemma SlotOpens(hdr: seq<byte>, slot: Slot, mk: seq<byte>, random: seq<seq<byte>>)
      requires Valid() && Formatted(hdr, mk) && SlotHolds(slot, mk, random)
      ensures TrySlot(hdr, slot) == (Ok, mk)
    {
      hide CryptRun, Split, Merge, Request.DigestMatches;
      CryptRunInverse(SlotSectors(slot), true, Split(mk, random, platform.hash), 0);
      MergeUndoesSplit(mk, random, platform.hash);
    }

    /** The loop stops at the first enabled slot that opens, and fails only when none does. */
    lemma {:induction false} LoopFindsFirst(hdr: seq<byte>, i: nat, last: Status, failed: set<nat>, k: nat)
      requires |hdr| == HEADER_LEN && platform.hash.Valid() && i <= k <= NUM_SLOTS && !last.Ok?
      requires forall j :: i <= j < k && Enabled(hdr, j) ==> !SlotOutcome(hdr, j, failed).0.Ok?
      requires k < NUM_SLOTS ==> Enabled(hdr, k) && SlotOutcome(hdr, k, failed).0.Ok?
      ensures k < NUM_SLOTS ==> TryFrom(hdr, i, last, failed) == SlotOutcome(hdr, k, failed)
      ensures k == NUM_SLOTS ==> !TryFrom(hdr, i, last, failed).0.Ok?
      decreases k - i
    {
      hide Request.TrySlot, ReadSlot, Request.DigestMatches;
      if i < k {
        var s := SlotOutcome(hdr, i, failed);
        LoopFindsFirst(hdr, i + 1, if !Enabled(hdr, i) || s.0.BadPassphrase? then last else s.0, failed, k);
      }
    }

    lemma FirstOpening(hdr: seq<byte>, i: nat, failed: set<nat>) returns (k: nat)
      requires |hdr| == HEADER_LEN && platform.hash.Valid() && i <= NUM_SLOTS
      ensures i <= k <= NUM_SLOTS
      ensures forall j :: i <= j < k && Enabled(hdr, j) ==> !SlotOutcome(hdr, j, failed).0.Ok?
      ensures k < NUM_SLOTS ==> Enabled(hdr, k) && SlotOutcome(hdr, k, failed).0.Ok?
      decreases NUM_SLOTS - i
    {
      hide *;
      if i == NUM_SLOTS || (Enabled(hdr, i) && SlotOutcome(hdr, i, failed).0.Ok?) {
        k := i;
      } else {
        k := FirstOpening(hdr, i + 1, failed);
      }
    }

    /** A container opens exactly when one of its enabled slots does, and then with the key of the first. */
    lemma OpensIffSomeSlotDoes(hdr: seq<byte>, failed: set<nat>)
      requires Valid() && read(0, HEADER_LEN) == Some(hdr) && |hdr| == HEADER_LEN && hdr[..6] == MAGIC
      ensures Unlock(failed).0.Ok? <==>
              exists k: nat :: k < NUM_SLOTS && Enabled(hdr, k) && SlotOutcome(hdr, k, failed).0.Ok?
      ensures Unlock(failed).0.Ok? ==>
              exists k: nat :: k < NUM_SLOTS && Enabled(hdr, k) && Unlock(failed) == SlotOutcome(hdr, k, failed) &&
                (forall j :: 0 <= j < k && Enabled(hdr, j) ==> !SlotOutcome(hdr, j, failed).0.Ok?)
    {
      hide Request.TrySlot, ReadSlot, Request.DigestMatches, Request.SlotOutcome, Request.TryFrom, Request.Enabled;
      var k := FirstOpening(hdr, 0, failed);
      LoopFindsFirst(hdr, 0, BadPassphrase, failed, k);
    }

    lemma OutcomeOfSlot(hdr: seq<byte>, j: nat)
      requires |hdr| == HEADER_LEN && platform.hash.Valid() && j < NUM_SLOTS
      ensures SlotOutcome(hdr, j, {}) == TrySlot(hdr, ReadSlot(hdr, j))
    {
      hide Request.TrySlot, ReadSlot;
    }

    /** When no slot opens, the answer is that of the last enabled slot that failed for another reason than the
        passphrase, and a wrong passphrase if there is none. */
    lemma {:induction false} LastReason(hdr: seq<byte>, i: nat, last: Status, failed: set<nat>)
      requires |hdr| == HEADER_LEN && platform.hash.Valid() && i <= NUM_SLOTS && !last.Ok?
      requires forall j :: i <= j < NUM_SLOTS && Enabled(hdr, j) ==> !SlotOutcome(hdr, j, failed).0.Ok?
      ensures forall k :: i <= k < NUM_SLOTS && Reason(hdr, k, failed)
                          && (forall j :: k < j < NUM_SLOTS ==> !Reason(hdr, j, failed)) ==>
                TryFrom(hdr, i, last, failed).0 == SlotOutcome(hdr, k, failed).0
      ensures (forall j :: i <= j < NUM_SLOTS ==> !Reason(hdr, j, failed)) ==> TryFrom(hdr, i, last, failed).0 == last
      decreases NUM_SLOTS - i
    {
      hide Request.TrySlot, ReadSlot, Request.DigestMatches, Request.SlotOutcome;
      if i < NUM_SLOTS {
        LastReason(hdr, i + 1, if Reason(hdr, i, failed) then SlotOutcome(hdr, i, failed).0 else last, failed);
      }
    }

    /** An enabled slot that fails, and not because of the passphrase. */
    predicate Reason(hdr: seq<byte>, k: nat, failed: set<nat>)
      requires |hdr| == HEADER_LEN && platform.hash.Valid() && k < NUM_SLOTS
    {
      Enabled(hdr, k) && !SlotOutcome(hdr, k, failed).0.Ok? && !SlotOutcome(hdr, k, failed).0.BadPassphrase?
    }

    /** A slot is corrupt exactly when one of its counts is out of bounds, and no key opens a header whose own count
        is. */
    lemma CorruptIff(hdr: seq<byte>, slot: Slot, n: nat)
      requires |hdr| == 592 && platform.hash.Valid() && hdr[164..168] == Be32(n) && n < WORD
      ensures TrySlot(hdr, slot).0.Corrupt? <==> slot.stripes == 0 || slot.stripes > 8192
                                                 || slot.iterations == 0 || slot.iterations > 100_000_000
      ensures TrySlot(hdr, slot).0.Ok? ==> 0 < n <= 100_000_000
    {
      hide Merge, CryptRun, Be32, Rd32be, Request.Candidate;
      WordIsRead(hdr, 164, n);
    }

    /** Unlock undoes format. The passphrase opens the container with a key the digest vouches for; and when
        the digest accepts no other candidate, that key is the master key. */
    lemma UnlockUndoesFormat(hdr: seq<byte>, i: nat, mk: seq<byte>, random: seq<seq<byte>>)
      requires Valid() && Formatted(hdr, mk) && i < NUM_SLOTS && SlotHolds(ReadSlot(hdr, i), mk, random)
      ensures Unlock({}).0.Ok? && DigestMatches(hdr, Unlock({}).1)
      ensures (forall j :: 0 <= j < i && Enabled(hdr, j) && TrySlot(hdr, ReadSlot(hdr, j)).0.Ok?
                ==> TrySlot(hdr, ReadSlot(hdr, j)).1 == mk)
              ==> Unlock({}) == (Ok, mk)
    {
      hide Request.TrySlot, ReadSlot, Request.DigestMatches, Request.SlotOutcome, Request.Unlock, SlotArea;
      SlotOpens(hdr, ReadSlot(hdr, i), mk, random);
      OutcomeOfSlot(hdr, i);
      OpensIffSomeSlotDoes(hdr, {});
      var k :| 0 <= k < NUM_SLOTS && Enabled(hdr, k) && Unlock({}) == SlotOutcome(hdr, k, {}) &&
        (forall j :: 0 <= j < k && Enabled(hdr, j) ==> !SlotOutcome(hdr, j, {}).0.Ok?);
      assert k <= i;
      OutcomeOfSlot(hdr, k);
    }

    /** What a formatter leaves on the medium, byte by byte: the digest of the master key, one slot, and the slot's
        area, which is the split key encrypted under the two halves of what the passphrase stretches into. */
    ghost predicate OnDisk(hdr: seq<byte>, i: nat, slot: Slot, area: seq<byte>, mk: seq<byte>, random: seq<seq<byte>>,
                           salt: seq<byte>, iterations: nat)
      requires platform.hash.Valid()
    {
      && |hdr| == 592 && read(0, 592) == Some(hdr) && hdr[..6] == [0x4c, 0x55, 0x4b, 0x53, 0xba, 0xbe]
      && (keyBytes == 32 || keyBytes == 64) && |mk| == keyBytes
      && |salt| == 32 && 0 < iterations <= 100_000_000
      && hdr[112..132] == platform.pbkdf2(mk, salt, iterations, 20) && hdr[132..164] == salt
      && hdr[164..168] == Be32(iterations)
      && i < 8 && hdr[208 + 48 * i..256 + 48 * i] == SlotBytes(slot)
      && slot.active == 0x00AC71F3 && 0 < slot.iterations <= 100_000_000 && |slot.salt| == 32
      && slot.keyMaterialOffset < WORD && slot.stripes == |random| + 1 <= 8192
      && (forall s :: s in random ==> |s| == |mk|)
      && read(slot.keyMaterialOffset * 512, slot.stripes * keyBytes) == Some(area)
      && var dk := platform.pbkdf2(passphrase, slot.salt, slot.iterations, keyBytes);
         var half := keyBytes / 2;
         |dk| == keyBytes
         && SectorsAre(area, Split(mk, random, platform.hash),
                       XtsKey(platform.aes(dk[..half]), platform.aes(dk[half..])), 0)
    }

    lemma OnDiskIsFormatted(hdr: seq<byte>, i: nat, slot: Slot, area: seq<byte>, mk: seq<byte>, random: seq<seq<byte>>,
                            salt: seq<byte>, iterations: nat)
      requires Valid() && OnDisk(hdr, i, slot, area, mk, random, salt, iterations)
      ensures Formatted(hdr, mk) && ReadSlot(hdr, i) == slot && SlotHolds(slot, mk, random)
    {
      hide Split, Be32, Rd32be, Xts, CryptRun, SectorsAre;
      SlotIsRead(hdr, i, slot);
      WordIsRead(hdr, 164, iterations);
      var dk := platform.pbkdf2(passphrase, slot.salt, slot.iterations, keyBytes);
      SectorsAreARun(area, Split(mk, random, platform.hash), platform.Schedule(dk), 0);
    }

    /** The passphrase opens what is on the medium. */
    lemma OpensWhatIsOnDisk(hdr: seq<byte>, i: nat, slot: Slot, area: seq<byte>, mk: seq<byte>,
                            random: seq<seq<byte>>, salt: seq<byte>, iterations: nat)
      requires Valid() && OnDisk(hdr, i, slot, area, mk, random, salt, iterations)
      ensures Unlock({}).0.Ok? && platform.pbkdf2(Unlock({}).1, salt, iterations, 20) == hdr[112..132]
      ensures (forall other :: |other| == keyBytes && platform.pbkdf2(other, salt, iterations, 20) == hdr[112..132]
                ==> other == mk)
              ==> Unlock({}) == (Ok, mk)
    {
      hide Request.Unlock, Request.TrySlot, Request.SlotHolds, ReadSlot, Split, SlotBytes, SectorsAre;
      OnDiskIsFormatted(hdr, i, slot, area, mk, random, salt, iterations);
      UnlockUndoesFormat(hdr, i, mk, random);
      DigestOnDisk(hdr, i, slot, area, mk, random, salt, iterations, Unlock({}).1);
    }

    lemma DigestOnDisk(hdr: seq<byte>, i: nat, slot: Slot, area: seq<byte>, mk: seq<byte>, random: seq<seq<byte>>,
                       salt: seq<byte>, iterations: nat, key: seq<byte>)
      requires Valid() && OnDisk(hdr, i, slot, area, mk, random, salt, iterations)
      ensures DigestMatches(hdr, key) <==> platform.pbkdf2(key, salt, iterations, 20) == hdr[112..132]
    {
      hide Split, Be32, Rd32be, Xts, CryptRun, SectorsAre;
      WordIsRead(hdr, 164, iterations);
    }
  }

  // ---- The code ----

  /** What a refused attempt may leave of the caller's key buffer. */
  ghost predicate WipedOrUntouched(before: seq<byte>, after: seq<byte>) {
    after == before || after == Zeros(|before|)
  }

  /** Read, decrypt and merge one slot's material into mk. `failed` says that an allocation or a cipher call did. */
  method RecoverKey(q: Request, slot: Slot, mk: array<byte>) returns (s: Status, ghost failed: bool)
    requires q.Valid() && mk.Length == MAX_MASTER_KEY && q.Bounded(slot)
    modifies mk
    ensures failed ==> s == Io
    ensures !failed && q.keyBytes == 0 ==> s == Io
    ensures !failed && q.keyBytes > 0 ==>
      match q.read(slot.keyMaterialOffset * SECTOR, slot.stripes * q.keyBytes)
      case None => s == Io
      case Some(material) =>
        if |material| != slot.stripes * q.keyBytes then s == Io
        else if q.keyBytes != 32 && q.keyBytes != 64 then s == Unsupported
        else s == Ok && mk[..q.keyBytes] == q.Candidate(slot, material)
  {
    hide CryptRun, Merge, Platform.Schedule;
    failed := false;
    if q.keyBytes == 0 {
      return Io, false;
    }
    var sectors := q.SlotSectors(slot);
    var len := slot.stripes * q.keyBytes;
    match q.read(slot.keyMaterialOffset * SECTOR, len)
    case None => return Io, false;
    case Some(data) =>
      if |data| != len {
        return Io, false;
      }
      if q.keyBytes != 32 && q.keyBytes != 64 {
        return Unsupported, false;
      }
      var material := new byte[len](i => 0);
      CopyInto(material, 0, data);
      assert material[..] == data;
      var r := CryptRunInPlace(sectors, false, material, 0);
      MultipleOf16(slot.stripes, q.keyBytes);
      if r != OK {
        return Io, true;
      }
      r := AfMerge(material, q.keyBytes, slot.stripes, q.platform.hash, mk);
      if r != OK {
        return Io, true;
      }
      return Ok, false;
  }

  lemma MultipleOf16(n: nat, k: nat)
    requires k == 32 || k == 64
    ensures n * k % 16 == 0
  {}

  /** `try_slot`: on success the key is in the first keyBytes bytes; on any failure the whole buffer is zero,
      or was never touched. */
  method TrySlotInto(q: Request, hdr: seq<byte>, slot: Slot, mk: array<byte>) returns (s: Status, ghost failed: bool)
    requires q.Valid() && mk.Length == MAX_MASTER_KEY && |hdr| == HEADER_LEN
    modifies mk
    ensures s == if failed && q.Bounded(slot) then Io else q.TrySlot(hdr, slot).0
    ensures s.Ok? ==> mk[..q.keyBytes] == q.TrySlot(hdr, slot).1
    ensures !s.Ok? ==> WipedOrUntouched(old(mk[..]), mk[..])
  {
    hide CryptRun, Merge, Request.DigestMatches, Request.Candidate;
    if slot.stripes == 0 || slot.stripes > MAX_STRIPES {
      return Corrupt, false;
    }
    if slot.iterations == 0 || slot.iterations > MAX_PBKDF2_ITER {
      return Corrupt, false;
    }
    s, failed := RecoverKey(q, slot, mk);
    if s.Ok? {
      s := if q.DigestMatches(hdr, mk[..q.keyBytes]) then Ok else BadPassphrase;
    }
    if !s.Ok? {
      CopyInto(mk, 0, Zeros(MAX_MASTER_KEY));
    }
  }

  lemma OneMoreSlot(q: Request, hdr: seq<byte>, i: nat, last: Status)
    requires q.Valid() && |hdr| == HEADER_LEN && i < NUM_SLOTS && !last.Ok?
    ensures forall f: set<nat> :: q.TryFrom(hdr, i, last, f) ==
              if ReadSlot(hdr, i).active != SLOT_ENABLED then q.TryFrom(hdr, i + 1, last, f)
              else
                var s := q.SlotOutcome(hdr, i, f);
                if s.0.Ok? then s else q.TryFrom(hdr, i + 1, if s.0.BadPassphrase? then last else s.0, f)
    ensures forall f, g: set<nat> :: (i in f <==> i in g) ==> q.SlotOutcome(hdr, i, f) == q.SlotOutcome(hdr, i, g)
  {
    hide Request.TrySlot, Request.DigestMatches, ReadSlot;
  }

  lemma SlotInSet(q: Request, hdr: seq<byte>, i: nat, f: set<nat>)
    requires q.Valid() && |hdr| == HEADER_LEN && i < NUM_SLOTS
    ensures var slot := ReadSlot(hdr, i);
            q.SlotOutcome(hdr, i, f) == if i in f && q.Bounded(slot) then (Io, []) else q.TrySlot(hdr, slot)
  {
    hide Request.TrySlot, Request.DigestMatches, ReadSlot;
  }

  lemma NoMoreSlots(q: Request, hdr: seq<byte>, last: Status, f: set<nat>)
    requires q.Valid() && |hdr| == HEADER_LEN && !last.Ok?
    ensures q.TryFrom(hdr, NUM_SLOTS, last, f) == (last, [])
  {}

  /** `luks_unlock` for version 1: all enabled slots are tried in order. */
  method UnlockInto(q: Request, mk: array<byte>) returns (s: Status, mkLen: nat, ghost failed: set<nat>)
    requires q.Valid() && mk.Length == MAX_MASTER_KEY
    modifies mk
    ensures s == q.Unlock(failed).0
    ensures s.Ok? ==> mkLen == q.keyBytes && mk[..mkLen] == q.Unlock(failed).1
    ensures !s.Ok? ==> WipedOrUntouched(old(mk[..]), mk[..])
  {
    hide Request.TrySlot, Request.DigestMatches, ReadSlot, Request.TryFrom, Request.SlotOutcome;
    failed, mkLen := {}, 0;
    var answer := q.read(0, HEADER_LEN);
    if answer.None? || |answer.value| != HEADER_LEN {
      return Io, 0, {};
    }
    var hdr := answer.value;
    if hdr[..6] != MAGIC {
      return NotLuks, 0, {};
    }
    var last := BadPassphrase;
    var i := 0;
    while i < NUM_SLOTS
      invariant i <= NUM_SLOTS && !last.Ok?
      invariant forall j :: j in failed ==> j < i
      invariant forall later: set<nat> :: (forall j :: j < i ==> (j in later <==> j in failed)) ==>
        q.TryFrom(hdr, 0, BadPassphrase, later) == q.TryFrom(hdr, i, last, later)
      invariant WipedOrUntouched(old(mk[..]), mk[..])
    {
      OneMoreSlot(q, hdr, i, last);
      var slot := ReadSlot(hdr, i);
      if slot.active == SLOT_ENABLED {
        var outcome;
        ghost var broke;
        outcome, broke := TrySlotInto(q, hdr, slot, mk);
        if broke {
          failed := failed + {i};
        }
        SlotInSet(q, hdr, i, failed);
        if outcome.Ok? {
          return Ok, q.keyBytes, failed;
        }
        if !outcome.BadPassphrase? {
          last := outcome;
        }
      }
      i := i + 1;
    }
    NoMoreSlots(q, hdr, last, failed);
    return last, 0, failed;
  }
}

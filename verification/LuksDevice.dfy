/**
 The decrypting block layer (Core/crypto/luks.c, `decrypt_run` and the `luks_device_*` calls), stacked on
 the aligned block window. What it implements is a flat array of plaintext bytes.
 */
module LuksDevice {
  import opened Bytes
  import opened Errno
  import opened Arith
  import opened AesXts
  import opened BlockDevice

  /** The k low bytes of n, least significant first. */
  function LeBytes(n: nat, k: nat): (r: seq<byte>)
    ensures |r| == k
  {
    if k == 0 then [] else [(n % 0x100) as byte] + LeBytes(n / 0x100, k - 1)
  }

  /** `aes_xts_plain64_tweak`: the low 64 bits of the sector number, little-endian, zero-padded. */
  function Plain64(sector: nat): Block {
    LeBytes(sector, 8) + [0, 0, 0, 0, 0, 0, 0, 0]
  }

  function Pow256(k: nat): (p: nat)
    ensures p > 0
  {
    if k == 0 then 1 else 0x100 * Pow256(k - 1)
  }

  lemma {:induction false} LeBytesInjective(a: nat, b: nat, k: nat)
    requires a < Pow256(k) && b < Pow256(k) && LeBytes(a, k) == LeBytes(b, k)
    ensures a == b
  {
    if k > 0 {
      ByteValue(a % 0x100);
      ByteValue(b % 0x100);
      assert LeBytes(a, k)[0] == LeBytes(b, k)[0];
      assert LeBytes(a, k)[1..] == LeBytes(a / 0x100, k - 1) && LeBytes(b, k)[1..] == LeBytes(b / 0x100, k - 1);
      LeBytesInjective(a / 0x100, b / 0x100, k - 1);
    }
  }

  lemma ByteValue(x: nat)
    requires x < 0x100
    ensures x as byte as int == x
  {
    if x < 16 {} else if x < 32 {} else if x < 48 {} else if x < 64 {}
    else if x < 80 {} else if x < 96 {} else if x < 112 {} else if x < 128 {}
    else if x < 144 {} else if x < 160 {} else if x < 176 {} else if x < 192 {}
    else if x < 208 {} else if x < 224 {} else if x < 240 {} else {}
  }

  lemma DivTwice(n: nat, c: nat)
    requires c > 0
    ensures n / 0x100 / c == n / (0x100 * c)
  {
    var q := n / 0x100;
    DivMod(n, 0x100);
    DivMod(q, c);
    var p := q / c;
    assert p * c * 0x100 == p * (0x100 * c);
    DivUnique(n, 0x100 * c, p, q % c * 0x100 + n % 0x100);
  }

  lemma {:induction false} LeBytesAt(n: nat, k: nat, i: nat)
    requires i < k
    ensures LeBytes(n, k)[i] as int == n / Pow256(i) % 0x100
    decreases k
  {
    if i == 0 {
      ByteValue(n % 0x100);
    } else {
      LeBytesAt(n / 0x100, k - 1, i - 1);
      DivTwice(n, Pow256(i - 1));
    }
  }

  /** The tweak byte by byte: the sector number's eight low bytes, the lowest first, and then zeros. */
  lemma Plain64At(n: nat, k: nat)
    requires k < 16
    ensures Plain64(n)[k] as int == if k < 8 then n / Pow256(k) % 0x100 else 0
  {
    hide LeBytes;
    if k < 8 { LeBytesAt(n, 8, k); }
  }

  /** No two 64-bit sector numbers share a tweak. */
  lemma TweaksDistinct(a: nat, b: nat)
    requires a != b && a < 0x1_0000_0000_0000_0000 && b < 0x1_0000_0000_0000_0000
    ensures Plain64(a) != Plain64(b)
  {
    assert Pow256(8) == 0x100 * Pow256(7) == 0x1_0000 * Pow256(6) == 0x100_0000 * Pow256(5)
        == 0x1_0000_0000 * Pow256(4);
    assert Pow256(4) == 0x100 * Pow256(3) == 0x1_0000 * Pow256(2) == 0x100_0000 * Pow256(1) == 0x1_0000_0000;
    if Plain64(a) == Plain64(b) {
      assert Plain64(a)[..8] == LeBytes(a, 8) && Plain64(b)[..8] == LeBytes(b, 8);
      LeBytesInjective(a, b, 8);
    }
  }

  // ---- A run of sectors ----

  /** How a run is keyed and numbered: `scale` 512-byte tweak units to a sector of `size` bytes. */
  datatype Sectors = Sectors(key: XtsKey, size: nat, scale: nat) {
    ghost predicate Valid() {
      size > 0 && size % 16 == 0 && key.data.Bijective()
    }
  }

  /** Each sector by itself, numbered from `first`; a short last sector keeps its number. A last chunk that is
      not whole cipher blocks is left alone here; the code reports it. */
  function CryptRun(q: Sectors, encrypt: bool, s: seq<byte>, first: nat): (r: seq<byte>)
    requires q.size > 0
    ensures |r| == |s|
    decreases |s|
  {
    var n := if |s| < q.size then |s| else q.size;
    if n == 0 || n % 16 != 0 then s
    else Xts(q.key, encrypt, Plain64(first * q.scale), s[..n]) + CryptRun(q, encrypt, s[n..], first + 1)
  }

  lemma {:induction false} CryptRunInverse(q: Sectors, encrypt: bool, s: seq<byte>, first: nat)
    requires q.Valid()
    ensures CryptRun(q, !encrypt, CryptRun(q, encrypt, s, first), first) == s
    decreases |s|
  {
    hide Plain64, Xts;
    var n := if |s| < q.size then |s| else q.size;
    if n != 0 && n % 16 == 0 {
      var head := Xts(q.key, encrypt, Plain64(first * q.scale), s[..n]);
      var tail := CryptRun(q, encrypt, s[n..], first + 1);
      assert (head + tail)[..n] == head && (head + tail)[n..] == tail;
      XtsInverse(q.key, encrypt, Plain64(first * q.scale), s[..n]);
      CryptRunInverse(q, encrypt, s[n..], first + 1);
    }
  }

  /** A run splits at any sector boundary. */
  lemma {:induction false} CryptRunConcat(q: Sectors, encrypt: bool, a: seq<byte>, b: seq<byte>, first: nat, k: nat)
    requires q.Valid() && |a| == k * q.size
    ensures CryptRun(q, encrypt, a + b, first) == CryptRun(q, encrypt, a, first) + CryptRun(q, encrypt, b, first + k)
    decreases k
  {
    hide Plain64, Xts;
    if k == 0 {
      assert a + b == b;
    } else {
      var n := q.size;
      Distribute(k, 1, n);
      MulMonotone(1, k, n);
      assert (a + b)[..n] == a[..n] && (a + b)[n..] == a[n..] + b;
      CryptRunConcat(q, encrypt, a[n..], b, first + 1, k - 1);
    }
  }

  /** A buffer processed up to `at`, and what the rest will become. */
  function Running(q: Sectors, encrypt: bool, buf: seq<byte>, at: nat, sector: nat): seq<byte>
    requires q.size > 0 && at <= |buf|
  {
    buf[..at] + CryptRun(q, encrypt, buf[at..], sector)
  }

  lemma RunStarts(q: Sectors, encrypt: bool, s: seq<byte>, n: nat, sector: nat)
    requires q.size > 0 && 0 < n <= |s| && n % 16 == 0
    requires n == if |s| < q.size then |s| else q.size
    ensures CryptRun(q, encrypt, s, sector) ==
            Xts(q.key, encrypt, Plain64(sector * q.scale), s[..n]) + CryptRun(q, encrypt, s[n..], sector + 1)
  {
    hide Plain64, Xts;
  }

  lemma RunningStep(q: Sectors, encrypt: bool, buf: seq<byte>, at: nat, n: nat, sector: nat)
    requires q.size > 0 && at + n <= |buf| && n % 16 == 0
    requires 0 < n == if |buf| - at < q.size then |buf| - at else q.size
    ensures Running(q, encrypt, Splice(buf, at, Xts(q.key, encrypt, Plain64(sector * q.scale), buf[at..at + n])),
                    at + n, sector + 1)
            == Running(q, encrypt, buf, at, sector)
  {
    hide Plain64, Xts, CryptRun;
    RunStarts(q, encrypt, buf[at..], n, sector);
    var x := Xts(q.key, encrypt, Plain64(sector * q.scale), buf[at..at + n]);
    var next := Splice(buf, at, x);
    assert buf[at..][..n] == buf[at..at + n] && buf[at..][n..] == buf[at + n..];
    assert next[..at + n] == buf[..at] + x && next[at + n..] == buf[at + n..];
  }

  /** `decrypt_run`, and the same loop in the other direction in `luks_device_write`: the run is processed in
      place, sector by sector. A last chunk that is not whole cipher blocks is EINVAL. */
  method CryptRunInPlace(q: Sectors, encrypt: bool, buf: array<byte>, first: nat) returns (r: int)
    requires q.size > 0 && q.size % 16 == 0
    modifies buf
    ensures r == OK || r == EINVAL || r == EIO
    ensures r == OK ==> buf[..] == CryptRun(q, encrypt, old(buf[..]), first)
    ensures buf.Length % 16 == 0 ==> r != EINVAL
    ensures buf.Length % 16 != 0 ==> r != OK
  {
    hide Plain64, Xts, CryptRun, Running, Splice, SameOutside;
    var at, i := 0, 0;
    StartOfRun(q, encrypt, buf[..], first);
    while at < buf.Length
      invariant at <= buf.Length && at % 16 == 0
      invariant Running(q, encrypt, buf[..], at, first + i) == CryptRun(q, encrypt, old(buf[..]), first)
    {
      var chunk := if buf.Length - at < q.size then buf.Length - at else q.size;
      ghost var was := buf[..];
      r := AesXtsCryptSector(q.key, encrypt, Plain64((first + i) * q.scale), buf, at, chunk);
      if r != OK {
        return;
      }
      RunningStep(q, encrypt, was, at, chunk, first + i);
      at, i := at + chunk, i + 1;
    }
    StartOfRun(q, encrypt, buf[..], first);
    return OK;
  }

  lemma StartOfRun(q: Sectors, encrypt: bool, buf: seq<byte>, first: nat)
    requires q.size > 0
    ensures Running(q, encrypt, buf, 0, first) == CryptRun(q, encrypt, buf, first)
    ensures forall i: nat :: Running(q, encrypt, buf, |buf|, i) == buf
  {
    assert buf[0..] == buf;
  }

  // ---- The device ----

  /** The whole sectors that cover a request. */
  datatype Span = Span(first: nat, start: nat, length: nat, shift: nat)

  function SectorSpan(ss: nat, offset: nat, count: nat): Span
    requires ss > 0 && count > 0
  {
    var first := offset / ss;
    var last := (offset + count - 1) / ss;
    SpanCovers(ss, offset, count);
    Span(first, first * ss, (last - first + 1) * ss, offset - first * ss)
  }

  lemma SpanCovers(ss: nat, offset: nat, count: nat)
    requires ss > 0 && count > 0
    ensures var first, last := offset / ss, (offset + count - 1) / ss;
            first <= last && first * ss <= offset && offset + count <= first * ss + (last - first + 1) * ss
  {
    var first, last := offset / ss, (offset + count - 1) / ss;
    DivMod(offset, ss);
    DivMod(offset + count - 1, ss);
    Distribute(last, 1, ss);
    MulCancel(first, last + 1, ss);
    Distribute(first, last - first + 1, ss);
  }

  /** A payload of whole sectors that holds the request holds the span. */
  lemma SpanInside(ss: nat, offset: nat, count: nat, sectors: nat)
    requires ss > 0 && count > 0 && offset + count <= sectors * ss
    ensures var w := SectorSpan(ss, offset, count); w.start + w.length <= sectors * ss
  {
    var first, last := offset / ss, (offset + count - 1) / ss;
    SpanCovers(ss, offset, count);
    DivMod(offset + count - 1, ss);
    MulCancel(last, sectors, ss);
    MulMonotone(last + 1, sectors, ss);
    Distribute(first, last - first + 1, ss);
  }

  /** An opened container: where the payload starts, how it is keyed, and the medium's block size. */
  datatype Container = Container(sectors: Sectors, payloadOffset: nat, blockSize: nat) {

    ghost predicate Valid() {
      sectors.Valid() && sectors.size % 512 == 0 && sectors.scale == sectors.size / 512 && blockSize >= 512
    }

    function PayloadSectors(containerSize: nat): nat
      requires sectors.size > 0
    {
      if containerSize <= payloadOffset then 0 else (containerSize - payloadOffset) / sectors.size
    }

    /** `luks_payload_size`: what is left after the header, cut to whole sectors. */
    function PayloadSize(containerSize: nat): (n: nat)
      requires sectors.size > 0
      ensures n == PayloadSectors(containerSize) * sectors.size
      ensures n > 0 ==> payloadOffset + n <= containerSize
    {
      if containerSize <= payloadOffset then 0
      else
        var avail := containerSize - payloadOffset;
        DivMod(avail, sectors.size);
        avail - avail % sectors.size
    }

    /** The ciphertext of the payload; empty when the container ends before it starts. */
    function Payload(m: seq<byte>): (r: seq<byte>)
      requires sectors.size > 0
      ensures |r| == PayloadSize(|m|)
    {
      var n := PayloadSize(|m|);
      if n == 0 then [] else m[payloadOffset..payloadOffset + n]
    }

    /** What the medium means: every sector of the payload decrypted under its own number. */
    function Plain(m: seq<byte>): (r: seq<byte>)
      requires sectors.size > 0
      ensures |r| == PayloadSize(|m|)
    {
      CryptRun(sectors, false, Payload(m), 0)
    }

    // `luks_device_read` and `luks_device_write`, as functions of the medium.

    predicate Fits(m: seq<byte>, offset: nat, count: nat)
      requires sectors.size > 0 && blockSize > 0 && count > 0
    {
      var w := SectorSpan(sectors.size, offset, count);
      BlockDevice.Fits(m, blockSize, payloadOffset + w.start, w.length)
    }

    /** Widen to sectors, read through the block window, decrypt. */
    function DecryptedSpan(m: seq<byte>, offset: nat, count: nat): seq<byte>
      requires sectors.size > 0 && blockSize > 0 && count > 0 && Fits(m, offset, count)
    {
      var w := SectorSpan(sectors.size, offset, count);
      CryptRun(sectors, false, BridgeRead(m, blockSize, payloadOffset + w.start, w.length), w.first)
    }

    function DeviceRead(m: seq<byte>, offset: nat, count: nat): seq<byte>
      requires sectors.size > 0 && blockSize > 0 && count > 0 && Fits(m, offset, count)
    {
      var w := SectorSpan(sectors.size, offset, count);
      SpanCovers(sectors.size, offset, count);
      SpanReadable(m, offset, count);
      DecryptedSpan(m, offset, count)[w.shift..w.shift + count]
    }

    lemma SpanReadable(m: seq<byte>, offset: nat, count: nat)
      requires sectors.size > 0 && blockSize > 0 && count > 0 && Fits(m, offset, count)
      ensures var w := SectorSpan(sectors.size, offset, count);
              && w.shift + count <= w.length
              && payloadOffset + w.start + w.length <= |m|
              && BridgeRead(m, blockSize, payloadOffset + w.start, w.length)
                 == m[payloadOffset + w.start..payloadOffset + w.start + w.length]
    {
      var w := SectorSpan(sectors.size, offset, count);
      SpanCovers(sectors.size, offset, count);
      BridgeIsFlat(m, blockSize, payloadOffset + w.start, seq(w.length, i => 0));
    }

    /** A request that leaves part of a touched sector alone. */
    predicate Partial(offset: nat, count: nat)
      requires sectors.size > 0 && count > 0
    {
      var w := SectorSpan(sectors.size, offset, count);
      w.shift != 0 || w.length != count
    }

    /** The plaintext the touched sectors will hold; a request of whole sectors needs no read. */
    function PatchedSpan(m: seq<byte>, offset: nat, d: seq<byte>): (r: seq<byte>)
      requires sectors.size > 0 && blockSize > 0 && |d| > 0
      requires Partial(offset, |d|) ==> Fits(m, offset, |d|)
      ensures |r| == SectorSpan(sectors.size, offset, |d|).length
    {
      if !Partial(offset, |d|) then d
      else
        SpanReadable(m, offset, |d|);
        Splice(DecryptedSpan(m, offset, |d|), SectorSpan(sectors.size, offset, |d|).shift, d)
    }

    /** Decrypt what the request does not replace, patch, encrypt, write back through the block window. */
    function DeviceWrite(m: seq<byte>, offset: nat, d: seq<byte>): seq<byte>
      requires sectors.size > 0 && blockSize > 0 && |d| > 0 && Fits(m, offset, |d|)
    {
      var w := SectorSpan(sectors.size, offset, |d|);
      SpanReadable(m, offset, |d|);
      BridgeWrite(m, blockSize, payloadOffset + w.start, CryptRun(sectors, true, PatchedSpan(m, offset, d), w.first))
    }

    // ---- The device is a flat array ----

    /** Every widened window of a request inside the payload stays inside the container. */
    lemma SpanFits(m: seq<byte>, offset: nat, count: nat)
      requires Valid() && |m| % blockSize == 0
      requires count > 0 && offset + count <= PayloadSize(|m|)
      ensures var w := SectorSpan(sectors.size, offset, count);
              w.start + w.length <= PayloadSize(|m|) && Fits(m, offset, count)
    {
      var w := SectorSpan(sectors.size, offset, count);
      SpanInside(sectors.size, offset, count, PayloadSectors(|m|));
      DivMod(|m|, blockSize);
      WindowInside(blockSize, payloadOffset + w.start, w.length, |m| / blockSize);
    }

    /** Decrypting the payload whole, or cut in three at sector boundaries, is the same. */
    lemma CutInThree(a: seq<byte>, c: seq<byte>, b: seq<byte>, first: nat, k: nat)
      requires Valid() && |a| == first * sectors.size && |c| == k * sectors.size
      ensures CryptRun(sectors, false, a + c + b, 0) ==
              CryptRun(sectors, false, a, 0) + CryptRun(sectors, false, c, first)
              + CryptRun(sectors, false, b, first + k)
    {
      hide CryptRun;
      assert a + c + b == a + (c + b);
      CryptRunConcat(sectors, false, a, c + b, 0, first);
      CryptRunConcat(sectors, false, c, b, first, k);
    }

    lemma RunSlice(p: seq<byte>, start: nat, length: nat, first: nat, k: nat)
      requires Valid() && start == first * sectors.size && length == k * sectors.size && start + length <= |p|
      ensures CryptRun(sectors, false, p, 0)[start..start + length] ==
              CryptRun(sectors, false, p[start..start + length], first)
    {
      hide CryptRun;
      var a, c, b := p[..start], p[start..start + length], p[start + length..];
      assert p == a + c + b;
      CutInThree(a, c, b, first, k);
    }

    /** The format, sector by sector: each is XTS by itself, under its place in the payload counted in 512 bytes. */
    lemma SectorOnDisk(m: seq<byte>, n: nat)
      requires Valid() && n < PayloadSectors(|m|)
      ensures var s := sectors.size;
              && n * s + s <= PayloadSize(|m|) && payloadOffset + n * s + s <= |m| && s % 16 == 0
              && Plain(m)[n * s..n * s + s] ==
                 Xts(sectors.key, false, Plain64(n * (s / 512)), m[payloadOffset + n * s..payloadOffset + n * s + s])
    {
      hide CryptRun, Xts, Plain64, Container.PayloadSectors;
      var s := sectors.size;
      SectorFits(m, n);
      var p := Payload(m);
      RunSlice(p, n * s, s, n, 1);
      hide Container.PayloadSize;
      SliceOfSlice(m, payloadOffset, payloadOffset + |p|, n * s, n * s + s);
      OneSector(p[n * s..n * s + s], n);
    }

    lemma SectorFits(m: seq<byte>, n: nat)
      requires Valid() && n < PayloadSectors(|m|)
      ensures var s := sectors.size;
              n * s + s <= PayloadSize(|m|) && payloadOffset + PayloadSize(|m|) <= |m| && PayloadSize(|m|) > 0
    {
      hide Container.PayloadSectors, Container.PayloadSize;
      MulMonotone(n + 1, PayloadSectors(|m|), sectors.size);
      Distribute(n, 1, sectors.size);
    }

    lemma OneSector(s: seq<byte>, n: nat)
      requires Valid() && |s| == sectors.size
      ensures CryptRun(sectors, false, s, n) == Xts(sectors.key, false, Plain64(n * (sectors.size / 512)), s)
    {
      hide Xts, Plain64;
      assert s[..|s|] == s && CryptRun(sectors, false, [], n + 1) == [];
    }

    lemma SpanSectors(offset: nat, count: nat) returns (k: nat)
      requires sectors.size > 0 && count > 0
      ensures var w := SectorSpan(sectors.size, offset, count);
              w.start == w.first * sectors.size && w.length == k * sectors.size
    {
      SpanCovers(sectors.size, offset, count);
      k := (offset + count - 1) / sectors.size - offset / sectors.size + 1;
    }

    lemma PayloadSlice(m: seq<byte>, start: nat, length: nat)
      requires sectors.size > 0 && length > 0 && start + length <= PayloadSize(|m|)
      ensures payloadOffset + start + length <= |m|
      ensures Payload(m)[start..start + length] == m[payloadOffset + start..payloadOffset + start + length]
    {
      hide PayloadSize, PayloadSectors;
      SliceOfSlice(m, payloadOffset, payloadOffset + PayloadSize(|m|), start, start + length);
      assert payloadOffset + (start + length) == payloadOffset + start + length;
    }

    lemma PlainOfSpan(m: seq<byte>, offset: nat, count: nat)
      requires Valid() && |m| % blockSize == 0
      requires count > 0 && offset + count <= PayloadSize(|m|) && Fits(m, offset, count)
      ensures var w := SectorSpan(sectors.size, offset, count);
              w.start + w.length <= |Plain(m)| &&
              DecryptedSpan(m, offset, count) == Plain(m)[w.start..w.start + w.length]
    {
      hide CryptRun, BridgeRead, SectorSpan, Payload, PayloadSize, PayloadSectors, AlignedWindow;
      var w := SectorSpan(sectors.size, offset, count);
      SpanFits(m, offset, count);
      SpanReadable(m, offset, count);
      var k := SpanSectors(offset, count);
      RunSlice(Payload(m), w.start, w.length, w.first, k);
      SpanCovers(sectors.size, offset, count);
      PayloadSlice(m, w.start, w.length);
    }

    /** A read returns the plaintext bytes it names. */
    lemma ReadIsFlat(m: seq<byte>, offset: nat, count: nat)
      requires Valid() && |m| % blockSize == 0
      requires count > 0 && offset + count <= PayloadSize(|m|)
      ensures Fits(m, offset, count)
      ensures DeviceRead(m, offset, count) == Plain(m)[offset..offset + count]
    {
      hide CryptRun, BridgeRead, Payload;
      SpanFits(m, offset, count);
      PlainOfSpan(m, offset, count);
      SpanCovers(sectors.size, offset, count);
    }

    lemma SpanShift(offset: nat, count: nat)
      requires sectors.size > 0 && count > 0
      ensures var w := SectorSpan(sectors.size, offset, count);
              w.start + w.shift == offset && w.shift + count <= w.length
    {
      SpanCovers(sectors.size, offset, count);
    }

    lemma PatchedSpanLands(m: seq<byte>, offset: nat, d: seq<byte>)
      requires Valid() && |m| % blockSize == 0
      requires |d| > 0 && offset + |d| <= PayloadSize(|m|) && Fits(m, offset, |d|)
      ensures var w := SectorSpan(sectors.size, offset, |d|);
              w.start + w.length <= |Plain(m)| &&
              Splice(Plain(m), w.start, PatchedSpan(m, offset, d)) == Splice(Plain(m), offset, d)
    {
      hide Plain, DecryptedSpan, SectorSpan, Fits, PayloadSize;
      PlainOfSpan(m, offset, |d|);
      var w := SectorSpan(sectors.size, offset, |d|);
      SpanShift(offset, |d|);
      if Partial(offset, |d|) {
        PatchedWindow(Plain(m), w.start, w.length, w.shift, d);
      }
    }

    /** A write replaces exactly the plaintext bytes it names, and no byte of the container outside the
        sectors it touches: not the header, not a neighbouring sector, not the tail. */
    lemma WriteIsFlat(m: seq<byte>, offset: nat, d: seq<byte>)
      requires Valid() && |m| % blockSize == 0
      requires |d| > 0 && offset + |d| <= PayloadSize(|m|)
      ensures Fits(m, offset, |d|) && |DeviceWrite(m, offset, d)| == |m|
      ensures Plain(DeviceWrite(m, offset, d)) == Splice(Plain(m), offset, d)
      ensures var w := SectorSpan(sectors.size, offset, |d|);
              SameOutside(m, DeviceWrite(m, offset, d), payloadOffset + w.start, payloadOffset + w.start + w.length)
    {
      hide CryptRun, BridgeRead, BridgeWrite, SectorSpan, Payload, PayloadSize, PayloadSectors, AlignedWindow,
           PatchedSpan, Plain;
      SpanFits(m, offset, |d|);
      SpanReadable(m, offset, |d|);
      PlainOfSpan(m, offset, |d|);
      var w := SectorSpan(sectors.size, offset, |d|);
      SpanCovers(sectors.size, offset, |d|);
      var k := SpanSectors(offset, |d|);
      var patched := PatchedSpan(m, offset, d);
      var c := CryptRun(sectors, true, patched, w.first);
      BridgeIsFlat(m, blockSize, payloadOffset + w.start, c);
      assert DeviceWrite(m, offset, d) == Splice(m, payloadOffset + w.start, c);
      SpliceSameOutside(m, payloadOffset + w.start, c);
      PlainOfSplice(m, w.start, w.first, k, patched);
      PatchedSpanLands(m, offset, d);
    }

    /** Writing whole sectors, encrypted under their own numbers, replaces their plaintext and no other. */
    lemma PlainOfSplice(m: seq<byte>, start: nat, first: nat, k: nat, s: seq<byte>)
      requires Valid() && k > 0 && start == first * sectors.size && |s| == k * sectors.size
      requires |s| > 0 && start + |s| <= PayloadSize(|m|)
      ensures payloadOffset + start + |s| <= |m|
      ensures Plain(Splice(m, payloadOffset + start, CryptRun(sectors, true, s, first))) == Splice(Plain(m), start, s)
    {
      hide CryptRun, PayloadSize, PayloadSectors;
      var c := CryptRun(sectors, true, s, first);
      var after := Splice(m, payloadOffset + start, c);
      var p := Payload(m);
      var a, b := p[..start], p[start + |s|..];
      assert Payload(after) == a + c + b;
      assert p == a + p[start..start + |s|] + b;
      CutInThree(a, c, b, first, k);
      CutInThree(a, p[start..start + |s|], b, first, k);
      CryptRunInverse(sectors, true, s, first);
    }

    // ---- Whole runs ----

    /** One call of the device: the medium afterwards, and the bytes returned. An empty request does nothing,
        and one the container cannot hold fails and changes nothing. */
    function DeviceStep(m: seq<byte>, op: Op): (seq<byte>, seq<byte>)
      requires sectors.size > 0 && blockSize > 0
    {
      if op.Count() == 0 || !Fits(m, op.offset, op.Count()) then (m, [])
      else match op
        case Read(offset, count) => (m, DeviceRead(m, offset, count))
        case Write(offset, d) => (DeviceWrite(m, offset, d), [])
    }

    lemma StepIsFlat(m: seq<byte>, op: Op)
      requires Valid() && |m| % blockSize == 0 && InRange(op, PayloadSize(|m|))
      ensures var (after, reply) := DeviceStep(m, op);
              && |after| == |m|
              && (Plain(after), reply) == FlatStep(Plain(m), op)
              && (PayloadSize(|m|) > 0 ==> SameOutside(m, after, payloadOffset, payloadOffset + PayloadSize(|m|)))
              && (PayloadSize(|m|) == 0 ==> after == m)
    {
      hide Plain, PayloadSize, Fits, DeviceRead, DeviceWrite, SectorSpan;
      if op.Count() == 0 {
        match op
        case Read(offset, count) => assert Plain(m)[offset..offset + count] == [];
        case Write(offset, d) => assert Splice(Plain(m), offset, d) == Plain(m);
      } else if op.Read? {
        ReadIsFlat(m, op.offset, op.count);
      } else {
        WriteIsFlat(m, op.offset, op.data);
        SpanFits(m, op.offset, |op.data|);
        var w := SectorSpan(sectors.size, op.offset, |op.data|);
        WidenSameOutside(m, DeviceWrite(m, op.offset, op.data), payloadOffset + w.start,
                         payloadOffset + w.start + w.length, payloadOffset, payloadOffset + PayloadSize(|m|));
      }
    }

    /** The whole run: what is on the medium at the end, and everything the reads returned. */
    function RunDevice(m: seq<byte>, ops: seq<Op>): (seq<byte>, seq<seq<byte>>)
      requires sectors.size > 0 && blockSize > 0
      decreases |ops|
    {
      if ops == [] then (m, [])
      else
        var step := DeviceStep(m, ops[0]);
        var rest := RunDevice(step.0, ops[1..]);
        (rest.0, [step.1] + rest.1)
    }

    /** The device is a flat array: over any run of requests inside the payload, every read returns the latest
        bytes written, and the header and the tail of the container never change. */
    lemma {:induction false} DeviceIsFlatArray(m: seq<byte>, ops: seq<Op>)
      requires Valid() && |m| % blockSize == 0
      requires forall op :: op in ops ==> InRange(op, PayloadSize(|m|))
      ensures var (end, replies) := RunDevice(m, ops);
              && |end| == |m|
              && (Plain(end), replies) == RunFlat(Plain(m), ops)
              && (PayloadSize(|m|) > 0 ==> SameOutside(m, end, payloadOffset, payloadOffset + PayloadSize(|m|)))
              && (PayloadSize(|m|) == 0 ==> end == m)
      decreases |ops|
    {
      hide Plain, PayloadSize, Fits, DeviceStep;
      if ops != [] {
        StepIsFlat(m, ops[0]);
        DeviceIsFlatArray(DeviceStep(m, ops[0]).0, ops[1..]);
      }
    }
  }

  datatype Op = Read(offset: nat, count: nat) | Write(offset: nat, data: seq<byte>) {
    function Count(): nat {
      if Read? then count else |data|
    }
  }

  predicate InRange(op: Op, n: nat) {
    op.offset + op.Count() <= n
  }

  /** The same requests against a plain array of bytes. */
  function FlatStep(p: seq<byte>, op: Op): (seq<byte>, seq<byte>)
    requires InRange(op, |p|)
  {
    match op
    case Read(offset, count) => (p, p[offset..offset + count])
    case Write(offset, d) => (Splice(p, offset, d), [])
  }

  function RunFlat(p: seq<byte>, ops: seq<Op>): (seq<byte>, seq<seq<byte>>)
    requires forall op :: op in ops ==> InRange(op, |p|)
    decreases |ops|
  {
    if ops == [] then (p, [])
    else
      var step := FlatStep(p, ops[0]);
      var rest := RunFlat(step.0, ops[1..]);
      (rest.0, [step.1] + rest.1)
  }

  lemma WidenSameOutside<T>(a: seq<T>, b: seq<T>, from: nat, end: nat, lo: nat, hi: nat)
    requires SameOutside(a, b, from, end) && lo <= from && end <= hi <= |a|
    ensures SameOutside(a, b, lo, hi)
  {
    assert a[..lo] == a[..from][..lo] && b[..lo] == b[..from][..lo];
    assert a[hi..] == a[end..][hi - end..] && b[hi..] == b[end..][hi - end..];
  }

  // ---- The code ----

  class Device {
    const bridge: BlockDeviceBridge
    const c: Container

    ghost predicate Valid()
      reads this, bridge
    {
      bridge.Valid() && c.Valid() && c.blockSize == bridge.blockSize && |bridge.medium| % bridge.blockSize == 0
    }

    /** `luks_device_open`: the tweak unit is 512 bytes, whatever the sector size. */
    constructor (bridge: BlockDeviceBridge, key: XtsKey, payloadOffset: nat, sectorSize: nat)
      requires bridge.Valid() && |bridge.medium| % bridge.blockSize == 0 && key.data.Bijective()
      requires sectorSize > 0 && sectorSize % 512 == 0
      ensures Valid() && this.bridge == bridge
      ensures c.sectors.key == key && c.sectors.size == sectorSize && c.payloadOffset == payloadOffset
    {
      this.bridge := bridge;
      c := Container(Sectors(key, sectorSize, sectorSize / 512), payloadOffset, bridge.blockSize);
    }

    lemma SpanIsWholeBlocks(offset: nat, count: nat)
      requires c.Valid() && count > 0
      ensures SectorSpan(c.sectors.size, offset, count).length % 16 == 0
    {
      var k := c.SpanSectors(offset, count);
      var j := c.sectors.size / 16;
      DivMod(c.sectors.size, 16);
      assert k * (j * 16) == (k * j) * 16;
    }

    lemma SpanFits(offset: nat, count: nat)
      requires Valid() && count > 0
      ensures var w := SectorSpan(c.sectors.size, offset, count);
              c.payloadOffset + w.start + w.length <= |bridge.medium| ==> c.Fits(bridge.medium, offset, count)
    {
      var w := SectorSpan(c.sectors.size, offset, count);
      DivMod(|bridge.medium|, bridge.blockSize);
      if c.payloadOffset + w.start + w.length <= |bridge.medium| {
        WindowInside(bridge.blockSize, c.payloadOffset + w.start, w.length, |bridge.medium| / bridge.blockSize);
      }
    }

    /** Fetch and decrypt the sectors a request touches. */
    method FetchSpan(window: array<byte>, offset: nat, ghost count: nat, first: nat, start: nat) returns (r: int)
      requires Valid() && count > 0
      requires var w := SectorSpan(c.sectors.size, offset, count);
               first == w.first && start == w.start && window.Length == w.length
      modifies window
      ensures r == OK || r == EIO
      ensures r == OK ==> (c.Fits(bridge.medium, offset, count) &&
                window[..] == c.DecryptedSpan(bridge.medium, offset, count))
    {
      hide SectorSpan, CryptRun, BlockDevice.Fits;
      r := bridge.Read(window, c.payloadOffset + start);
      if r == OK {
        SpanFits(offset, count);
        c.SpanReadable(bridge.medium, offset, count);
        SpanIsWholeBlocks(offset, count);
        r := CryptRunInPlace(c.sectors, false, window, first);
      }
    }

    /** `luks_device_read`. */
    method Read(buf: array<byte>, offset: nat) returns (r: int)
      requires Valid()
      modifies buf
      ensures r == OK || r == EIO
      ensures r == OK && buf.Length > 0 ==> (c.Fits(bridge.medium, offset, buf.Length) &&
                buf[..] == c.DeviceRead(bridge.medium, offset, buf.Length))
      ensures r == OK && InRange(Op.Read(offset, buf.Length), |c.Plain(bridge.medium)|) ==>
                buf[..] == c.Plain(bridge.medium)[offset..offset + buf.Length]
      ensures r != OK ==> buf[..] == old(buf[..])
    {
      hide Container.Plain, Container.Fits, Container.DecryptedSpan;
      var count := buf.Length;
      if count == 0 {
        return OK;
      }
      var w := SectorSpan(c.sectors.size, offset, count);
      SpanCovers(c.sectors.size, offset, count);
      var window := new byte[w.length](i => 0);
      r := FetchSpan(window, offset, count, w.first, w.start);
      if r == OK {
        CopyInto(buf, 0, window[..][w.shift..w.shift + count]);
        if InRange(Op.Read(offset, count), |c.Plain(bridge.medium)|) {
          c.ReadIsFlat(bridge.medium, offset, count);
        }
      }
    }

    /** The window as it will be written, before encryption. */
    method FillSpan(window: array<byte>, d: seq<byte>, offset: nat, w: Span) returns (r: int)
      requires Valid() && |d| > 0 && w == SectorSpan(c.sectors.size, offset, |d|) && window.Length == w.length
      modifies window
      ensures r == OK || r == EIO
      ensures r == OK && c.Partial(offset, |d|) ==> c.Fits(bridge.medium, offset, |d|)
      ensures r == OK ==> window[..] == c.PatchedSpan(bridge.medium, offset, d)
    {
      hide Container.Fits, Container.DecryptedSpan, SectorSpan;
      c.SpanShift(offset, |d|);
      r := OK;
      if w.shift != 0 || |d| != w.length {
        r := FetchSpan(window, offset, |d|, w.first, w.start);
        if r != OK {
          return;
        }
      }
      CopyInto(window, w.shift, d);
    }

    /** `luks_device_write`. Until the final write lands nothing on the medium has changed; and even when that
        write falls short, nothing outside the touched sectors has. */
    method Write(d: seq<byte>, offset: nat) returns (r: int)
      requires Valid()
      modifies bridge
      ensures Valid()
      ensures r == OK || r == EIO || r == EROFS
      ensures !bridge.isWritable ==> r == EROFS
      ensures r == OK && |d| > 0 ==> (c.Fits(old(bridge.medium), offset, |d|) &&
                bridge.medium == c.DeviceWrite(old(bridge.medium), offset, d))
      ensures r == OK && InRange(Op.Write(offset, d), |c.Plain(old(bridge.medium))|) ==>
                c.Plain(bridge.medium) == Splice(c.Plain(old(bridge.medium)), offset, d)
      ensures |d| == 0 ==> bridge.medium == old(bridge.medium)
      ensures |d| > 0 ==> var w := SectorSpan(c.sectors.size, offset, |d|);
                OnlyChanged(old(bridge.medium), bridge.medium,
                            c.payloadOffset + w.start, c.payloadOffset + w.start + w.length)
    {
      hide Container.Fits, Container.Plain, Container.PatchedSpan, Container.DeviceWrite, CryptRun, SectorSpan,
           AlignedWindow;
      if !bridge.isWritable {
        return EROFS;
      }
      if |d| == 0 {
        ghost var p := c.Plain(bridge.medium);
        assert offset <= |p| ==> Splice(p, offset, d) == p;
        return OK;
      }
      var w := SectorSpan(c.sectors.size, offset, |d|);
      var window := new byte[w.length](i => 0);
      r := FillSpan(window, d, offset, w);
      if r == OK {
        r := EncryptAndWrite(window, w, d, offset);
        if InRange(Op.Write(offset, d), |c.Plain(old(bridge.medium))|) {
          c.WriteIsFlat(old(bridge.medium), offset, d);
        }
      }
    }

    method EncryptAndWrite(window: array<byte>, w: Span, ghost d: seq<byte>, ghost offset: nat) returns (r: int)
      requires Valid() && |d| > 0 && w == SectorSpan(c.sectors.size, offset, |d|) && window.Length == w.length
      requires c.Partial(offset, |d|) ==> c.Fits(bridge.medium, offset, |d|)
      requires window[..] == c.PatchedSpan(bridge.medium, offset, d)
      modifies window, bridge
      ensures Valid() && (r == OK || r == EIO || r == EROFS)
      ensures r == EROFS ==> !bridge.isWritable
      ensures r == OK ==> (c.Fits(old(bridge.medium), offset, |d|) &&
                bridge.medium == c.DeviceWrite(old(bridge.medium), offset, d))
      ensures OnlyChanged(old(bridge.medium), bridge.medium,
                          c.payloadOffset + w.start, c.payloadOffset + w.start + w.length)
    {
      hide Container.Fits, Container.PatchedSpan, CryptRun, SectorSpan, AlignedWindow, BridgeWrite;
      ghost var was := bridge.medium;
      SpanIsWholeBlocks(offset, |d|);
      SpanFits(offset, |d|);
      r := CryptRunInPlace(c.sectors, true, window, w.first);
      if r != OK {
        return;
      }
      var x := window[..];
      r := bridge.Write(x, c.payloadOffset + w.start);
      if r == OK {
        SpliceIsDeviceWrite(was, offset, d, x, w);
      }
    }

    lemma SpliceIsDeviceWrite(m: seq<byte>, offset: nat, d: seq<byte>, x: seq<byte>, w: Span)
      requires c.Valid() && |d| > 0 && w == SectorSpan(c.sectors.size, offset, |d|) && c.Fits(m, offset, |d|)
      requires x == CryptRun(c.sectors, true, c.PatchedSpan(m, offset, d), w.first)
      ensures c.payloadOffset + w.start + |x| <= |m|
      ensures c.DeviceWrite(m, offset, d) == Splice(m, c.payloadOffset + w.start, x)
    {
      hide CryptRun, Container.PatchedSpan, AlignedWindow;
      BridgeIsFlat(m, c.blockSize, c.payloadOffset + w.start, x);
    }
  }

  /** Nothing outside [from, end) has changed. */
  ghost predicate OnlyChanged(before: seq<byte>, after: seq<byte>, from: nat, end: nat) {
    |after| == |before| && forall i :: 0 <= i < |after| && !(from <= i < end) ==> after[i] == before[i]
  }
}

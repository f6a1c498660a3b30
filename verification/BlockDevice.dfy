/** The block-addressed medium and the byte-addressed window over it (Extension/BlockDeviceBridge.swift). */
module BlockDevice {
  import opened Bytes
  import opened Errno
  import opened Arith

  /** The smallest run of whole blocks that covers [offset, offset + count). */
  datatype Window = Window(start: nat, length: nat, shift: nat)

  function AlignedWindow(blockSize: nat, offset: nat, count: nat): Window
    requires blockSize > 0
  {
    var start := offset / blockSize * blockSize;
    var alignedEnd := (offset + count + blockSize - 1) / blockSize * blockSize;
    StartBelowEnd(blockSize, offset, count);
    Window(start, alignedEnd - start, offset - start)
  }

  lemma StartBelowEnd(bs: nat, offset: nat, count: nat)
    requires bs > 0
    ensures offset / bs * bs <= offset
    ensures offset / bs * bs <= (offset + count + bs - 1) / bs * bs
    ensures offset + count <= (offset + count + bs - 1) / bs * bs < offset + count + bs
  {
    DivMod(offset, bs);
    DivMod(offset + count + bs - 1, bs);
  }

  /** The window is made of whole blocks and covers the request. */
  lemma WindowCovers(blockSize: nat, offset: nat, count: nat)
    requires blockSize > 0
    ensures var w := AlignedWindow(blockSize, offset, count);
            && w.start % blockSize == 0 && w.length % blockSize == 0
            && w.start + w.shift == offset && w.shift + count <= w.length
  {
    StartBelowEnd(blockSize, offset, count);
    WholeBlocks(offset / blockSize, (offset + count + blockSize - 1) / blockSize, blockSize);
  }

  /** A medium of whole blocks that holds the request holds the window. */
  lemma WindowInside(blockSize: nat, offset: nat, count: nat, blocks: nat)
    requires blockSize > 0 && offset + count <= blocks * blockSize
    ensures var w := AlignedWindow(blockSize, offset, count); w.start + w.length <= blocks * blockSize
  {
    StartBelowEnd(blockSize, offset, count);
    var b := (offset + count + blockSize - 1) / blockSize;
    Distribute(blocks, 1, blockSize);
    MulCancel(b, blocks + 1, blockSize);
    MulMonotone(b, blocks, blockSize);
  }

  lemma WholeBlocks(a: nat, b: nat, blockSize: nat)
    requires blockSize > 0 && a * blockSize <= b * blockSize
    ensures a * blockSize % blockSize == 0 && (b * blockSize - a * blockSize) % blockSize == 0
  {
    if b < a { MulMonotone(b + 1, a, blockSize); Distribute(b, 1, blockSize); }
    MultipleMod(a, blockSize);
    MultipleMod(b - a, blockSize);
    Distribute(b, a, blockSize);
  }

  // ---- Reading and writing bytes through whole blocks ----

  predicate Fits(m: seq<byte>, blockSize: nat, offset: nat, count: nat)
    requires blockSize > 0
  {
    var w := AlignedWindow(blockSize, offset, count);
    w.start + w.length <= |m|
  }

  /** Cut the caller's slice out of the window. */
  function BridgeRead(m: seq<byte>, blockSize: nat, offset: nat, count: nat): seq<byte>
    requires blockSize > 0 && Fits(m, blockSize, offset, count)
  {
    var w := AlignedWindow(blockSize, offset, count);
    StartBelowEnd(blockSize, offset, count);
    m[w.start..w.start + w.length][w.shift..w.shift + count]
  }

  /** Patch the caller's bytes into the window and write all of it back. */
  function BridgeWrite(m: seq<byte>, blockSize: nat, offset: nat, d: seq<byte>): seq<byte>
    requires blockSize > 0 && Fits(m, blockSize, offset, |d|)
  {
    var w := AlignedWindow(blockSize, offset, |d|);
    StartBelowEnd(blockSize, offset, |d|);
    Splice(m, w.start, Splice(m[w.start..w.start + w.length], w.shift, d))
  }

  /** The widening is invisible: byte ranges read and written through windows are the byte ranges. */
  lemma BridgeIsFlat(m: seq<byte>, blockSize: nat, offset: nat, d: seq<byte>)
    requires blockSize > 0 && Fits(m, blockSize, offset, |d|)
    ensures offset + |d| <= |m|
    ensures BridgeRead(m, blockSize, offset, |d|) == m[offset..offset + |d|]
    ensures BridgeWrite(m, blockSize, offset, d) == Splice(m, offset, d)
  {
    StartBelowEnd(blockSize, offset, |d|);
    hide AlignedWindow;
    WindowCovers(blockSize, offset, |d|);
    var w := AlignedWindow(blockSize, offset, |d|);
    SliceOfSlice(m, w.start, w.start + w.length, w.shift, w.shift + |d|);
    PatchedWindow(m, w.start, w.length, w.shift, d);
  }

  lemma PatchedWindow(m: seq<byte>, start: nat, length: nat, shift: nat, d: seq<byte>)
    requires start + length <= |m| && shift + |d| <= length
    ensures Splice(m, start, Splice(m[start..start + length], shift, d)) == Splice(m, start + shift, d)
  {}

  /** Some of the bytes of d, written at `at`, have landed; nothing else has changed. */
  ghost predicate Landed(before: seq<byte>, after: seq<byte>, at: nat, d: seq<byte>) {
    && |after| == |before|
    && forall i :: 0 <= i < |after| ==> after[i] == before[i] || (at <= i < at + |d| && after[i] == d[i - at])
  }

  lemma NothingLands(m: seq<byte>, at: nat, d: seq<byte>)
    ensures Landed(m, m, at, d)
  {}

  lemma PatchedWindowLands(m: seq<byte>, after: seq<byte>, start: nat, length: nat, shift: nat, d: seq<byte>)
    requires start + length <= |m| && shift + |d| <= length
    requires Landed(m, after, start, Splice(m[start..start + length], shift, d))
    ensures Landed(m, after, start + shift, d)
  {
    var p := Splice(m[start..start + length], shift, d);
    forall i | 0 <= i < |after|
      ensures after[i] == m[i] || (start + shift <= i < start + shift + |d| && after[i] == d[i - (start + shift)])
    {
      if start <= i < start + length {
        assert p[i - start] == if shift <= i - start < shift + |d| then d[i - start - shift] else m[i];
      }
    }
  }

  class BlockDeviceBridge {
    const blockSize: nat
    const isWritable: bool
    var medium: seq<byte>

    ghost predicate Valid() {
      blockSize >= 512
    }

    constructor (blockSize: nat, isWritable: bool, medium: seq<byte>)
      requires blockSize >= 512
      ensures Valid() && this.blockSize == blockSize && this.isWritable == isWritable && this.medium == medium
    {
      this.blockSize, this.isWritable, this.medium := blockSize, isWritable, medium;
    }

    /** The resource's own read: whole blocks only. A short count, or any failure, is an error. */
    method ReadRaw(buf: array<byte>, at: nat) returns (ok: bool)
      requires Valid() && at % blockSize == 0 && buf.Length % blockSize == 0
      modifies buf
      ensures ok ==> at + buf.Length <= |medium| && buf[..] == medium[at..at + buf.Length]
    {
      if at + buf.Length > |medium| {
        return false;
      }
      var got :| 0 <= got <= buf.Length;
      if got < buf.Length {
        CopyInto(buf, 0, medium[at..at + got]);
        return false;
      }
      CopyInto(buf, 0, medium[at..at + buf.Length]);
      return true;
    }

    /** The resource's own write: whole blocks only. When it falls short, a prefix has landed. */
    method WriteRaw(d: seq<byte>, at: nat) returns (ok: bool)
      requires Valid() && at % blockSize == 0 && |d| % blockSize == 0
      modifies this
      ensures ok ==> at + |d| <= |old(medium)| && medium == Splice(old(medium), at, d)
      ensures Landed(old(medium), medium, at, d)
    {
      if at + |d| > |medium| {
        return false;
      }
      var put :| 0 <= put <= |d|;
      medium := Splice(medium, at, d[..put]);
      assert put == |d| ==> d[..put] == d;
      return put == |d|;
    }

    /** `read`: any byte range, through the aligned window. */
    method Read(buf: array<byte>, offset: nat) returns (r: int)
      requires Valid()
      modifies buf
      ensures r == OK || r == EIO
      ensures r == OK ==> offset + buf.Length <= |medium| && buf[..] == medium[offset..offset + buf.Length]
    {
      hide AlignedWindow;
      var count := buf.Length;
      var w := AlignedWindow(blockSize, offset, count);
      WindowCovers(blockSize, offset, count);
      var ok: bool;
      if w.shift == 0 && w.length == count {
        ok := ReadRaw(buf, offset);
      } else {
        var scratch := new byte[w.length](i => 0);
        ok := ReadRaw(scratch, w.start);
        if ok {
          SliceOfSlice(medium, w.start, w.start + w.length, w.shift, w.shift + count);
          CopyInto(buf, 0, scratch[..][w.shift..w.shift + count]);
        }
      }
      return if ok then OK else EIO;
    }

    /** `write`: any byte range, by read-modify-write of the aligned window. A write that fails
        part-way has changed no byte outside the range. */
    method Write(d: seq<byte>, offset: nat) returns (r: int)
      requires Valid()
      modifies this
      ensures r == OK || r == EIO || r == EROFS
      ensures r == EROFS <==> !isWritable
      ensures r == OK ==> offset + |d| <= |old(medium)| && medium == Splice(old(medium), offset, d)
      ensures Landed(old(medium), medium, offset, d)
    {
      if !isWritable {
        return EROFS;
      }
      hide AlignedWindow;
      var count := |d|;
      var w := AlignedWindow(blockSize, offset, count);
      WindowCovers(blockSize, offset, count);
      var ok: bool;
      if w.shift == 0 && w.length == count {
        ok := WriteRaw(d, offset);
      } else {
        ok := PatchWindow(d, w);
      }
      return if ok then OK else EIO;
    }

    /** A write that is not aligned goes through a buffer for the window. */
    method PatchWindow(d: seq<byte>, w: Window) returns (ok: bool)
      requires Valid() && w.start % blockSize == 0 && w.length % blockSize == 0 && w.shift + |d| <= w.length
      modifies this
      ensures ok ==> w.start + w.length <= |old(medium)| && medium == Splice(old(medium), w.start + w.shift, d)
      ensures Landed(old(medium), medium, w.start + w.shift, d)
    {
      hide Landed;
      NothingLands(medium, w.start + w.shift, d);
      var scratch := new byte[w.length](i => 0);
      ok := ReadRaw(scratch, w.start);
      if ok {
        CopyInto(scratch, w.shift, d);
        PatchedWindow(medium, w.start, w.length, w.shift, d);
        ok := WriteRaw(scratch[..], w.start);
        PatchedWindowLands(old(medium), medium, w.start, w.length, w.shift, d);
      }
    }
  }
}

/** The LUKS anti-forensic splitter (Core/crypto/af_split.c). */
module AfSplit {
  import opened Bytes
  import opened Crypto
  import opened Errno
  import opened Arith

  /** Chunk i of a diffusion is the digest of its index followed by the chunk; a short last
      chunk is digested the same way and cut to length. */
  function DiffuseFrom(s: seq<byte>, i: nat, h: Hash): (r: seq<byte>)
    requires h.Valid()
    ensures |r| == |s|
    decreases |s|
  {
    if s == [] then []
    else if |s| < h.size then h.digest(Be32(i) + s)[..|s|]
    else h.digest(Be32(i) + s[..h.size]) + DiffuseFrom(s[h.size..], i + 1, h)
  }

  function Diffuse(s: seq<byte>, h: Hash): (r: seq<byte>)
    requires h.Valid()
    ensures |r| == |s|
  {
    DiffuseFrom(s, 0, h)
  }

  /** The digest of a chunk's number, as four bytes, and the chunk, cut to the chunk's length. */
  function ChunkDigest(h: Hash, k: nat, chunk: seq<byte>): (r: seq<byte>)
    requires h.Valid() && |chunk| <= h.size
    ensures |r| == |chunk|
  {
    h.digest(Be32(k) + chunk)[..|chunk|]
  }

  lemma {:induction false} DiffuseFromAt(s: seq<byte>, i: nat, h: Hash, k: nat, x: nat, y: nat)
    requires h.Valid() && x == k * h.size < |s| && y == if x + h.size <= |s| then x + h.size else |s|
    ensures DiffuseFrom(s, i, h)[x..y] == ChunkDigest(h, i + k, s[x..y])
    decreases |s|
  {
    hide Be32, DiffuseFrom, ChunkDigest;
    var n := h.size;
    if k == 0 {
      DiffuseFirst(s, i, h);
    } else {
      Distribute(k, -1, n);
      MulMonotone(1, k, n);
      DiffuseFromAt(s[n..], i + 1, h, k - 1, x - n, y - n);
      assert s[n..][x - n..y - n] == s[x..y];
      DiffuseRest(s, i, h, x, y);
    }
  }

  lemma DiffuseRest(s: seq<byte>, i: nat, h: Hash, x: nat, y: nat)
    requires h.Valid() && h.size <= x <= y <= |s|
    ensures DiffuseFrom(s, i, h)[x..y] == DiffuseFrom(s[h.size..], i + 1, h)[x - h.size..y - h.size]
  {
    hide Be32;
    if x == y {
      assert DiffuseFrom(s, i, h)[x..y] == [];
    }
  }

  lemma DiffuseFirst(s: seq<byte>, i: nat, h: Hash)
    requires h.Valid() && s != []
    ensures var y := if h.size <= |s| then h.size else |s|;
            DiffuseFrom(s, i, h)[..y] == ChunkDigest(h, i, s[..y])
  {
    hide Be32;
    if |s| < h.size { assert s[..|s|] == s; }
  }

  /** Each chunk by itself, under its own number; the last may be short. */
  lemma DiffuseAt(s: seq<byte>, h: Hash, k: nat, x: nat, y: nat)
    requires h.Valid() && x == k * h.size < |s| && y == if x + h.size <= |s| then x + h.size else |s|
    ensures Diffuse(s, h)[x..y] == ChunkDigest(h, k, s[x..y])
  {
    hide DiffuseFrom, ChunkDigest;
    DiffuseFromAt(s, 0, h, k, x, y);
  }

  /** Fold in the first n - 1 stripes of src, diffusing after each; XOR in the last one. */
  function MergeFrom(acc: seq<byte>, src: seq<byte>, n: nat, h: Hash): (r: seq<byte>)
    requires h.Valid() && n > 0 && |src| == n * |acc|
    ensures |r| == |acc|
    decreases n
  {
    if n == 1 then Xor(acc, src)
    else
      StripeFits(n, |acc|);
      MergeFrom(Diffuse(Xor(acc, src[..|acc|]), h), src[|acc|..], n - 1, h)
  }

  lemma StripeFits(n: nat, k: nat)
    requires n > 1
    ensures k <= n * k && n * k - k == (n - 1) * k
  {}

  function Zeros(n: nat): (r: seq<byte>)
    ensures |r| == n && forall i :: 0 <= i < n ==> r[i] == 0
  {
    seq(n, i => 0)
  }

  /** The merge of `stripes` stripes of `keyLen` bytes. */
  function Merge(src: seq<byte>, keyLen: nat, stripes: nat, h: Hash): (r: seq<byte>)
    requires h.Valid() && stripes > 0 && |src| == stripes * keyLen
    ensures |r| == keyLen
  {
    MergeFrom(Zeros(keyLen), src, stripes, h)
  }

  // ---- The splitter, which only a formatter runs: a specification ----

  function SplitFrom(acc: seq<byte>, key: seq<byte>, stripes: seq<seq<byte>>, h: Hash): (r: seq<byte>)
    requires h.Valid() && |acc| == |key| && forall s :: s in stripes ==> |s| == |key|
    ensures |r| == (|stripes| + 1) * |key|
    decreases |stripes|
  {
    Distribute(|stripes|, 1, |key|);
    if stripes == [] then Xor(acc, key)
    else stripes[0] + SplitFrom(Diffuse(Xor(acc, stripes[0]), h), key, stripes[1..], h)
  }

  /** Section 2.4 of the LUKS On-Disk Format Specification 1.2.3: any stripes, then the one that
      makes the merge come out as the key. */
  function Split(key: seq<byte>, random: seq<seq<byte>>, h: Hash): (r: seq<byte>)
    requires h.Valid() && forall s :: s in random ==> |s| == |key|
    ensures |r| == (|random| + 1) * |key|
  {
    SplitFrom(Zeros(|key|), key, random, h)
  }

  lemma {:induction false} MergeUndoesSplitFrom(acc: seq<byte>, key: seq<byte>, random: seq<seq<byte>>, h: Hash)
    requires h.Valid() && |acc| == |key| && forall s :: s in random ==> |s| == |key|
    ensures MergeFrom(acc, SplitFrom(acc, key, random, h), |random| + 1, h) == key
    decreases |random|
  {
    var src := SplitFrom(acc, key, random, h);
    if random == [] {
      XorCommutes(acc, key);
      XorCancels(key, acc);
      XorCommutes(acc, Xor(key, acc));
    } else {
      var next := Diffuse(Xor(acc, random[0]), h);
      assert src[..|acc|] == random[0];
      assert src[|acc|..] == SplitFrom(next, key, random[1..], h);
      MergeUndoesSplitFrom(next, key, random[1..], h);
    }
  }

  lemma XorCommutes(a: seq<byte>, b: seq<byte>)
    requires |a| == |b|
    ensures Xor(a, b) == Xor(b, a)
  {
    forall i | 0 <= i < |a| ensures Xor(a, b)[i] == Xor(b, a)[i] {
      assert a[i] ^ b[i] == b[i] ^ a[i];
    }
  }

  /** Merging undoes splitting for every key, every number of stripes and every choice of them. */
  lemma MergeUndoesSplit(key: seq<byte>, random: seq<seq<byte>>, h: Hash)
    requires h.Valid() && forall s :: s in random ==> |s| == |key|
    ensures Merge(Split(key, random, h), |key|, |random| + 1, h) == key
  {
    MergeUndoesSplitFrom(Zeros(|key|), key, random, h);
  }

  // ---- The code ----

  /** A buffer whose first `at` bytes are diffused, and what the rest will become. */
  function Diffusing(buf: seq<byte>, at: nat, i: nat, h: Hash): seq<byte>
    requires h.Valid() && at <= |buf|
  {
    buf[..at] + DiffuseFrom(buf[at..], i, h)
  }

  lemma DiffuseChunk(buf: seq<byte>, at: nat, i: nat, h: Hash)
    requires h.Valid() && at + h.size <= |buf|
    ensures Diffusing(Splice(buf, at, h.digest(Be32(i) + buf[at..at + h.size])), at + h.size, i + 1, h) ==
            Diffusing(buf, at, i, h)
  {
    hide Be32;
    var n := h.size;
    var d := h.digest(Be32(i) + buf[at..at + n]);
    var next := Splice(buf, at, d);
    assert buf[at..][..n] == buf[at..at + n] && buf[at..][n..] == buf[at + n..];
    assert next[..at + n] == buf[..at] + d;
    assert next[at + n..] == buf[at + n..];
  }

  lemma DiffuseTail(buf: seq<byte>, at: nat, i: nat, h: Hash)
    requires h.Valid() && at < |buf| < at + h.size
    ensures Splice(buf, at, h.digest(Be32(i) + buf[at..])[..|buf| - at]) == Diffusing(buf, at, i, h)
  {}

  /** `diffuse` as `af_merge` calls it, with source and destination the same buffer. */
  method DiffuseInPlace(buf: array<byte>, h: Hash) returns (r: int)
    requires h.Valid()
    modifies buf
    ensures r == OK || r == ENOMEM
    ensures r == OK ==> buf[..] == Diffuse(old(buf[..]), h)
  {
    hide DiffuseFrom, Be32, Diffusing, Diffuse;
    if * {
      return ENOMEM;
    }
    DiffusingStarts(buf[..], h);
    var n := h.size;
    var full, tail := Chunks(buf.Length, n);
    var i, at := 0, 0;
    while i < full
      invariant i <= full && at == i * n <= buf.Length
      invariant Diffusing(buf[..], at, i, h) == Diffuse(old(buf[..]), h)
    {
      ChunkFits(i, full, n);
      DiffuseOne(buf, at, i, h);
      i, at := i + 1, at + n;
    }
    if tail != 0 {
      DiffuseLast(buf, at, full, tail, h);
    } else {
      NothingLeft(buf[..], i, h);
    }
    return OK;
  }

  /** A whole chunk of the loop. */
  method DiffuseOne(buf: array<byte>, at: nat, i: nat, h: Hash)
    requires h.Valid() && at + h.size <= buf.Length
    modifies buf
    ensures Diffusing(buf[..], at + h.size, i + 1, h) == Diffusing(old(buf[..]), at, i, h)
  {
    hide DiffuseFrom, Be32, Diffusing;
    DiffuseChunk(buf[..], at, i, h);
    CopyInto(buf, at, h.digest(Be32(i) + buf[at..at + h.size]));
  }

  /** The short chunk at the end. */
  method DiffuseLast(buf: array<byte>, at: nat, i: nat, tail: nat, h: Hash)
    requires h.Valid() && 0 < tail < h.size && at + tail == buf.Length
    modifies buf
    ensures buf[..] == Diffusing(old(buf[..]), at, i, h)
  {
    hide DiffuseFrom, Be32, Diffusing;
    DiffuseTail(buf[..], at, i, h);
    assert buf[at..at + tail] == buf[..][at..];
    CopyInto(buf, at, h.digest(Be32(i) + buf[at..at + tail])[..tail]);
  }

  lemma DiffusingStarts(buf: seq<byte>, h: Hash)
    requires h.Valid()
    ensures Diffusing(buf, 0, 0, h) == Diffuse(buf, h)
  {
    hide DiffuseFrom;
    assert buf[0..] == buf;
  }

  lemma NothingLeft(buf: seq<byte>, i: nat, h: Hash)
    requires h.Valid()
    ensures Diffusing(buf, |buf|, i, h) == buf
  {}

  method Chunks(len: nat, n: nat) returns (full: nat, tail: nat)
    requires n > 0
    ensures len == full * n + tail && tail < n
  {
    full, tail := len / n, len % n;
  }

  lemma ChunkFits(i: nat, full: nat, n: nat)
    requires i < full
    ensures i * n + n == (i + 1) * n <= full * n
  {}

  /** `af_merge`: EINVAL for an empty key or no stripes, else the merge in the first keyLen bytes of out. */
  method AfMerge(src: array<byte>, keyLen: nat, stripes: nat, h: Hash, out: array<byte>) returns (r: int)
    requires h.Valid() && src.Length == stripes * keyLen && keyLen <= out.Length && src != out
    modifies out
    ensures r == EINVAL <==> keyLen == 0 || stripes == 0
    ensures r == OK || r == EINVAL || r == ENOMEM
    ensures r == OK ==> out[..] == Merge(src[..], keyLen, stripes, h) + old(out[keyLen..])
    ensures r != OK ==> out[..] == old(out[..])
  {
    hide Diffuse;
    if keyLen == 0 || stripes == 0 {
      return EINVAL;
    }
    if * {
      return ENOMEM;
    }
    var acc := new byte[keyLen](i => 0);
    assert acc[..] == Zeros(keyLen);
    ghost var s := src[..];
    var i := 0;
    while i < stripes - 1
      invariant i <= stripes - 1
      invariant i * keyLen <= |s| && |s[i * keyLen..]| == (stripes - i) * keyLen
      invariant MergeFrom(acc[..], s[i * keyLen..], stripes - i, h) == Merge(s, keyLen, stripes, h)
      invariant fresh(acc) && src[..] == s && out[..] == old(out[..])
    {
      StripeFits(stripes - i, keyLen);
      ghost var rest := s[i * keyLen..];
      XorStripe(acc, src, i * keyLen);
      assert src[i * keyLen..i * keyLen + keyLen] == rest[..keyLen];
      r := DiffuseInPlace(acc, h);
      if r != OK {
        return;
      }
      assert rest[keyLen..] == s[(i + 1) * keyLen..];
      i := i + 1;
    }
    StripeFits(stripes + 1, keyLen);
    assert src[i * keyLen..] == s[i * keyLen..];
    XorStripe(acc, src, i * keyLen);
    CopyInto(out, 0, acc[..]);
    return OK;
  }

  /** acc ^= src[at..at + keyLen]. */
  method XorStripe(acc: array<byte>, src: array<byte>, at: nat)
    requires acc != src && at + acc.Length <= src.Length
    modifies acc
    ensures acc[..] == Xor(old(acc[..]), src[at..at + acc.Length])
  {
    ghost var stripe := src[at..at + acc.Length];
    for j := 0 to acc.Length
      invariant src[at..at + acc.Length] == stripe
      invariant forall k :: 0 <= k < acc.Length ==> acc[k] == if k < j then old(acc[k]) ^ stripe[k] else old(acc[k])
    {
      assert src[at + j] == stripe[j];
      acc[j] := acc[j] ^ src[at + j];
    }
  }
}

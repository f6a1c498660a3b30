/**
 The queue of a drive's volatile write cache (tools/ext4dump.c): what a byte reads as while writes are pending,
 and what happens to that when some of them reach the medium early.
 */
module DriveQueue {
  import opened Bytes

  /** One write held in the cache. */
  datatype PendingWrite = PendingWrite(seqno: int, off: nat, data: seq<byte>) {
    predicate Covers(b: nat) {
      off <= b < off + |data|
    }

    function At(b: nat): byte
      requires Covers(b)
    {
      data[b - off]
    }
  }

  /** The value of byte b once the writes have been applied in order to a medium holding x there. */
  function Newest(ws: seq<PendingWrite>, b: nat, x: byte): byte {
    if ws == [] then x
    else
      var w := ws[|ws| - 1];
      if w.Covers(b) then w.At(b) else Newest(ws[..|ws| - 1], b, x)
  }

  predicate Covered(ws: seq<PendingWrite>, b: nat) {
    ws != [] && (ws[|ws| - 1].Covers(b) || Covered(ws[..|ws| - 1], b))
  }

  /** The medium with the writes applied in order. A write that runs past the end is clipped there. */
  function View(m: seq<byte>, ws: seq<PendingWrite>): (r: seq<byte>)
    ensures |r| == |m|
  {
    seq(|m|, b requires 0 <= b < |m| => Newest(ws, b, m[b]))
  }

  function Total(ws: seq<PendingWrite>): nat {
    if ws == [] then 0 else Total(ws[..|ws| - 1]) + |ws[|ws| - 1].data|
  }

  /** The writes whose mark is v, in issue order. */
  function Select(ws: seq<PendingWrite>, marks: seq<bool>, v: bool): seq<PendingWrite>
    requires |marks| == |ws|
  {
    if ws == [] then []
    else
      var n := |ws| - 1;
      Select(ws[..n], marks[..n], v) + if marks[n] == v then [ws[n]] else []
  }

  // ---- Applying in stages ----

  lemma Snoc(ws: seq<PendingWrite>, w: PendingWrite, b: nat)
    ensures Covered(ws + [w], b) <==> w.Covers(b) || Covered(ws, b)
    ensures forall x :: Newest(ws + [w], b, x) == if w.Covers(b) then w.At(b) else Newest(ws, b, x)
  {
    assert (ws + [w])[..|ws|] == ws;
  }

  /** The last write of a queue is the last of the selection it belongs to. */
  lemma SelectLast(ws: seq<PendingWrite>, marks: seq<bool>, v: bool, b: nat)
    requires |marks| == |ws| > 0
    ensures var n := |ws| - 1;
            var s, s0 := Select(ws, marks, v), Select(ws[..n], marks[..n], v);
            && (marks[n] == v ==> s == s0 + [ws[n]]
                                  && (Covered(s, b) <==> ws[n].Covers(b) || Covered(s0, b))
                                  && forall x :: Newest(s, b, x)
                                       == if ws[n].Covers(b) then ws[n].At(b) else Newest(s0, b, x))
            && (marks[n] != v ==> s == s0)
  {
    Snoc(Select(ws[..|ws| - 1], marks[..|ws| - 1], v), ws[|ws| - 1], b);
  }

  lemma {:induction false} NewestConcat(a: seq<PendingWrite>, c: seq<PendingWrite>, b: nat, x: byte)
    ensures Newest(a + c, b, x) == Newest(c, b, Newest(a, b, x))
  {
    if c == [] {
      assert a + c == a;
    } else {
      var n := |c| - 1;
      assert (a + c)[..|a + c| - 1] == a + c[..n];
      NewestConcat(a, c[..n], b, x);
    }
  }

  /** Applying a queue in two parts is applying it whole. */
  lemma ViewConcat(m: seq<byte>, a: seq<PendingWrite>, c: seq<PendingWrite>)
    ensures View(View(m, a), c) == View(m, a + c)
  {
    forall b | 0 <= b < |m| ensures View(View(m, a), c)[b] == View(m, a + c)[b] {
      NewestConcat(a, c, b, m[b]);
    }
  }

  /** A write that fits is a splice. */
  lemma ViewOfOne(m: seq<byte>, w: PendingWrite)
    ensures w.off + |w.data| <= |m| ==> View(m, [w]) == Splice(m, w.off, w.data)
    ensures View(m, []) == m
  {
    forall b | 0 <= b < |m| ensures View(m, [w])[b] == if w.Covers(b) then w.At(b) else m[b] {
      Snoc([], w, b);
      assert [] + [w] == [w];
    }
  }

  lemma {:induction false} CoveredHidesMedium(ws: seq<PendingWrite>, b: nat, x: byte, y: byte)
    ensures Covered(ws, b) ==> Newest(ws, b, x) == Newest(ws, b, y)
    ensures !Covered(ws, b) ==> Newest(ws, b, x) == x && Newest(ws, b, y) == y
  {
    if ws != [] { CoveredHidesMedium(ws[..|ws| - 1], b, x, y); }
  }

  /** Whatever a byte reads as came from the medium or from a write that covers it. */
  lemma {:induction false} NewestIsFromSomewhere(ws: seq<PendingWrite>, b: nat, x: byte)
    ensures Newest(ws, b, x) == x || exists w :: w in ws && w.Covers(b) && w.At(b) == Newest(ws, b, x)
  {
    if ws != [] {
      var w := ws[|ws| - 1];
      if w.Covers(b) {
        assert w in ws;
      } else {
        NewestIsFromSomewhere(ws[..|ws| - 1], b, x);
      }
    }
  }

  // ---- Eviction ----

  /** Byte b would read stale: its newest write is marked, and an older one that is not covers it too. */
  predicate StaleAt(ws: seq<PendingWrite>, marks: seq<bool>, b: nat)
    requires |marks| == |ws|
  {
    if ws == [] then false
    else
      var n := |ws| - 1;
      if ws[n].Covers(b) then marks[n] && Covered(Select(ws[..n], marks[..n], false), b)
      else StaleAt(ws[..n], marks[..n], b)
  }

  /** What is read after eviction: the marked writes are on the medium, the others still in the queue. */
  function EvictedView(m: seq<byte>, ws: seq<PendingWrite>, marks: seq<bool>): seq<byte>
    requires |marks| == |ws|
  {
    View(View(m, Select(ws, marks, true)), Select(ws, marks, false))
  }

  lemma {:induction false} EvictedByte(ws: seq<PendingWrite>, marks: seq<bool>, b: nat, x: byte)
    requires |marks| == |ws|
    ensures var s := Select(ws, marks, false);
            Newest(s, b, Newest(Select(ws, marks, true), b, x)) ==
            if Covered(s, b) then Newest(s, b, x) else Newest(ws, b, x)
    ensures !StaleAt(ws, marks, b) && Covered(Select(ws, marks, false), b) ==>
            Newest(Select(ws, marks, false), b, x) == Newest(ws, b, x)
  {
    if ws != [] {
      var n := |ws| - 1;
      SelectLast(ws, marks, false, b);
      SelectLast(ws, marks, true, b);
      hide Select, Newest, Covered;
      EvictedByte(ws[..n], marks[..n], b, x);
      LastWrite(ws, b, x);
      CoveredHidesMedium(Select(ws[..n], marks[..n], false), b, x,
                         if marks[n] && ws[n].Covers(b) then ws[n].At(b)
                         else Newest(Select(ws[..n], marks[..n], true), b, x));
    }
  }

  lemma LastWrite(ws: seq<PendingWrite>, b: nat, x: byte)
    requires ws != []
    ensures var n := |ws| - 1; Newest(ws, b, x) == if ws[n].Covers(b) then ws[n].At(b) else Newest(ws[..n], b, x)
  {}

  /** Eviction, byte by byte: where a survivor covers the byte the newest survivor is read, elsewhere nothing
      changed. */
  lemma EvictionExactly(m: seq<byte>, ws: seq<PendingWrite>, marks: seq<bool>, b: nat)
    requires |marks| == |ws| && b < |m|
    ensures EvictedView(m, ws, marks)[b] ==
            if Covered(Select(ws, marks, false), b) then Newest(Select(ws, marks, false), b, m[b]) else View(m, ws)[b]
  {
    EvictedByte(ws, marks, b, m[b]);
  }

  /** No evicted write overlaps an older survivor. */
  ghost predicate NoOlderSurvivor(ws: seq<PendingWrite>, marks: seq<bool>)
    requires |marks| == |ws|
  {
    forall i, j, b: nat :: 0 <= i < j < |ws| && !marks[i] && marks[j] ==> !(ws[i].Covers(b) && ws[j].Covers(b))
  }

  lemma {:induction false} CoveredBySelected(ws: seq<PendingWrite>, marks: seq<bool>, b: nat)
    requires |marks| == |ws| && Covered(Select(ws, marks, false), b)
    ensures exists i :: 0 <= i < |ws| && !marks[i] && ws[i].Covers(b)
  {
    if ws != [] {
      var n := |ws| - 1;
      SelectLast(ws, marks, false, b);
      if !marks[n] && ws[n].Covers(b) {
      } else {
        CoveredBySelected(ws[..n], marks[..n], b);
        var i :| 0 <= i < n && !marks[..n][i] && ws[..n][i].Covers(b);
        assert !marks[i] && ws[i].Covers(b);
      }
    }
  }

  lemma UncoveredBySelected(ws: seq<PendingWrite>, marks: seq<bool>, b: nat)
    requires |marks| == |ws| && forall i :: 0 <= i < |ws| && !marks[i] ==> !ws[i].Covers(b)
    ensures !Covered(Select(ws, marks, false), b)
  {
    if Covered(Select(ws, marks, false), b) { CoveredBySelected(ws, marks, b); }
  }

  lemma {:induction false} NoOverlapNoStale(ws: seq<PendingWrite>, marks: seq<bool>, b: nat)
    requires |marks| == |ws| && NoOlderSurvivor(ws, marks)
    ensures !StaleAt(ws, marks, b)
  {
    if ws != [] {
      var n := |ws| - 1;
      if ws[n].Covers(b) {
        if marks[n] { UncoveredBySelected(ws[..n], marks[..n], b); }
      } else {
        assert NoOlderSurvivor(ws[..n], marks[..n]) by {
          forall i, j, c: nat | 0 <= i < j < n && !marks[..n][i] && marks[..n][j]
            ensures !(ws[..n][i].Covers(c) && ws[..n][j].Covers(c))
          {
            assert !marks[i] && marks[j];
          }
        }
        NoOverlapNoStale(ws[..n], marks[..n], b);
      }
    }
  }

  lemma FreshEvictionKeepsView(m: seq<byte>, ws: seq<PendingWrite>, marks: seq<bool>)
    requires |marks| == |ws| && forall b: nat :: b < |m| ==> !StaleAt(ws, marks, b)
    ensures EvictedView(m, ws, marks) == View(m, ws)
  {
    forall b: nat | b < |m| ensures EvictedView(m, ws, marks)[b] == View(m, ws)[b] {
      EvictedByte(ws, marks, b, m[b]);
    }
  }

  /** Eviction is invisible whenever no evicted write overlaps an older survivor. */
  lemma EvictionKeepsView(m: seq<byte>, ws: seq<PendingWrite>, marks: seq<bool>)
    requires |marks| == |ws| && NoOlderSurvivor(ws, marks)
    ensures EvictedView(m, ws, marks) == View(m, ws)
  {
    forall b: nat | b < |m| ensures !StaleAt(ws, marks, b) {
      NoOverlapNoStale(ws, marks, b);
    }
    FreshEvictionKeepsView(m, ws, marks);
  }

  /** Two pending writes to the same byte; evicting the second uncovers the first. */
  lemma StaleReadWitness(m: seq<byte>, x: byte, y: byte)
    requires |m| > 0 && x != y
    ensures var ws := [PendingWrite(0, 0, [x]), PendingWrite(1, 0, [y])];
            View(m, ws)[0] == y && EvictedView(m, ws, [false, true])[0] == x
  {
    var ws := [PendingWrite(0, 0, [x]), PendingWrite(1, 0, [y])];
    var marks := [false, true];
    assert ws[..1] == [ws[0]] && marks[..1] == [false] && [ws[0]][..0] == [] && [false][..0] == [];
    assert Select([ws[0]], [false], false) == [ws[0]];
    assert Select(ws, marks, false) == [ws[0]];
    EvictionExactly(m, ws, marks, 0);
  }

  // ---- Exactly when eviction is invisible ----

  ghost predicate SameShape(a: seq<PendingWrite>, c: seq<PendingWrite>) {
    |a| == |c| && forall i :: 0 <= i < |a| ==> a[i].off == c[i].off && |a[i].data| == |c[i].data|
  }

  /** The same ranges, the marked writes all zeros and the others all ones. */
  function Repaint(ws: seq<PendingWrite>, marks: seq<bool>): (r: seq<PendingWrite>)
    requires |marks| == |ws|
    ensures |r| == |ws|
  {
    seq(|ws|, i requires 0 <= i < |ws| => Painted(ws[i], if marks[i] then 0 else 1))
  }

  function Painted(w: PendingWrite, x: byte): PendingWrite {
    PendingWrite(w.seqno, w.off, seq(|w.data|, i => x))
  }

  lemma {:induction false} RepaintedStale(ws: seq<PendingWrite>, marks: seq<bool>, b: nat, x: byte)
    requires |marks| == |ws|
    ensures var r := Repaint(ws, marks);
            && Covered(Select(r, marks, false), b) == Covered(Select(ws, marks, false), b)
            && (Covered(Select(ws, marks, false), b) ==> Newest(Select(r, marks, false), b, x) == 1)
            && (StaleAt(ws, marks, b) ==> Newest(r, b, x) == 0 && Covered(Select(ws, marks, false), b))
  {
    if ws != [] {
      var n := |ws| - 1;
      var r := Repaint(ws, marks);
      assert r[..n] == Repaint(ws[..n], marks[..n]);
      assert r[n].Covers(b) <==> ws[n].Covers(b);
      SelectLast(ws, marks, false, b);
      SelectLast(r, marks, false, b);
      LastWrite(r, b, x);
      hide Select, Newest, Covered;
      RepaintedStale(ws[..n], marks[..n], b, x);
    }
  }

  lemma {:induction false} StaleDependsOnShape(a: seq<PendingWrite>, c: seq<PendingWrite>, marks: seq<bool>, b: nat)
    requires SameShape(a, c) && |marks| == |a|
    ensures StaleAt(a, marks, b) == StaleAt(c, marks, b)
    ensures Covered(Select(a, marks, false), b) == Covered(Select(c, marks, false), b)
  {
    if a != [] {
      var n := |a| - 1;
      assert a[n].Covers(b) <==> c[n].Covers(b);
      assert SameShape(a[..n], c[..n]);
      SelectLast(a, marks, false, b);
      SelectLast(c, marks, false, b);
      hide Select, Covered;
      StaleDependsOnShape(a[..n], c[..n], marks[..n], b);
    }
  }

  /** Evicting these victims changes no read, whatever the queue's writes contain. */
  ghost predicate Invisible(m: seq<byte>, ws: seq<PendingWrite>, marks: seq<bool>)
    requires |marks| == |ws|
  {
    forall q :: SameShape(q, ws) ==> EvictedView(m, q, marks) == View(m, q)
  }

  ghost predicate NeverStale(m: seq<byte>, ws: seq<PendingWrite>, marks: seq<bool>)
    requires |marks| == |ws|
  {
    forall b: nat :: b < |m| ==> !StaleAt(ws, marks, b)
  }

  /** A choice of victims is invisible for every content of the queue exactly when it leaves no byte whose newest
      write is evicted while an older one stays. */
  lemma EvictionInvisibleIff(m: seq<byte>, ws: seq<PendingWrite>, marks: seq<bool>)
    requires |marks| == |ws|
    ensures Invisible(m, ws, marks) <==> NeverStale(m, ws, marks)
  {
    hide StaleAt, Select, View, EvictedView, Repaint;
    if NeverStale(m, ws, marks) {
      forall q | SameShape(q, ws) ensures EvictedView(m, q, marks) == View(m, q) {
        forall b: nat | b < |m| ensures !StaleAt(q, marks, b) {
          StaleDependsOnShape(q, ws, marks, b);
        }
        FreshEvictionKeepsView(m, q, marks);
      }
    } else {
      var b: nat :| b < |m| && StaleAt(ws, marks, b);
      StaleIsVisible(m, ws, marks, b);
    }
  }

  lemma StaleIsVisible(m: seq<byte>, ws: seq<PendingWrite>, marks: seq<bool>, b: nat)
    requires |marks| == |ws| && b < |m| && StaleAt(ws, marks, b)
    ensures !Invisible(m, ws, marks)
  {
    hide StaleAt, Select, View, EvictedView, Repaint;
    RepaintShows(m, ws, marks, b);
    var r := Repaint(ws, marks);
    assert SameShape(r, ws) && EvictedView(m, r, marks) != View(m, r);
  }

  lemma RepaintShows(m: seq<byte>, ws: seq<PendingWrite>, marks: seq<bool>, b: nat)
    requires |marks| == |ws| && b < |m| && StaleAt(ws, marks, b)
    ensures var r := Repaint(ws, marks);
            SameShape(r, ws) && View(m, r)[b] == 0 && EvictedView(m, r, marks)[b] == 1
  {
    RepaintedStale(ws, marks, b, m[b]);
    EvictionExactly(m, Repaint(ws, marks), marks, b);
  }

  lemma TotalSnoc(ws: seq<PendingWrite>, w: PendingWrite)
    ensures Total(ws + [w]) == Total(ws) + |w.data|
  {
    assert (ws + [w])[..|ws|] == ws;
  }

  /** Evicted and surviving writes are exactly the old queue. */
  lemma {:induction false} EvictionConserves(ws: seq<PendingWrite>, marks: seq<bool>)
    requires |marks| == |ws|
    ensures multiset(Select(ws, marks, true)) + multiset(Select(ws, marks, false)) == multiset(ws)
  {
    if ws != [] {
      var n := |ws| - 1;
      EvictionConserves(ws[..n], marks[..n]);
      assert ws == ws[..n] + [ws[n]];
      assert multiset(Select(ws, marks, marks[n])) == multiset(Select(ws[..n], marks[..n], marks[n])) + multiset{ws[n]};
    }
  }

  /** And their lengths add up. */
  lemma {:induction false} EvictionConservesBytes(ws: seq<PendingWrite>, marks: seq<bool>)
    requires |marks| == |ws|
    ensures Total(Select(ws, marks, true)) + Total(Select(ws, marks, false)) == Total(ws)
  {
    if ws != [] {
      var n := |ws| - 1;
      EvictionConservesBytes(ws[..n], marks[..n]);
      TotalSnoc(Select(ws[..n], marks[..n], marks[n]), ws[n]);
      assert Select(ws, marks, marks[n]) == Select(ws[..n], marks[..n], marks[n]) + [ws[n]];
      assert Select(ws, marks, !marks[n]) == Select(ws[..n], marks[..n], !marks[n]);
    }
  }
}

/**
 Which drives are safe at a power cut (tools/ext4dump.c): the ones that honour barriers, the ones without a cache, and a
 few whose queue is too short when the power goes.
 */
module DriveCut {
  import opened Bytes
  import opened Errno
  import opened DriveQueue
  import opened DriveCache

  function NewDrive(m: seq<byte>): Drive {
    Drive(m, [], 0, 0, false)
  }

  /** In every run of a new drive, whatever it draws, that ends after the cut: every byte left is explained. */
  ghost predicate SafeAtTheCut(cfg: Config)
    requires cfg.Valid()
  {
    forall m: seq<byte>, actions: seq<Action> ::
      var (d, h) := Run(cfg, NewDrive(m), History(m, []), actions);
      d.crashed ==> AllExplained(d.medium, h)
  }

  /** The same at whatever moment the power goes and whatever share of the queue is lost. */
  ghost predicate SafeAtEveryCut(cfg: Config)
    requires cfg.Valid()
  {
    forall after: int, drop: nat :: drop <= 100 ==> SafeAtTheCut(cfg.(failAfter := after, reorderDrop := drop))
  }

  lemma NewIsSafe(cfg: Config, m: seq<byte>)
    requires cfg.Valid()
    ensures NewDrive(m).Valid(cfg) && Safe(NewDrive(m), History(m, []))
  {
    TotalOfNone();
  }

  /** The power never goes; or it goes when at most one write is held, or two of which one is empty, and all are
      kept. */
  predicate TooShortToLose(cfg: Config) {
    || cfg.failAfter <= 0
    || (cfg.failAfter == 1 && cfg.reorderDrop < 100)
    || (cfg.failAfter == 2 && cfg.cacheBytes == 1 && cfg.reorderDrop < 50)
  }

  // ---- Too short to lose ----

  /** What every reader sees is explained, and before the cut the queue is as short as that. */
  ghost predicate Short(cfg: Config, d: Drive, h: History) {
    && d.Valid(cfg) && AllExplained(d.Seen(), h)
    && (cfg.failAfter >= 0 && !d.crashed ==> |d.pending| <= d.writes <= cfg.failAfter)
    && (cfg.failAfter >= 0 && |d.pending| == 2 ==> d.pending[0].data == [] || d.pending[1].data == [])
  }

  lemma OneVictim(marks: seq<bool>)
    requires |marks| == 1 && CountMarks(marks) == 1
    ensures marks == [true]
  {
    assert marks[..0] == [];
  }

  lemma SingleIsNeverStale(m: seq<byte>, ws: seq<PendingWrite>, marks: seq<bool>)
    requires |marks| == |ws| == 1
    ensures NeverStale(m, ws, marks)
  {
    assert ws[..0] == [] && marks[..0] == [];
  }

  lemma EmptyShowsNothing(m: seq<byte>, ws: seq<PendingWrite>)
    requires |ws| == 2 && (ws[0].data == [] || ws[1].data == [])
    ensures View(m, [ws[1], ws[0]]) == View(m, ws)
  {
    var turned := [ws[1], ws[0]];
    forall b: nat | b < |m| ensures View(m, turned)[b] == View(m, ws)[b] {
      Snoc([ws[0]], ws[1], b);
      Snoc([ws[1]], ws[0], b);
      Snoc([], ws[0], b);
      Snoc([], ws[1], b);
      assert [ws[0]] + [ws[1]] == ws && [ws[1]] + [ws[0]] == turned;
      assert [] + [ws[0]] == [ws[0]] && [] + [ws[1]] == [ws[1]];
    }
  }

  lemma AllKept(cfg: Config, n: nat)
    requires cfg.Valid() && TooShortToLose(cfg) && cfg.failAfter >= 0 && n <= cfg.failAfter
    ensures Kept(cfg, n) == n
  {
    if n == 0 { assert n * cfg.reorderDrop == 0; }
  }

  /** The cut commits all of so short a queue, and the order does not matter. */
  lemma ShortCut(cfg: Config, d: Drive, h: History, order: seq<nat>)
    requires cfg.Valid() && TooShortToLose(cfg) && cfg.failAfter >= 0 && Short(cfg, d, h) && !d.crashed
    requires Permutation(order, |d.pending|)
    ensures Crash(cfg, d, order).medium == d.Seen()
  {
    var n := |d.pending|;
    AllKept(cfg, n);
    if n == 0 {
      EmptyQueueShowsMedium(d.medium);
    } else {
      var kept := Picked(d.pending, order[..n]);
      if n == 1 {
        assert kept == d.pending;
      } else if order[0] == 0 {
        assert kept == d.pending;
      } else {
        assert kept == [d.pending[1], d.pending[0]];
        EmptyShowsNothing(d.medium, d.pending);
      }
    }
  }

  /** A short queue's eviction takes all of it. */
  lemma ShortEvict(d: Drive, marks: seq<bool>)
    requires |d.pending| == |marks| == 1 && CountMarks(marks) == 1
    ensures |Evict(d, marks).0.pending| == if Evict(d, marks).1 == OK then 0 else 1
  {
    OneVictim(marks);
    hide View;
    assert d.pending[..0] == [] && marks[..0] == [];
    assert Select(d.pending, marks, false) == Select([], [], false) + [] == [];
  }

  lemma ShortWrite(cfg: Config, d: Drive, h: History, off: nat, data: seq<byte>, c: Choice)
    requires cfg.Valid() && TooShortToLose(cfg) && cfg.failAfter >= 0 && cfg.cacheBytes > 0 && Short(cfg, d, h)
    requires !d.PowerIsOff(cfg) && Legal(d, c)
    ensures Short(cfg, Write(cfg, d, off, data, c).0, Note(cfg, d, h, WriteAction(off, data, c)))
  {
    var w, e := PendingWrite(d.writes, off, data), Write(cfg, d, off, data, c).0;
    var more := h.(since := h.since + [w]);
    WriteKeeps(cfg, d, off, data, c);
    hide View, Select, FirstBad, DirectWrite, Crash;
    if Evicts(cfg, d, data) {
      SingleIsNeverStale(d.medium, d.pending, c.marks);
      ShortEvict(d.(writes := d.writes + 1), c.marks);
    } else if |d.pending| == 1 {
      assert d.pending[..0] == [];
      assert Total(d.pending) == |d.pending[0].data|;
    }
    MoreSince(d.Seen(), h, w);
    ViewExplained(d.Seen(), [w], more);
  }

  lemma ShortStep(cfg: Config, d: Drive, h: History, a: Action)
    requires cfg.Valid() && TooShortToLose(cfg) && cfg.failAfter >= 0 && cfg.cacheBytes > 0 && cfg.ignoreBarriers
    requires Short(cfg, d, h) && Possible(d, a)
    ensures Short(cfg, Do(cfg, d, a).0, Note(cfg, d, h, a))
  {
    match a
    case WriteAction(off, data, choice) =>
      if !d.PowerIsOff(cfg) {
        ShortWrite(cfg, d, h, off, data, choice);
      } else {
        WriteKeeps(cfg, d, off, data, choice);
        hide View, Total;
        if !d.crashed {
          ShortCut(cfg, d, h, choice.order);
          EmptyQueueShowsMedium(d.Seen());
        }
      }
    case FlushAction =>
      FreshBarrier(d.Seen());
  }

  lemma {:induction false} ShortRun(cfg: Config, d: Drive, h: History, actions: seq<Action>)
    requires cfg.Valid() && TooShortToLose(cfg) && cfg.failAfter >= 0 && cfg.cacheBytes > 0 && cfg.ignoreBarriers
    requires Short(cfg, d, h)
    ensures Short(cfg, Run(cfg, d, h, actions).0, Run(cfg, d, h, actions).1)
    decreases |actions|
  {
    hide Do, Note, Short, TooShortToLose;
    if actions != [] && Possible(d, actions[0]) {
      ShortStep(cfg, d, h, actions[0]);
      ShortRun(cfg, Do(cfg, d, actions[0]).0, Note(cfg, d, h, actions[0]), actions[1..]);
    }
  }

  /** With the power on for good there is no cut. */
  lemma {:induction false} NoCut(cfg: Config, d: Drive, h: History, actions: seq<Action>)
    requires cfg.Valid() && cfg.failAfter < 0 && !d.crashed
    ensures !Run(cfg, d, h, actions).0.crashed
    decreases |actions|
  {
    hide View;
    if actions != [] && Possible(d, actions[0]) {
      NoCut(cfg, Do(cfg, d, actions[0]).0, Note(cfg, d, h, actions[0]), actions[1..]);
    }
  }

  lemma ShortIsSafe(cfg: Config)
    requires cfg.Valid() && TooShortToLose(cfg) && !Honest(cfg)
    ensures SafeAtTheCut(cfg)
  {
    hide Run;
    forall m: seq<byte>, actions: seq<Action>
      ensures var (d, h) := Run(cfg, NewDrive(m), History(m, []), actions); d.crashed ==> AllExplained(d.medium, h)
    {
      if cfg.failAfter < 0 {
        NoCut(cfg, NewDrive(m), History(m, []), actions);
      } else {
        NewIsSafe(cfg, m);
        EmptyQueueShowsMedium(m);
        ShortRun(cfg, NewDrive(m), History(m, []), actions);
        EmptyQueueShowsMedium(Run(cfg, NewDrive(m), History(m, []), actions).0.medium);
      }
    }
  }

  // ---- Long enough to lose ----

  /** A run of a drive that ends after the cut with a byte that nothing explains. */
  ghost predicate Loses(cfg: Config, d: Drive, h: History, actions: seq<Action>)
    requires cfg.Valid()
  {
    var (e, g) := Run(cfg, d, h, actions);
    e.crashed && !AllExplained(e.medium, g)
  }

  lemma Prepend(cfg: Config, d: Drive, h: History, a: Action, more: seq<Action>)
    requires cfg.Valid() && Possible(d, a)
    ensures Loses(cfg, d, h, [a] + more) <==> Loses(cfg, Do(cfg, d, a).0, Note(cfg, d, h, a), more)
  {
    hide Do, Note;
    assert ([a] + more)[1..] == more;
  }

  /** The flush that is ignored promises what is seen; the cut keeps less. */
  lemma FlushThenCut(cfg: Config, d: Drive, h: History, order: seq<nat>) returns (actions: seq<Action>)
    requires d.Valid(cfg) && !Honest(cfg) && !d.crashed && d.PowerIsOff(cfg) && |d.medium| == 1
    requires Permutation(order, |d.pending|) && Crash(cfg, d, order).medium[0] != d.Seen()[0]
    ensures Loses(cfg, d, h, actions)
  {
    hide View, Total, Crash;
    var c := AnyChoice(d);
    var a := WriteAction(0, [], Choice(c.marks, order));
    var g := Note(cfg, d, h, FlushAction);
    assert Do(cfg, d, FlushAction).0 == d && g == History(d.Seen(), []);
    var e := Do(cfg, d, a).0;
    CrashKeeps(cfg, d, order);
    assert e.crashed && e.medium == Crash(cfg, d, order).medium && Note(cfg, d, g, a) == g;
    assert !Explained(e.medium, g, 0);
    assert Loses(cfg, e, g, []);
    Prepend(cfg, d, g, a, []);
    assert [a] + [] == [a];
    Prepend(cfg, d, h, FlushAction, [a]);
    actions := [FlushAction] + [a];
  }

  lemma {:induction false} BlankShowsNothing(ws: seq<PendingWrite>, b: nat, x: byte, k: nat)
    requires k <= |ws| && forall j :: k <= j < |ws| ==> ws[j].data == []
    ensures Newest(ws, b, x) == Newest(ws[..k], b, x)
    decreases |ws|
  {
    if k == |ws| {
      assert ws[..k] == ws;
    } else {
      BlankShowsNothing(ws[..|ws| - 1], b, x, k);
      assert ws[..|ws| - 1][..k] == ws[..k];
    }
  }

  lemma BlankView(m: seq<byte>, ws: seq<PendingWrite>)
    requires forall w :: w in ws ==> w.data == []
    ensures View(m, ws) == m
  {
    forall b: nat | b < |m| ensures View(m, ws)[b] == m[b] {
      BlankShowsNothing(ws, b, m[b], 0);
      assert ws[..0] == [];
    }
  }

  /** Two writes to one byte at the end of the queue, the rest of it empty writes. */
  ghost predicate TwiceWritten(d: Drive) {
    var n := |d.pending|;
    && d.medium == [0] && n >= 2 && d.pending[n - 2].off == d.pending[n - 1].off == 0
    && d.pending[n - 2].data == [1] && d.pending[n - 1].data == [2]
    && forall j :: 0 <= j < n - 2 ==> d.pending[j].data == []
  }

  lemma TwiceSeen(d: Drive)
    requires TwiceWritten(d)
    ensures |d.Seen()| == 1 && d.Seen()[0] == 2
  {
    assert d.pending[|d.pending| - 1].Covers(0);
  }

  function Reversed(n: nat): (order: seq<nat>)
    ensures |order| == n && forall j :: 0 <= j < n ==> order[j] == n - 1 - j
  {
    seq(n, j requires 0 <= j < n => n - 1 - j)
  }

  /** The last but one first. */
  function Turned(n: nat): (order: seq<nat>)
    requires n >= 2
    ensures |order| == n && order[0] == n - 2 && order[1] == n - 1 && forall j :: 2 <= j < n ==> order[j] == j - 2
  {
    seq(n, j requires 0 <= j < n => if j == 0 then n - 2 else if j == 1 then n - 1 else j - 2)
  }

  lemma KeptOnFront(m: seq<byte>, ws: seq<PendingWrite>, order: seq<nat>, k: nat)
    requires m == [0] && |ws| == |order| >= 2 && 1 <= k <= |ws|
    requires forall i :: 0 <= i < |order| ==> order[i] < |ws|
    requires forall j :: 2 <= j < |ws| ==> ws[order[j]].data == []
    ensures k == 1 ==> View(m, Picked(ws, order[..k])) == View(m, [ws[order[0]]])
    ensures k >= 2 ==> View(m, Picked(ws, order[..k])) == View(m, [ws[order[0]], ws[order[1]]])
  {
    var kept := Picked(ws, order[..k]);
    if k == 1 {
      assert kept == [ws[order[0]]];
    } else {
      assert kept[..2] == [ws[order[0]], ws[order[1]]];
      BlankShowsNothing(kept, 0, m[0], 2);
    }
  }

  /** However many are kept, some order leaves the older write on the medium, or neither. */
  lemma SomeOrderLoses(cfg: Config, d: Drive) returns (order: seq<nat>)
    requires cfg.Valid() && TwiceWritten(d)
    ensures Permutation(order, |d.pending|) && |Crash(cfg, d, order).medium| == 1 && Crash(cfg, d, order).medium[0] != 2
  {
    var n := |d.pending|;
    var k := Kept(cfg, n);
    var w, v := d.pending[n - 2], d.pending[n - 1];
    if k == 0 {
      order := Reversed(n);
      assert Picked(d.pending, order[..k]) == [];
      EmptyQueueShowsMedium(d.medium);
    } else if k == 1 {
      order := Turned(n);
      KeptOnFront(d.medium, d.pending, order, k);
      assert w.Covers(0);
    } else {
      order := Reversed(n);
      KeptOnFront(d.medium, d.pending, order, k);
      assert [v, w][..1] == [v] && w.Covers(0);
    }
  }

  /** Only empty writes so far. */
  ghost predicate Padded(cfg: Config, d: Drive) {
    && d.Valid(cfg) && !d.crashed && d.medium == [0] && d.pendingBytes == 0 && |d.pending| == d.writes
    && forall w :: w in d.pending ==> w.data == [] && w.off == 0
  }

  lemma PadOne(cfg: Config, d: Drive, c: Choice)
    requires Padded(cfg, d) && cfg.cacheBytes > 0 && !d.PowerIsOff(cfg) && Legal(d, c)
    ensures var e := Write(cfg, d, 0, [], c).0; Padded(cfg, e) && e.writes == d.writes + 1
  {
    WriteKeeps(cfg, d, 0, [], c);
  }

  /** The first of the two writes. */
  lemma FirstWrite(cfg: Config, d: Drive, c: Choice)
    requires Padded(cfg, d) && cfg.cacheBytes > 0 && !d.PowerIsOff(cfg) && Legal(d, c)
    ensures var e := Write(cfg, d, 0, [1], c).0;
            e.Valid(cfg) && e == Append(d.(writes := d.writes + 1), PendingWrite(d.writes, 0, [1]))
  {
    WriteKeeps(cfg, d, 0, [1], c);
  }

  /** A draw that spares the last. */
  lemma Sparing(n: nat) returns (marks: seq<bool>)
    requires n >= 2
    ensures |marks| == n && CountMarks(marks) == Victims(n) && !marks[n - 1]
  {
    marks := Draw(n, Victims(n), n - 1, n);
  }

  /** Making room takes empty writes alone. */
  lemma SparedEvict(d: Drive, q: seq<PendingWrite>, w: PendingWrite, marks: seq<bool>)
    requires d.pending == q + [w] && d.medium == [0] && w.off == 0 && w.data == [1] && |marks| == |d.pending|
    requires (forall v :: v in q ==> v.data == [] && v.off == 0) && !marks[|q|]
    ensures var e := Evict(d, marks);
            && e.1 == OK && e.0.medium == [0] && e.0.crashed == d.crashed && e.0.writes == d.writes
            && e.0.pending != [] && e.0.pending[|e.0.pending| - 1] == w
            && forall j :: 0 <= j < |e.0.pending| - 1 ==> e.0.pending[j].data == []
  {
    hide View, Total;
    AllFitNotBad(d.medium, d.pending, marks, 0);
    assert d.pending[..|q|] == q;
    SelectFromQueue(q, marks[..|q|], true);
    SelectFromQueue(q, marks[..|q|], false);
    assert Select(d.pending, marks, true) == Select(q, marks[..|q|], true);
    assert Select(d.pending, marks, false) == Select(q, marks[..|q|], false) + [w];
    BlankView(d.medium, Select(q, marks[..|q|], true));
  }

  /** The second, made with room or after making some. */
  lemma SecondWrite(cfg: Config, d: Drive, w: PendingWrite) returns (c: Choice)
    requires Padded(cfg, d) && cfg.cacheBytes > 0 && w == PendingWrite(d.writes, 0, [1])
    requires cfg.cacheBytes >= 2 || d.pending != []
    requires var e := Append(d.(writes := d.writes + 1), w); e.Valid(cfg) && !e.PowerIsOff(cfg)
    ensures var e := Append(d.(writes := d.writes + 1), w);
            Legal(e, c) && TwiceWritten(Write(cfg, e, 0, [2], c).0)
            && Write(cfg, e, 0, [2], c).0.writes == e.writes + 1 && !Write(cfg, e, 0, [2], c).0.crashed
  {
    var e := Append(d.(writes := d.writes + 1), w);
    c := AnyChoice(e);
    hide View, Total;
    if Evicts(cfg, e, [2]) {
      var marks := Sparing(|e.pending|);
      c := Choice(marks, c.order);
      SparedEvict(e.(writes := e.writes + 1), d.pending, w, marks);
    }
    hide Evict;
  }

  /** Empty writes until two are left, then those two, the flush and the cut. */
  lemma {:induction false} LongRun(cfg: Config, d: Drive, h: History, k: nat) returns (actions: seq<Action>)
    requires Padded(cfg, d) && !Honest(cfg) && d.writes + k + 2 == cfg.failAfter
    requires cfg.cacheBytes >= 2 || d.pending != [] || k > 0
    ensures Loses(cfg, d, h, actions)
    decreases k
  {
    var c := AnyChoice(d);
    if k > 0 {
      var a := WriteAction(0, [], c);
      PadOne(cfg, d, c);
      hide Write, Padded, Loses;
      assert |Do(cfg, d, a).0.pending| > 0 by { PaddedLength(cfg, Do(cfg, d, a).0); }
      var more := LongRun(cfg, Do(cfg, d, a).0, Note(cfg, d, h, a), k - 1);
      Prepend(cfg, d, h, a, more);
      actions := [a] + more;
    } else {
      actions := TwoWritesLose(cfg, d, h, c);
    }
  }

  lemma PaddedLength(cfg: Config, d: Drive)
    requires Padded(cfg, d)
    ensures |d.pending| == d.writes
  {}

  lemma TwoWritesLose(cfg: Config, d: Drive, h: History, c: Choice) returns (actions: seq<Action>)
    requires Padded(cfg, d) && !Honest(cfg) && d.writes + 2 == cfg.failAfter && Legal(d, c)
    requires cfg.cacheBytes >= 2 || d.pending != []
    ensures Loses(cfg, d, h, actions)
  {
    var w := PendingWrite(d.writes, 0, [1]);
    var a := WriteAction(0, [1], c);
    FirstWrite(cfg, d, c);
    var e := Do(cfg, d, a).0;
    var c' := SecondWrite(cfg, d, w);
    var b := WriteAction(0, [2], c');
    WriteKeeps(cfg, e, 0, [2], c');
    var f := Do(cfg, e, b).0;
    TwiceSeen(f);
    var order := SomeOrderLoses(cfg, f);
    hide Write, Loses, TwiceWritten, Crash;
    var g := Note(cfg, d, h, a);
    var more := FlushThenCut(cfg, f, Note(cfg, e, g, b), order);
    Prepend(cfg, e, g, b, more);
    Prepend(cfg, d, h, a, [b] + more);
    actions := [a] + ([b] + more);
  }

  /** One write, none of it kept. */
  lemma OneWriteLoses(cfg: Config) returns (actions: seq<Action>)
    requires cfg.Valid() && !Honest(cfg) && cfg.failAfter == 1 && cfg.reorderDrop == 100
    ensures Loses(cfg, BLANK, History([0], []), actions)
  {
    LiarHolds();
    assert Do(cfg, BLANK, FIRST).0 == HOLDING;
    assert HOLDING.Valid(cfg);
    var order := [0];
    assert Picked([HELD], order[..0]) == [];
    EmptyQueueShowsMedium([0]);
    var g := Note(cfg, BLANK, History([0], []), FIRST);
    var more := FlushThenCut(cfg, HOLDING, g, order);
    Prepend(cfg, BLANK, History([0], []), FIRST, more);
    actions := [FIRST] + more;
  }

  /** One byte and an empty write, of which the empty one may be kept. */
  lemma TwoWritesLoseOne(cfg: Config) returns (actions: seq<Action>)
    requires cfg.Valid() && !Honest(cfg) && cfg.failAfter == 2 && cfg.cacheBytes == 1 && cfg.reorderDrop >= 50
    ensures Loses(cfg, BLANK, History([0], []), actions)
  {
    LiarHolds();
    assert Do(cfg, BLANK, FIRST).0 == HOLDING;
    var c := Choice([true], [0]);
    assert [true][..0] == [];
    var z, a := PendingWrite(1, 0, []), WriteAction(0, [], c);
    var d := Drive([0], [HELD, z], 1, 2, false);
    assert Possible(HOLDING, a) && Do(cfg, HOLDING, a).0 == d;
    assert [HELD, z][..1] == [HELD] && HELD.Covers(0);
    WriteKeeps(cfg, HOLDING, 0, [], c);
    var order := [1, 0];
    OneOrNone(cfg, d);
    var g := Note(cfg, BLANK, History([0], []), FIRST);
    hide Write, Crash, View;
    var more := FlushThenCut(cfg, d, Note(cfg, HOLDING, g, a), order);
    Prepend(cfg, HOLDING, g, a, more);
    Prepend(cfg, BLANK, History([0], []), FIRST, [a] + more);
    actions := [FIRST] + ([a] + more);
  }

  lemma OneOrNone(cfg: Config, d: Drive)
    requires cfg.Valid() && cfg.reorderDrop >= 50
    requires d == Drive([0], [HELD, PendingWrite(1, 0, [])], 1, 2, false)
    ensures Crash(cfg, d, [1, 0]).medium[0] == 0 && d.Seen()[0] == 1
  {
    var ws, k := d.pending, Kept(cfg, 2);
    assert k <= 1;
    var kept := Picked(ws, [1, 0][..k]);
    assert kept == if k == 0 then [] else [ws[1]];
    BlankView(d.medium, kept);
    assert ws[..1] == [HELD] && HELD.Covers(0) && !ws[1].Covers(0);
    assert d.Seen()[0] == Newest(ws, 0, 0) == Newest([HELD], 0, 0);
  }

  lemma LongLoses(cfg: Config) returns (actions: seq<Action>)
    requires cfg.Valid() && !Honest(cfg) && !TooShortToLose(cfg)
    ensures Loses(cfg, BLANK, History([0], []), actions)
  {
    if cfg.failAfter == 1 {
      actions := OneWriteLoses(cfg);
    } else if cfg.failAfter == 2 && cfg.cacheBytes == 1 {
      actions := TwoWritesLoseOne(cfg);
    } else {
      TotalOfNone();
      actions := LongRun(cfg, BLANK, History([0], []), cfg.failAfter - 2);
    }
  }

  // ---- Exactly which drives are safe ----

  /** One configuration: safe exactly when it honours barriers, or has no cache, or its queue is too short when the
      power goes. */
  lemma SafeAtTheCutIff(cfg: Config)
    requires cfg.Valid()
    ensures SafeAtTheCut(cfg) <==> !cfg.ignoreBarriers || cfg.cacheBytes == 0 || TooShortToLose(cfg)
  {
    hide Run, View, AllExplained, TooShortToLose;
    if Honest(cfg) {
      forall m: seq<byte>, actions: seq<Action>
        ensures AllExplained(Run(cfg, NewDrive(m), History(m, []), actions).0.medium,
                             Run(cfg, NewDrive(m), History(m, []), actions).1)
      {
        NewIsSafe(cfg, m);
        CrashSafety(cfg, NewDrive(m), History(m, []), actions);
      }
    } else if TooShortToLose(cfg) {
      ShortIsSafe(cfg);
    } else {
      var actions := LongLoses(cfg);
      assert NewDrive([0]) == BLANK;
    }
  }

  /** Whenever the power goes and however much of the queue is lost: exactly barriers honoured, or no cache. */
  lemma SafeAtEveryCutIff(cfg: Config)
    requires cfg.Valid()
    ensures SafeAtEveryCut(cfg) <==> !cfg.ignoreBarriers || cfg.cacheBytes == 0
  {
    hide SafeAtTheCut;
    forall after: int, drop: nat | drop <= 100
      ensures var other := cfg.(failAfter := after, reorderDrop := drop);
              SafeAtTheCut(other) <==> !cfg.ignoreBarriers || cfg.cacheBytes == 0 || TooShortToLose(other)
    {
      SafeAtTheCutIff(cfg.(failAfter := after, reorderDrop := drop));
    }
    var worst := cfg.(failAfter := 1, reorderDrop := 100);
    assert SafeAtEveryCut(cfg) ==> SafeAtTheCut(worst);
  }
}

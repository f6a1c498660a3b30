/**
 A drive with a volatile write cache (tools/ext4dump.c): write, evict, barrier, power cut. Every choice the model
 makes at random there (which half to evict, in which order a dying drive commits) is an argument here, and every
 theorem holds for all of them.
 */
module DriveCache {
  import opened Bytes
  import opened Errno
  import BlockDevice
  import opened DriveQueue

  /** `align` 0 or 1 means any transfer is accepted; a negative `failAfter` means the power stays on. */
  datatype Config = Config(align: nat, failAfter: int, cacheBytes: nat, reorderDrop: nat, ignoreBarriers: bool) {
    predicate Valid() {
      reorderDrop <= 100
    }
  }

  datatype Drive = Drive(medium: seq<byte>, pending: seq<PendingWrite>, pendingBytes: nat, writes: nat, crashed: bool) {

    /** What a reader sees. */
    function Seen(): seq<byte> {
      View(medium, pending)
    }

    ghost predicate Valid(cfg: Config) {
      && cfg.Valid()
      && pendingBytes == Total(pending)
      && (crashed ==> pending == [] && PowerIsOff(cfg))
      && (cfg.cacheBytes == 0 ==> pending == [])
    }

    predicate PowerIsOff(cfg: Config) {
      cfg.failAfter >= 0 && writes >= cfg.failAfter
    }
  }

  predicate Fits(m: seq<byte>, w: PendingWrite) {
    w.off + |w.data| <= |m|
  }

  predicate AllFit(m: seq<byte>, ws: seq<PendingWrite>) {
    forall w :: w in ws ==> Fits(m, w)
  }

  // ---- The choices ----

  function CountMarks(marks: seq<bool>): nat {
    if marks == [] then 0 else CountMarks(marks[..|marks| - 1]) + if marks[|marks| - 1] then 1 else 0
  }

  /** Half the queue, or all of it when half is nothing. */
  function Victims(n: nat): nat {
    if n / 2 == 0 then n else n / 2
  }

  ghost predicate Permutation(order: seq<nat>, n: nat) {
    |order| == n && (forall i :: 0 <= i < n ==> order[i] < n) && forall i, j :: 0 <= i < j < n ==> order[i] != order[j]
  }

  datatype Choice = Choice(marks: seq<bool>, order: seq<nat>)

  ghost predicate Legal(d: Drive, c: Choice) {
    |c.marks| == |d.pending| && CountMarks(c.marks) == Victims(|d.pending|) && Permutation(c.order, |d.pending|)
  }

  // ---- The operations ----

  /** The first marked write that does not fit, from i on, or the end of the queue. */
  function FirstBad(m: seq<byte>, ws: seq<PendingWrite>, marks: seq<bool>, i: nat): (k: nat)
    requires |marks| == |ws| && i <= |ws|
    ensures i <= k <= |ws|
    decreases |ws| - i
  {
    if i == |ws| || (marks[i] && !Fits(m, ws[i])) then i else FirstBad(m, ws, marks, i + 1)
  }

  /** `cache_evict`: the marked writes go to the medium in issue order and leave the queue. If one cannot be
      written, what came before it has landed and the whole queue stays. */
  function Evict(d: Drive, marks: seq<bool>): (Drive, int)
    requires |marks| == |d.pending|
  {
    var k := FirstBad(d.medium, d.pending, marks, 0);
    if k == |d.pending| then
      (d.(medium := View(d.medium, Select(d.pending, marks, true)), pending := Select(d.pending, marks, false),
          pendingBytes := Total(Select(d.pending, marks, false))), OK)
    else
      (d.(medium := View(d.medium, Select(d.pending[..k + 1], marks[..k + 1], true))), EIO)
  }

  function Append(d: Drive, w: PendingWrite): Drive {
    d.(pending := d.pending + [w], pendingBytes := d.pendingBytes + |w.data|)
  }

  /** `cache_commit`: everything pending reaches the medium in order, and the queue is empty either way. */
  function Commit(d: Drive): (Drive, int) {
    (d.(medium := View(d.medium, d.pending), pending := [], pendingBytes := 0),
     if AllFit(d.medium, d.pending) then OK else EIO)
  }

  function Picked(ws: seq<PendingWrite>, order: seq<nat>): seq<PendingWrite>
    requires forall i :: 0 <= i < |order| ==> order[i] < |ws|
  {
    seq(|order|, k requires 0 <= k < |order| => ws[order[k]])
  }

  /** How many pending writes a dying drive still commits. */
  function Kept(cfg: Config, n: nat): (k: nat)
    requires cfg.Valid()
    ensures k <= n
  {
    KeptIsNat(n, cfg.reorderDrop);
    n - n * cfg.reorderDrop / 100
  }

  lemma KeptIsNat(n: nat, drop: nat)
    requires drop <= 100
    ensures n * drop / 100 <= n
  {
    assert n * drop <= n * 100;
  }

  /** `cache_crash`: a prefix of some permutation of the queue reaches the medium; the rest is gone. */
  function Crash(cfg: Config, d: Drive, order: seq<nat>): Drive
    requires cfg.Valid() && |order| == |d.pending| && forall i :: 0 <= i < |order| ==> order[i] < |d.pending|
  {
    if d.pending == [] then d
    else
      var kept := Picked(d.pending, order[..Kept(cfg, |d.pending|)]);
      d.(medium := View(d.medium, kept), pending := [], pendingBytes := 0)
  }

  /** `aligned_pwrite`, past the cache. */
  function DirectWrite(cfg: Config, m: seq<byte>, w: PendingWrite): (seq<byte>, int) {
    if cfg.align <= 1 || (w.off % cfg.align == 0 && |w.data| % cfg.align == 0) then
      (View(m, [w]), if Fits(m, w) then OK else EIO)
    else if BlockDevice.Fits(m, cfg.align, w.off, |w.data|) then
      (BlockDevice.BridgeWrite(m, cfg.align, w.off, w.data), OK)
    else (m, EIO)
  }

  /** The cache is full, so this write makes room first. */
  predicate Evicts(cfg: Config, d: Drive, data: seq<byte>) {
    d.pendingBytes + |data| > cfg.cacheBytes && d.pending != []
  }

  /** `file_write`. From the cut on, writes succeed and are lost; at the cut the queue is committed in part. */
  function Write(cfg: Config, d: Drive, off: nat, data: seq<byte>, c: Choice): (Drive, int)
    requires cfg.Valid() && |c.marks| == |d.pending| && |c.order| == |d.pending|
    requires forall i :: 0 <= i < |c.order| ==> c.order[i] < |d.pending|
  {
    if d.PowerIsOff(cfg) then
      var cut := if !d.crashed && cfg.cacheBytes > 0 then Crash(cfg, d, c.order) else d;
      (cut.(crashed := true, writes := d.writes + 1), OK)
    else
      var counted := d.(writes := d.writes + 1);
      var w := PendingWrite(d.writes, off, data);
      if cfg.cacheBytes > 0 then
        if Evicts(cfg, d, data) then
          var (e, rc) := Evict(counted, c.marks);
          if rc != OK then (e, EIO) else (Append(e, w), OK)
        else (Append(counted, w), OK)
      else
        var (m, rc) := DirectWrite(cfg, d.medium, w);
        (counted.(medium := m), rc)
  }

  /** `file_flush`. A drive that lies about its cache answers OK and does nothing. */
  function Flush(cfg: Config, d: Drive): (Drive, int) {
    if d.crashed || cfg.cacheBytes == 0 || cfg.ignoreBarriers then (d, OK) else Commit(d)
  }

  // ---- What each operation keeps ----

  lemma {:induction false} SelectFromQueue(ws: seq<PendingWrite>, marks: seq<bool>, v: bool)
    requires |marks| == |ws|
    ensures forall w :: w in Select(ws, marks, v) ==> w in ws
  {
    if ws != [] {
      SelectFromQueue(ws[..|ws| - 1], marks[..|ws| - 1], v);
    }
  }

  lemma {:induction false} CoveredMember(ws: seq<PendingWrite>, b: nat)
    ensures Covered(ws, b) <==> exists w :: w in ws && w.Covers(b)
  {
    if ws != [] {
      CoveredMember(ws[..|ws| - 1], b);
      assert ws == ws[..|ws| - 1] + [ws[|ws| - 1]];
    }
  }

  /** Writing part of the queue to the medium while all of it stays queued changes no read. */
  lemma EarlyWritesInvisible(m: seq<byte>, early: seq<PendingWrite>, ws: seq<PendingWrite>)
    requires forall w :: w in early ==> w in ws
    ensures View(View(m, early), ws) == View(m, ws)
  {
    forall b: nat | b < |m| ensures View(View(m, early), ws)[b] == View(m, ws)[b] {
      CoveredMember(early, b);
      CoveredMember(ws, b);
      CoveredHidesMedium(ws, b, m[b], Newest(early, b, m[b]));
      CoveredHidesMedium(early, b, m[b], m[b]);
    }
  }

  lemma EvictKeeps(cfg: Config, d: Drive, marks: seq<bool>)
    requires d.Valid(cfg) && !d.crashed && cfg.cacheBytes > 0 && |marks| == |d.pending|
    ensures Evict(d, marks).0.Valid(cfg)
    ensures Evict(d, marks).1 == OK && NeverStale(d.medium, d.pending, marks) ==> Evict(d, marks).0.Seen() == d.Seen()
    ensures Evict(d, marks).1 != OK ==> Evict(d, marks).0.Seen() == d.Seen() && Evict(d, marks).0.pending == d.pending
    ensures Evict(d, marks).0.writes == d.writes && !Evict(d, marks).0.crashed
    ensures |Evict(d, marks).0.medium| == |d.medium|
  {
    hide Select, View, Total;
    var k := FirstBad(d.medium, d.pending, marks, 0);
    if k == |d.pending| {
      if NeverStale(d.medium, d.pending, marks) {
        FreshEvictionKeepsView(d.medium, d.pending, marks);
      }
    } else {
      SelectFromQueue(d.pending[..k + 1], marks[..k + 1], true);
      EarlyWritesInvisible(d.medium, Select(d.pending[..k + 1], marks[..k + 1], true), d.pending);
    }
  }

  lemma AppendShows(d: Drive, w: PendingWrite)
    ensures Append(d, w).Seen() == View(d.Seen(), [w])
    ensures d.pendingBytes == Total(d.pending) ==> Append(d, w).pendingBytes == Total(Append(d, w).pending)
  {
    hide View, Total;
    ViewConcat(d.medium, d.pending, [w]);
    TotalSnoc(d.pending, w);
  }

  lemma DirectWriteShows(cfg: Config, m: seq<byte>, w: PendingWrite)
    ensures DirectWrite(cfg, m, w).1 == OK ==> DirectWrite(cfg, m, w).0 == View(m, [w])
    ensures DirectWrite(cfg, m, w).0 in {m, View(m, [w])}
  {
    if cfg.align > 1 && BlockDevice.Fits(m, cfg.align, w.off, |w.data|) {
      BlockDevice.BridgeIsFlat(m, cfg.align, w.off, w.data);
      ViewOfOne(m, w);
    }
  }

  /** A write keeps the drive's books; and while the power is on it shows, unless it failed, over everything
      shown before, provided the eviction it caused left no byte stale. */
  lemma WriteKeeps(cfg: Config, d: Drive, off: nat, data: seq<byte>, c: Choice)
    requires d.Valid(cfg) && Legal(d, c)
    ensures var (e, rc) := Write(cfg, d, off, data, c);
            && e.Valid(cfg) && |e.medium| == |d.medium|
            && (!d.PowerIsOff(cfg) && rc == OK
                && (Evicts(cfg, d, data) ==> NeverStale(d.medium, d.pending, c.marks)) ==>
                  e.Seen() == View(d.Seen(), [PendingWrite(d.writes, off, data)]))
            && (cfg.cacheBytes > 0 && rc != OK ==> e.Seen() == d.Seen())
  {
    hide Select, View, Total, Evict, DirectWrite, Crash, FirstBad;
    if !d.PowerIsOff(cfg) {
      var w := PendingWrite(d.writes, off, data);
      var counted := d.(writes := d.writes + 1);
      if cfg.cacheBytes > 0 {
        if Evicts(cfg, d, data) {
          EvictKeeps(cfg, counted, c.marks);
          AppendShows(Evict(counted, c.marks).0, w);
        } else {
          AppendShows(counted, w);
        }
      } else {
        DirectWriteShows(cfg, d.medium, w);
        EmptyQueueShowsMedium(d.medium);
        EmptyQueueShowsMedium(DirectWrite(cfg, d.medium, w).0);
      }
    } else {
      CrashKeeps(cfg, d, c.order);
    }
  }

  lemma EmptyQueueShowsMedium(m: seq<byte>)
    ensures View(m, []) == m
  {}

  lemma CrashKeeps(cfg: Config, d: Drive, order: seq<nat>)
    requires cfg.Valid() && d.pendingBytes == Total(d.pending) && Permutation(order, |d.pending|)
    ensures Crash(cfg, d, order).pending == [] && Crash(cfg, d, order).pendingBytes == Total([])
    ensures |Crash(cfg, d, order).medium| == |d.medium|
  {}

  // ---- Runs ----

  datatype Action = WriteAction(off: nat, data: seq<byte>, choice: Choice) | FlushAction

  ghost predicate Possible(d: Drive, a: Action) {
    a.WriteAction? ==> Legal(d, a.choice)
  }

  function Do(cfg: Config, d: Drive, a: Action): (Drive, int)
    requires cfg.Valid()
    requires a.WriteAction? ==> |a.choice.marks| == |d.pending| == |a.choice.order|
    requires a.WriteAction? ==> forall i :: 0 <= i < |a.choice.order| ==> a.choice.order[i] < |d.pending|
  {
    match a
    case WriteAction(off, data, choice) => Write(cfg, d, off, data, choice)
    case FlushAction => Flush(cfg, d)
  }

  /** What the owner of the data may count on: what every reader saw when a flush last answered OK, and the
      writes issued since, before the power went. */
  datatype History = History(base: seq<byte>, since: seq<PendingWrite>)

  function Note(cfg: Config, d: Drive, h: History, a: Action): History
    requires cfg.Valid()
  {
    match a
    case WriteAction(off, data, _) =>
      if d.PowerIsOff(cfg) then h else h.(since := h.since + [PendingWrite(d.writes, off, data)])
    case FlushAction =>
      if !d.crashed && Flush(cfg, d).1 == OK then History(d.Seen(), []) else h
  }

  /** A drive after a run, with what its owner may count on; the run stops at an action that is not possible. */
  ghost function Run(cfg: Config, d: Drive, h: History, actions: seq<Action>): (Drive, History)
    requires cfg.Valid()
    decreases |actions|
  {
    if actions == [] || !Possible(d, actions[0]) then (d, h)
    else Run(cfg, Do(cfg, d, actions[0]).0, Note(cfg, d, h, actions[0]), actions[1..])
  }

  /** Byte b of the medium is its value at the last barrier, or came from a write issued since that covers it. */
  ghost predicate Explained(m: seq<byte>, h: History, b: nat)
    requires b < |m| == |h.base|
  {
    m[b] == h.base[b] || exists w :: w in h.since && w.Covers(b) && w.At(b) == m[b]
  }

  ghost predicate AllExplained(m: seq<byte>, h: History) {
    |m| == |h.base| && forall b: nat :: b < |m| ==> Explained(m, h, b)
  }

  ghost predicate Safe(d: Drive, h: History) {
    AllExplained(d.medium, h) && forall w :: w in d.pending ==> w in h.since
  }

  lemma ViewExplained(m: seq<byte>, ws: seq<PendingWrite>, h: History)
    requires AllExplained(m, h) && forall w :: w in ws ==> w in h.since
    ensures AllExplained(View(m, ws), h)
  {
    forall b: nat | b < |m| ensures Explained(View(m, ws), h, b) {
      NewestIsFromSomewhere(ws, b, m[b]);
      assert Explained(m, h, b);
    }
  }

  lemma MoreSince(m: seq<byte>, h: History, w: PendingWrite)
    requires AllExplained(m, h)
    ensures AllExplained(m, h.(since := h.since + [w]))
  {
    forall b: nat | b < |m| ensures Explained(m, h.(since := h.since + [w]), b) {
      assert Explained(m, h, b);
    }
  }

  lemma CrashSafe(cfg: Config, d: Drive, h: History, order: seq<nat>)
    requires cfg.Valid() && Safe(d, h) && Permutation(order, |d.pending|)
    ensures Safe(Crash(cfg, d, order), h)
  {
    if d.pending != [] {
      ViewExplained(d.medium, Picked(d.pending, order[..Kept(cfg, |d.pending|)]), h);
    }
  }

  lemma EvictSafe(d: Drive, h: History, marks: seq<bool>)
    requires Safe(d, h) && |marks| == |d.pending|
    ensures Safe(Evict(d, marks).0, h)
  {
    hide Select, View;
    var k := FirstBad(d.medium, d.pending, marks, 0);
    if k == |d.pending| {
      SelectFromQueue(d.pending, marks, true);
      SelectFromQueue(d.pending, marks, false);
      ViewExplained(d.medium, Select(d.pending, marks, true), h);
    } else {
      SelectFromQueue(d.pending[..k + 1], marks[..k + 1], true);
      ViewExplained(d.medium, Select(d.pending[..k + 1], marks[..k + 1], true), h);
    }
  }

  /** A flush that answers OK leaves nothing to be lost. */
  predicate Honest(cfg: Config) {
    !cfg.ignoreBarriers || cfg.cacheBytes == 0
  }

  lemma StepSafe(cfg: Config, d: Drive, h: History, a: Action)
    requires d.Valid(cfg) && Honest(cfg) && Safe(d, h) && Possible(d, a)
    ensures Do(cfg, d, a).0.Valid(cfg) && Safe(Do(cfg, d, a).0, Note(cfg, d, h, a))
  {
    hide View, Total, Evict, DirectWrite, Crash, Explained;
    match a
    case WriteAction(off, data, choice) =>
      WriteKeeps(cfg, d, off, data, choice);
      if d.PowerIsOff(cfg) {
        CrashSafe(cfg, d, h, choice.order);
      } else {
        var w := PendingWrite(d.writes, off, data);
        var more := Note(cfg, d, h, a);
        MoreSince(d.medium, h, w);
        EvictSafe(d.(writes := d.writes + 1), more, choice.marks);
        DirectWriteShows(cfg, d.medium, w);
        ViewExplained(d.medium, [w], more);
      }
    case FlushAction =>
      ViewExplained(d.medium, d.pending, h);
      EmptyQueueShowsMedium(d.medium);
      FreshBarrier(d.Seen());
      assert Total([]) == 0 by { TotalOfNone(); }
  }

  lemma FreshBarrier(m: seq<byte>)
    ensures AllExplained(m, History(m, []))
  {}

  lemma TotalOfNone()
    ensures Total([]) == 0
  {}

  /** Crash safety, over every run: with barriers honoured, or no cache, whatever was evicted, and wherever the power
      went, every byte of the medium is what it was when a flush last answered OK, or what some write issued since put
      there. */
  lemma {:induction false} CrashSafety(cfg: Config, d: Drive, h: History, actions: seq<Action>)
    requires d.Valid(cfg) && Honest(cfg) && Safe(d, h)
    ensures Run(cfg, d, h, actions).0.Valid(cfg)
    ensures Safe(Run(cfg, d, h, actions).0, Run(cfg, d, h, actions).1)
    decreases |actions|
  {
    hide Do, Note, Safe;
    if actions != [] && Possible(d, actions[0]) {
      StepSafe(cfg, d, h, actions[0]);
      CrashSafety(cfg, Do(cfg, d, actions[0]).0, Note(cfg, d, h, actions[0]), actions[1..]);
    }
  }

  /** Nothing reaches the medium after the cut. */
  lemma {:induction false} NothingAfterTheCut(cfg: Config, d: Drive, h: History, actions: seq<Action>)
    requires d.Valid(cfg) && d.crashed
    ensures Run(cfg, d, h, actions).0.medium == d.medium && Run(cfg, d, h, actions).1 == h
    decreases |actions|
  {
    if actions != [] && Possible(d, actions[0]) {
      NothingAfterTheCut(cfg, Do(cfg, d, actions[0]).0, Note(cfg, d, h, actions[0]), actions[1..]);
    }
  }

  /** An honoured barrier that answers OK: the medium now holds what every reader sees, and that has not changed. */
  lemma BarrierIsDurable(cfg: Config, d: Drive)
    requires d.Valid(cfg) && !d.crashed && !cfg.ignoreBarriers
    ensures var (e, rc) := Flush(cfg, d);
            && e.Valid(cfg) && e.Seen() == d.Seen()
            && e.medium == d.Seen() && e.pending == []
            && (rc == OK <==> AllFit(d.medium, d.pending))
  {
    hide View;
    EmptyQueueShowsMedium(d.medium);
    EmptyQueueShowsMedium(d.Seen());
    TotalOfNone();
  }

  /** A step after which reads still see the latest bytes written: the power is on, nothing failed, and an eviction
      left no byte stale. */
  ghost predicate Clean(cfg: Config, d: Drive, a: Action)
    requires d.Valid(cfg) && Possible(d, a)
  {
    match a
    case WriteAction(off, data, choice) =>
      && !d.PowerIsOff(cfg) && Write(cfg, d, off, data, choice).1 == OK
      && (Evicts(cfg, d, data) ==> NeverStale(d.medium, d.pending, choice.marks))
    case FlushAction => !d.crashed
  }

  /** A run that ends with the drive at e, every step of it clean. */
  ghost predicate CleanRun(cfg: Config, d: Drive, actions: seq<Action>, e: Drive)
    requires d.Valid(cfg)
    decreases |actions|
  {
    if actions == [] then d == e
    else
      && Possible(d, actions[0]) && Clean(cfg, d, actions[0])
      && Do(cfg, d, actions[0]).0.Valid(cfg)
      && CleanRun(cfg, Do(cfg, d, actions[0]).0, actions[1..], e)
  }

  /** The writes of a run, against a plain array. */
  function Flat(m: seq<byte>, actions: seq<Action>): seq<byte>
    decreases |actions|
  {
    if actions == [] then m
    else
      var a := actions[0];
      Flat(if a.WriteAction? then View(m, [PendingWrite(0, a.off, a.data)]) else m, actions[1..])
  }

  lemma SeqnoIsALabel(m: seq<byte>, i: int, j: int, off: nat, data: seq<byte>)
    ensures View(m, [PendingWrite(i, off, data)]) == View(m, [PendingWrite(j, off, data)])
  {
    var v, w := PendingWrite(i, off, data), PendingWrite(j, off, data);
    forall b: nat | b < |m| ensures View(m, [v])[b] == View(m, [w])[b] {
      Snoc([], v, b);
      Snoc([], w, b);
      assert [] + [v] == [v] && [] + [w] == [w];
    }
  }

  /** Read your writes, over every clean run: what is read is what a plain array would hold, however much of it is
      still in the cache and in whatever order the rest reached the medium. */
  lemma {:induction false} ReadYourWrites(cfg: Config, d: Drive, actions: seq<Action>, e: Drive)
    requires d.Valid(cfg) && CleanRun(cfg, d, actions, e)
    ensures e.Seen() == Flat(d.Seen(), actions)
    decreases |actions|
  {
    if actions != [] {
      var a := actions[0];
      var next := Do(cfg, d, a).0;
      CleanStepShows(cfg, d, a);
      hide View, Do, Clean, Possible;
      ReadYourWrites(cfg, next, actions[1..], e);
    }
  }

  lemma CleanStepShows(cfg: Config, d: Drive, a: Action)
    requires d.Valid(cfg) && Possible(d, a) && Clean(cfg, d, a)
    ensures Do(cfg, d, a).0.Seen() ==
            if a.WriteAction? then View(d.Seen(), [PendingWrite(0, a.off, a.data)]) else d.Seen()
  {
    hide View, Write;
    match a
    case WriteAction(off, data, choice) =>
      WriteKeeps(cfg, d, off, data, choice);
      SeqnoIsALabel(d.Seen(), 0, d.writes, off, data);
    case FlushAction =>
      EmptyQueueShowsMedium(d.Seen());
  }

  // A drive that ignores barriers: one write, a flush that answers OK, the cut.

  const LIAR := Config(0, 1, 10, 100, true)
  const HELD := PendingWrite(0, 0, [1])
  const BLANK := Drive([0], [], 0, 0, false)
  const HOLDING := Drive([0], [HELD], 1, 1, false)
  const CUT := Drive([0], [], 0, 2, true)
  const FIRST := WriteAction(0, [1], Choice([], []))
  const SECOND := WriteAction(0, [2], Choice([true], [0]))

  lemma LiarHolds()
    ensures BLANK.Valid(LIAR) && Possible(BLANK, FIRST) && Do(LIAR, BLANK, FIRST).0 == HOLDING
    ensures Possible(HOLDING, FlushAction) && HOLDING.Seen() == [1] && Total([HELD]) == 1
  {
    Snoc([], HELD, 0);
    assert [] + [HELD] == [HELD] && [HELD][..0] == [];
  }

  lemma LiarDrops()
    ensures Possible(HOLDING, SECOND) && Do(LIAR, HOLDING, SECOND).0 == CUT
  {
    assert [true][..0] == [];
    assert Kept(LIAR, 1) == 0;
    EmptyQueueShowsMedium([0]);
    assert Picked([HELD], [0][..0]) == [];
  }

  /** What it promised at the flush is neither on the medium nor excused by a later write. */
  lemma LyingDriveIsNotSafe()
    ensures BLANK.Valid(LIAR) && Safe(BLANK, History([0], []))
    ensures var (d, h) := Run(LIAR, BLANK, History([0], []), [FIRST, FlushAction, SECOND]);
            d == CUT && h == History([1], []) && !Safe(d, h)
  {
    LiarHolds();
    LiarDrops();
    hide View, Write, Possible;
    var h1 := Note(LIAR, BLANK, History([0], []), FIRST);
    assert Note(LIAR, HOLDING, h1, FlushAction) == History([1], []);
    assert Do(LIAR, HOLDING, FlushAction).0 == HOLDING;
    assert [FIRST, FlushAction, SECOND][1..] == [FlushAction, SECOND];
    assert [FlushAction, SECOND][1..] == [SECOND] && [SECOND][1..] == [];
    assert Run(LIAR, HOLDING, History([1], []), [SECOND]) == (CUT, History([1], []));
    assert Run(LIAR, HOLDING, h1, [FlushAction, SECOND]) == (CUT, History([1], []));
    assert !Explained(CUT.medium, History([1], []), 0);
  }

  // ---- Reads that no draw can spoil ----

  /** No byte below n is covered by two of these writes. */
  ghost predicate Apart(ws: seq<PendingWrite>, n: nat) {
    forall i, j, b: nat :: 0 <= i < j < |ws| && b < n ==> !(ws[i].Covers(b) && ws[j].Covers(b))
  }

  /** What the drive may draw. */
  predicate Drawable(marks: seq<bool>, n: nat) {
    |marks| == n && CountMarks(marks) == Victims(n)
  }

  lemma OneMark(marks: seq<bool>, v: bool)
    ensures CountMarks(marks + [v]) == CountMarks(marks) + if v then 1 else 0
  {
    assert (marks + [v])[..|marks|] == marks;
  }

  /** A draw of v among n that takes j and leaves i; each is none when it is not below n. */
  lemma {:induction false} Draw(n: nat, v: nat, i: nat, j: nat) returns (marks: seq<bool>)
    requires i != j && v <= n && (j < n ==> 1 <= v) && (i < n ==> v < n)
    ensures |marks| == n && CountMarks(marks) == v && (j < n ==> marks[j]) && (i < n ==> !marks[i])
    decreases n
  {
    if n == 0 {
      marks := [];
    } else {
      hide CountMarks;
      var take := j == n - 1 || (i != n - 1 && v > if i < n - 1 then n - 2 else n - 1);
      var front := Draw(n - 1, if take then v - 1 else v, i, j);
      OneMark(front, take);
      marks := front + [take];
    }
  }

  /** A byte reads stale only when an older write that stays covers it with a newer one that goes. */
  lemma {:induction false} StaleNeedsTwo(ws: seq<PendingWrite>, marks: seq<bool>, b: nat)
    requires |marks| == |ws| && StaleAt(ws, marks, b)
    ensures exists i, j :: 0 <= i < j < |ws| && ws[i].Covers(b) && ws[j].Covers(b)
  {
    var n := |ws| - 1;
    if ws[n].Covers(b) {
      CoveredBySelected(ws[..n], marks[..n], b);
      var i :| 0 <= i < n && !marks[..n][i] && ws[..n][i].Covers(b);
      assert ws[i].Covers(b) && ws[n].Covers(b);
    } else {
      StaleNeedsTwo(ws[..n], marks[..n], b);
      var i, j :| 0 <= i < j < n && ws[..n][i].Covers(b) && ws[..n][j].Covers(b);
      assert ws[i].Covers(b) && ws[j].Covers(b);
    }
  }

  /** Two writes on one byte: some legal draw takes the newest such write and leaves an older one. */
  lemma {:induction false} StaleUnder(ws: seq<PendingWrite>, marks: seq<bool>, b: nat, i: nat, j: nat)
    requires |marks| == |ws| && i < j < |ws| && ws[i].Covers(b) && ws[j].Covers(b) && !marks[i] && marks[j]
    requires forall k :: j < k < |ws| ==> !ws[k].Covers(b)
    ensures StaleAt(ws, marks, b)
    decreases |ws|
  {
    var n := |ws| - 1;
    if j == n {
      SelectedCovers(ws[..n], marks[..n], b, i);
    } else {
      StaleUnder(ws[..n], marks[..n], b, i, j);
    }
  }

  lemma {:induction false} SelectedCovers(ws: seq<PendingWrite>, marks: seq<bool>, b: nat, i: nat)
    requires |marks| == |ws| && i < |ws| && ws[i].Covers(b) && !marks[i]
    ensures Covered(Select(ws, marks, false), b)
  {
    var n := |ws| - 1;
    SelectLast(ws, marks, false, b);
    hide Select, Covered;
    if i < n { SelectedCovers(ws[..n], marks[..n], b, i); }
  }

  lemma {:induction false} LastToCover(ws: seq<PendingWrite>, b: nat, j: nat) returns (k: nat)
    requires j < |ws| && ws[j].Covers(b)
    ensures j <= k < |ws| && ws[k].Covers(b) && forall l :: k < l < |ws| ==> !ws[l].Covers(b)
    decreases |ws| - j
  {
    if l :| j < l < |ws| && ws[l].Covers(b) {
      k := LastToCover(ws, b, l);
    } else {
      k := j;
    }
  }

  /** Whatever the drive draws and whatever was written, eviction changes no read, exactly when no byte of the medium is
      covered by two pending writes. */
  lemma EvictionNeverShowsIff(m: seq<byte>, ws: seq<PendingWrite>)
    ensures (forall marks :: Drawable(marks, |ws|) ==> Invisible(m, ws, marks)) <==> Apart(ws, |m|)
  {
    hide Invisible, StaleAt, CountMarks;
    if Apart(ws, |m|) {
      forall marks | Drawable(marks, |ws|) ensures Invisible(m, ws, marks) {
        EvictionInvisibleIff(m, ws, marks);
        ApartIsNeverStale(m, ws, marks);
      }
    } else {
      var i, j, b: nat :| 0 <= i < j < |ws| && b < |m| && ws[i].Covers(b) && ws[j].Covers(b);
      var k := LastToCover(ws, b, j);
      var marks := Draw(|ws|, Victims(|ws|), i, k);
      StaleUnder(ws, marks, b, i, k);
      EvictionInvisibleIff(m, ws, marks);
      assert Drawable(marks, |ws|);
    }
  }

  lemma ApartIsNeverStale(m: seq<byte>, ws: seq<PendingWrite>, marks: seq<bool>)
    requires |marks| == |ws| && Apart(ws, |m|)
    ensures NeverStale(m, ws, marks)
  {
    forall b: nat | b < |m| ensures !StaleAt(ws, marks, b) {
      if StaleAt(ws, marks, b) { StaleNeedsTwo(ws, marks, b); }
    }
  }

  /** Each write fits, and covers no byte that a write since the last honoured barrier covers. */
  ghost predicate Careful(cfg: Config, size: nat, since: seq<PendingWrite>, actions: seq<Action>)
    decreases |actions|
  {
    actions == [] ||
    match actions[0]
    case WriteAction(off, data, _) =>
      var w := PendingWrite(0, off, data);
      && off + |data| <= size
      && (forall v, b: nat :: v in since ==> !(v.Covers(b) && w.Covers(b)))
      && Careful(cfg, size, since + [w], actions[1..])
    case FlushAction => Careful(cfg, size, if cfg.ignoreBarriers then since else [], actions[1..])
  }

  /** A run that ends with the drive at e, whatever it drew. */
  ghost predicate Plays(cfg: Config, d: Drive, actions: seq<Action>, e: Drive)
    requires cfg.Valid()
    decreases |actions|
  {
    if actions == [] then d == e
    else Possible(d, actions[0]) && Plays(cfg, Do(cfg, d, actions[0]).0, actions[1..], e)
  }

  /** What is pending fits, was written since the last honoured barrier, and is nowhere covered twice. */
  ghost predicate Tidy(d: Drive, since: seq<PendingWrite>) {
    && AllFit(d.medium, d.pending) && Apart(d.pending, |d.medium|)
    && forall w :: w in d.pending ==> w.(seqno := 0) in since
  }

  lemma {:induction false} SelectKeepsApart(ws: seq<PendingWrite>, marks: seq<bool>, n: nat)
    requires |marks| == |ws| && Apart(ws, n)
    ensures Apart(Select(ws, marks, false), n)
  {
    if ws != [] {
      var k := |ws| - 1;
      assert Apart(ws[..k], n) by {
        forall i, j, b: nat | 0 <= i < j < k && b < n ensures !(ws[..k][i].Covers(b) && ws[..k][j].Covers(b)) {
          assert ws[i] == ws[..k][i];
        }
      }
      SelectKeepsApart(ws[..k], marks[..k], n);
      SelectFromQueue(ws[..k], marks[..k], false);
      ApartSnoc(Select(ws[..k], marks[..k], false), ws[k], n);
    }
  }

  lemma ApartSnoc(ws: seq<PendingWrite>, w: PendingWrite, n: nat)
    requires Apart(ws, n) && forall v, b: nat :: v in ws && b < n ==> !(v.Covers(b) && w.Covers(b))
    ensures Apart(ws + [w], n)
  {
    var all := ws + [w];
    forall i, j, b: nat | 0 <= i < j < |all| && b < n ensures !(all[i].Covers(b) && all[j].Covers(b)) {
      assert all[i] in ws;
      if j < |ws| { assert all[j] == ws[j]; }
    }
  }

  lemma {:induction false} AllFitNotBad(m: seq<byte>, ws: seq<PendingWrite>, marks: seq<bool>, i: nat)
    requires |marks| == |ws| && i <= |ws| && AllFit(m, ws)
    ensures FirstBad(m, ws, marks, i) == |ws|
    decreases |ws| - i
  {
    if i < |ws| { AllFitNotBad(m, ws, marks, i + 1); }
  }

  lemma TidyEvict(d: Drive, since: seq<PendingWrite>, marks: seq<bool>)
    requires Tidy(d, since) && |marks| == |d.pending|
    ensures Evict(d, marks).1 == OK && Tidy(Evict(d, marks).0, since)
  {
    hide View, Total;
    AllFitNotBad(d.medium, d.pending, marks, 0);
    SelectFromQueue(d.pending, marks, false);
    SelectKeepsApart(d.pending, marks, |d.medium|);
  }

  lemma TidyAppend(d: Drive, since: seq<PendingWrite>, w: PendingWrite)
    requires Tidy(d, since) && Fits(d.medium, w)
    requires forall v, b: nat :: v in since ==> !(v.Covers(b) && w.Covers(b))
    ensures Tidy(Append(d, w), since + [w.(seqno := 0)])
  {
    hide Apart;
    forall v, b: nat | v in d.pending && b < |d.medium| ensures !(v.Covers(b) && w.Covers(b)) {
      assert v.(seqno := 0).Covers(b) <==> v.Covers(b);
    }
    ApartSnoc(d.pending, w, |d.medium|);
  }

  lemma TidyWrite(cfg: Config, d: Drive, since: seq<PendingWrite>, off: nat, data: seq<byte>, c: Choice)
    requires d.Valid(cfg) && cfg.cacheBytes > 0 && Tidy(d, since) && Legal(d, c) && !d.PowerIsOff(cfg)
    requires off + |data| <= |d.medium|
    requires forall v, b: nat :: v in since ==> !(v.Covers(b) && PendingWrite(0, off, data).Covers(b))
    ensures var (e, rc) := Write(cfg, d, off, data, c);
            rc == OK && |e.medium| == |d.medium| && e.writes == d.writes + 1 && !e.crashed && e.Valid(cfg)
            && Tidy(e, since + [PendingWrite(0, off, data)])
    ensures Clean(cfg, d, WriteAction(off, data, c))
  {
    WriteKeeps(cfg, d, off, data, c);
    ApartIsNeverStale(d.medium, d.pending, c.marks);
    hide View, Total, Evict, Tidy, NeverStale;
    var w, counted := PendingWrite(d.writes, off, data), d.(writes := d.writes + 1);
    assert Tidy(counted, since) by { TidyCounts(d, since); }
    forall v, b: nat | v in since ensures !(v.Covers(b) && w.Covers(b)) {
      assert w.Covers(b) <==> PendingWrite(0, off, data).Covers(b);
    }
    if Evicts(cfg, d, data) {
      EvictKeeps(cfg, counted, c.marks);
      TidyEvict(counted, since, c.marks);
      TidyAppend(Evict(counted, c.marks).0, since, w);
    } else {
      TidyAppend(counted, since, w);
    }
  }

  lemma TidyCounts(d: Drive, since: seq<PendingWrite>)
    requires Tidy(d, since)
    ensures Tidy(d.(writes := d.writes + 1), since)
  {}

  /** The power stays on for this many writes more. */
  predicate PowerLasts(cfg: Config, d: Drive, n: nat) {
    cfg.failAfter < 0 || d.writes + n <= cfg.failAfter
  }

  /** Read your writes, for every draw: when no write covers what another since the last honoured barrier covers, reads
      see a plain array, whatever the drive evicts and whenever. */
  lemma {:induction false} CarefulReadsAreFlat(
      cfg: Config, d: Drive, since: seq<PendingWrite>, actions: seq<Action>, e: Drive)
    requires d.Valid(cfg) && !d.crashed && cfg.cacheBytes > 0 && Tidy(d, since) && PowerLasts(cfg, d, |actions|)
    requires Careful(cfg, |d.medium|, since, actions) && Plays(cfg, d, actions, e)
    ensures CleanRun(cfg, d, actions, e) && e.Seen() == Flat(d.Seen(), actions)
    decreases |actions|
  {
    if actions != [] {
      hide View, Total, Evict, Write, Tidy, Flat;
      var a := actions[0];
      match a
      case WriteAction(off, data, choice) =>
        TidyWrite(cfg, d, since, off, data, choice);
        CarefulReadsAreFlat(cfg, Do(cfg, d, a).0, since + [PendingWrite(0, off, data)], actions[1..], e);
      case FlushAction =>
        TidyFlush(cfg, d, since);
        CarefulReadsAreFlat(cfg, Do(cfg, d, a).0, if cfg.ignoreBarriers then since else [], actions[1..], e);
    }
    ReadYourWrites(cfg, d, actions, e);
  }

  lemma TidyFlush(cfg: Config, d: Drive, since: seq<PendingWrite>)
    requires d.Valid(cfg) && !d.crashed && cfg.cacheBytes > 0 && Tidy(d, since)
    ensures var e := Flush(cfg, d).0;
            e.Valid(cfg) && !e.crashed && |e.medium| == |d.medium| && e.writes == d.writes
            && Tidy(e, if cfg.ignoreBarriers then since else [])
  {
    TotalOfNone();
    hide View;
  }

  // ---- The code ----

  class FileCtx {
    const cfg: Config
    var medium: seq<byte>
    var pending: seq<PendingWrite>
    var pendingBytes: nat
    var writes: nat
    var crashed: bool

    function State(): Drive
      reads this
    {
      Drive(medium, pending, pendingBytes, writes, crashed)
    }

    constructor (cfg: Config, medium: seq<byte>)
      requires cfg.Valid()
      ensures this.cfg == cfg && State() == Drive(medium, [], 0, 0, false)
    {
      this.cfg, this.medium := cfg, medium;
      pending, pendingBytes, writes, crashed := [], 0, 0, false;
    }

    /** The system call: a transfer that runs past the end is cut short there, which callers take as EIO. */
    method Pwrite(w: PendingWrite) returns (ok: bool)
      modifies this`medium
      ensures medium == View(old(medium), [w]) && ok == Fits(old(medium), w)
    {
      ok := w.off + |w.data| <= |medium|;
      ViewOfOne(medium, w);
      if ok {
        medium := Splice(medium, w.off, w.data);
      } else if w.off < |medium| {
        ViewOfClipped(medium, w);
        medium := Splice(medium, w.off, w.data[..|medium| - w.off]);
      } else {
        ViewOfClipped(medium, w);
      }
    }

    method CacheAppend(w: PendingWrite)
      modifies this`pending, this`pendingBytes
      ensures State() == Append(old(State()), w)
    {
      pending := pending + [w];
      pendingBytes := pendingBytes + |w.data|;
    }

    /** `cache_commit`. */
    method CacheCommit() returns (rc: int)
      modifies this`medium, this`pending, this`pendingBytes
      ensures (State(), rc) == Commit(old(State()))
    {
      hide View, AllFit;
      rc := OK;
      ghost var m0 := medium;
      NothingYet(m0, pending, seq(|pending|, i => false));
      for i := 0 to |pending|
        invariant pending == old(pending) && medium == View(m0, pending[..i])
        invariant rc == if AllFit(m0, pending[..i]) then OK else EIO
      {
        ViewConcat(m0, pending[..i], [pending[i]]);
        assert pending[..i + 1] == pending[..i] + [pending[i]];
        AllFitSnoc(m0, pending[..i], pending[i]);
        var ok := Pwrite(pending[i]);
        if !ok {
          rc := EIO;
        }
      }
      assert pending[..|pending|] == pending;
      pending, pendingBytes := [], 0;
    }

    /** `cache_evict`, once the victims are marked. */
    method EvictMarked(marks: seq<bool>) returns (rc: int)
      requires |marks| == |pending| && pendingBytes == Total(pending)
      modifies this`medium, this`pending, this`pendingBytes
      ensures (State(), rc) == Evict(old(State()), marks)
    {
      hide View, Select, Total;
      var n := |pending|;
      ghost var m0 := medium;
      NothingYet(m0, pending, marks);
      var i := 0;
      while i < n
        invariant i <= n && pending == old(pending) && pendingBytes == old(pendingBytes) && |medium| == |m0|
        invariant medium == View(m0, Select(pending[..i], marks[..i], true))
        invariant FirstBad(m0, pending, marks, 0) == FirstBad(m0, pending, marks, i)
      {
        SelectNext(pending, marks, true, i);
        if marks[i] {
          ViewConcat(m0, Select(pending[..i], marks[..i], true), [pending[i]]);
          var ok := Pwrite(pending[i]);
          if !ok {
            return EIO;
          }
        }
        i := i + 1;
      }
      assert pending[..n] == pending && marks[..n] == marks;
      Compact(marks);
      return OK;
    }

    /** Compact the queue in place, keeping the survivors in issue order. */
    method Compact(marks: seq<bool>)
      requires |marks| == |pending| && pendingBytes == Total(pending)
      modifies this`pending, this`pendingBytes
      ensures pending == Select(old(pending), marks, false) && pendingBytes == Total(pending)
    {
      hide Select, Total;
      var n := |pending|;
      ghost var was := pending;
      var w := 0;
      NothingYet(medium, was, marks);
      for i := 0 to n
        invariant w <= i && |pending| == n && pending[i..] == was[i..]
        invariant pending[..w] == Select(was[..i], marks[..i], false)
        invariant pendingBytes + Total(Select(was[..i], marks[..i], true)) == Total(was)
      {
        SelectNext(was, marks, true, i);
        SelectNext(was, marks, false, i);
        assert pending[i] == pending[i..][0] == was[i];
        if marks[i] {
          TotalSnoc(Select(was[..i], marks[..i], true), was[i]);
          SelectedBytesFit(was, marks, i + 1);
          pendingBytes := pendingBytes - |pending[i].data|;
        } else {
          pending := pending[w := pending[i]];
          w := w + 1;
        }
      }
      assert was[..n] == was && marks[..n] == marks;
      EvictionConservesBytes(was, marks);
      pending := pending[..w];
    }

    /** `cache_evict`: some half of the queue, whichever the drive likes. */
    method CacheEvict() returns (rc: int, ghost marks: seq<bool>)
      requires pendingBytes == Total(pending)
      modifies this`medium, this`pending, this`pendingBytes
      ensures |marks| == |old(pending)| && CountMarks(marks) == Victims(|old(pending)|)
      ensures (State(), rc) == Evict(old(State()), marks) && (rc == OK || rc == EIO)
    {
      var n := |pending|;
      var want := n / 2;
      if want == 0 {
        want := n;
      }
      SomeMarks(n, want);
      var chosen: seq<bool> :| |chosen| == n && CountMarks(chosen) == want;
      marks := chosen;
      rc := EvictMarked(chosen);
    }

    /** `cache_crash`: shuffle the queue, commit a prefix of that order, forget the rest. */
    method CacheCrash() returns (ghost order: seq<nat>)
      requires cfg.Valid()
      modifies this`medium, this`pending, this`pendingBytes
      ensures Permutation(order, |old(pending)|)
      ensures State() == Crash(cfg, old(State()), order)
    {
      hide View, Picked, Permutation;
      var n := |pending|;
      var o := Shuffle(n);
      order := o[..];
      if n == 0 {
        return;
      }
      KeptIsNat(n, cfg.reorderDrop);
      var drop := n * cfg.reorderDrop / 100;
      var keep := n - drop;
      ghost var m0 := medium;
      PermutationInRange(order, n);
      EmptyQueueShowsMedium(m0);
      PickedNone(pending, order);
      for k := 0 to keep
        invariant pending == old(pending) && writes == old(writes) && crashed == old(crashed) && o[..] == order
        invariant medium == View(m0, Picked(pending, order[..k]))
      {
        PickNext(m0, pending, order, k);
        var _ := Pwrite(pending[o[k]]);
      }
      pending, pendingBytes := [], 0;
    }

    /** `cache_overlay`: the pending writes are laid over what the medium returned, newest last. */
    method CacheOverlay(buf: array<byte>, off: nat)
      requires off + buf.Length <= |medium| && buf[..] == medium[off..off + buf.Length]
      modifies buf
      ensures buf[..] == View(medium, pending)[off..off + buf.Length]
    {
      hide View, Splice;
      var len := buf.Length;
      EmptyQueueShowsMedium(medium);
      for i := 0 to |pending|
        invariant buf[..] == View(medium, pending[..i])[off..off + len]
      {
        var w := pending[i];
        var ps, pe := w.off, w.off + |w.data|;
        var rs, re := off, off + len;
        OverlayNext(medium, pending, i, rs, re);
        if !(pe <= rs || ps >= re) {
          var s := if ps > rs then ps else rs;
          var e := if pe < re then pe else re;
          CopyInto(buf, s - rs, w.data[s - ps..e - ps]);
        }
      }
      assert pending[..|pending|] == pending;
    }

    /** `pread`, or the read of the surrounding sectors when the medium insists on whole ones. */
    method AlignedPread(buf: array<byte>, off: nat) returns (rc: int)
      modifies buf
      ensures rc == OK || rc == EIO
      ensures rc == OK <==> Readable(cfg, medium, off, buf.Length)
      ensures rc == OK ==> off + buf.Length <= |medium| && buf[..] == medium[off..off + buf.Length]
      ensures rc != OK ==> buf[..] == old(buf[..])
    {
      var len := buf.Length;
      if cfg.align <= 1 || (off % cfg.align == 0 && len % cfg.align == 0) {
        if off + len > |medium| {
          return EIO;
        }
        CopyInto(buf, 0, medium[off..off + len]);
        return OK;
      }
      var w := BlockDevice.AlignedWindow(cfg.align, off, len);
      BlockDevice.WindowCovers(cfg.align, off, len);
      if w.start + w.length > |medium| {
        return EIO;
      }
      SliceOfSlice(medium, w.start, w.start + w.length, w.shift, w.shift + len);
      CopyInto(buf, 0, medium[w.start..w.start + w.length][w.shift..w.shift + len]);
      return OK;
    }

    /** `file_read`: from the medium, with the cache laid over it. */
    method FileRead(buf: array<byte>, off: nat) returns (rc: int)
      requires State().Valid(cfg)
      modifies buf
      ensures rc == OK <==> Readable(cfg, medium, off, buf.Length)
      ensures rc == OK ==> off + buf.Length <= |medium| && buf[..] == State().Seen()[off..off + buf.Length]
      ensures rc != OK ==> buf[..] == old(buf[..])
    {
      hide View;
      rc := AlignedPread(buf, off);
      EmptyQueueShowsMedium(medium);
      if rc == OK && cfg.cacheBytes > 0 {
        CacheOverlay(buf, off);
      }
    }

    /** `aligned_pwrite`. */
    method AlignedPwrite(w: PendingWrite) returns (rc: int)
      modifies this`medium
      ensures (medium, rc) == DirectWrite(cfg, old(medium), w)
    {
      hide View, BlockDevice.AlignedWindow;
      if cfg.align <= 1 || (w.off % cfg.align == 0 && |w.data| % cfg.align == 0) {
        var ok := Pwrite(w);
        return if ok then OK else EIO;
      }
      var win := BlockDevice.AlignedWindow(cfg.align, w.off, |w.data|);
      BlockDevice.WindowCovers(cfg.align, w.off, |w.data|);
      if win.start + win.length > |medium| {
        return EIO;
      }
      var tmp := new byte[win.length](i => 0);
      CopyInto(tmp, 0, medium[win.start..win.start + win.length]);
      assert tmp[..] == medium[win.start..win.start + win.length];
      CopyInto(tmp, win.shift, w.data);
      medium := Splice(medium, win.start, tmp[..]);
      return OK;
    }

    /** `file_write`. */
    method FileWrite(off: nat, data: seq<byte>) returns (rc: int, ghost choice: Choice)
      requires State().Valid(cfg)
      modifies this
      ensures Legal(old(State()), choice)
      ensures (State(), rc) == Write(cfg, old(State()), off, data, choice)
      ensures State().Valid(cfg)
    {
      hide View, Total, DirectWrite, Evict;
      ghost var d := State();
      choice := AnyChoice(d);
      if cfg.failAfter >= 0 && writes >= cfg.failAfter {
        if !crashed {
          crashed := true;
          if cfg.cacheBytes > 0 {
            ghost var order := CacheCrash();
            choice := choice.(order := order);
          }
        }
        writes := writes + 1;
        rc := OK;
      } else {
        var w := PendingWrite(writes, off, data);
        writes := writes + 1;
        rc := OK;
        if cfg.cacheBytes > 0 {
          if pendingBytes + |data| > cfg.cacheBytes && pending != [] {
            ghost var marks;
            rc, marks := CacheEvict();
            choice := choice.(marks := marks);
          }
          if rc == OK {
            CacheAppend(w);
          }
        } else {
          rc := AlignedPwrite(w);
        }
      }
      WriteKeeps(cfg, d, off, data, choice);
    }

    /** `file_flush`. */
    method FileFlush() returns (rc: int)
      requires State().Valid(cfg)
      modifies this`medium, this`pending, this`pendingBytes
      ensures (State(), rc) == Flush(cfg, old(State()))
      ensures State().Valid(cfg)
    {
      TotalOfNone();
      if crashed || cfg.cacheBytes == 0 || cfg.ignoreBarriers {
        return OK;
      }
      rc := CacheCommit();
    }
  }

  predicate Readable(cfg: Config, m: seq<byte>, off: nat, len: nat) {
    if cfg.align <= 1 || (off % cfg.align == 0 && len % cfg.align == 0) then off + len <= |m|
    else BlockDevice.Fits(m, cfg.align, off, len)
  }

  /** Copying the part of a write that a read covers. */
  lemma OverlayStep(m: seq<byte>, w: PendingWrite, rs: nat, re: nat)
    requires rs <= re <= |m|
    ensures var pe := w.off + |w.data|;
            if pe <= rs || w.off >= re then View(m, [w])[rs..re] == m[rs..re]
            else
              var s, e := if w.off > rs then w.off else rs, if pe < re then pe else re;
              View(m, [w])[rs..re] == Splice(m[rs..re], s - rs, w.data[s - w.off..e - w.off])
  {
    forall b | 0 <= b < |m| ensures View(m, [w])[b] == if w.Covers(b) then w.At(b) else m[b] {
      Snoc([], w, b);
      assert [] + [w] == [w];
    }
  }

  lemma OverlayNext(m: seq<byte>, ws: seq<PendingWrite>, i: nat, rs: nat, re: nat)
    requires i < |ws| && rs <= re <= |m|
    ensures var w := ws[i];
            var pe := w.off + |w.data|;
            var was, now := View(m, ws[..i])[rs..re], View(m, ws[..i + 1])[rs..re];
            if pe <= rs || w.off >= re then now == was
            else
              var s, e := if w.off > rs then w.off else rs, if pe < re then pe else re;
              now == Splice(was, s - rs, w.data[s - w.off..e - w.off])
  {
    hide View, Splice;
    assert ws[..i + 1] == ws[..i] + [ws[i]];
    ViewConcat(m, ws[..i], [ws[i]]);
    OverlayStep(View(m, ws[..i]), ws[i], rs, re);
  }

  lemma PermutationInRange(order: seq<nat>, n: nat)
    requires Permutation(order, n)
    ensures |order| == n && forall i :: 0 <= i < n ==> order[i] < n
  {}

  lemma PickedNone(ws: seq<PendingWrite>, order: seq<nat>)
    ensures Picked(ws, order[..0]) == []
  {}

  lemma PickNext(m: seq<byte>, ws: seq<PendingWrite>, order: seq<nat>, k: nat)
    requires k < |order| && forall i :: 0 <= i < |order| ==> order[i] < |ws|
    ensures View(m, Picked(ws, order[..k + 1])) == View(View(m, Picked(ws, order[..k])), [ws[order[k]]])
  {
    hide View;
    ViewConcat(m, Picked(ws, order[..k]), [ws[order[k]]]);
    assert Picked(ws, order[..k + 1]) == Picked(ws, order[..k]) + [ws[order[k]]];
  }

  lemma SwapPermutes(o: seq<nat>, i: nat, j: nat)
    requires i < |o| && j < |o| && Permutation(o, |o|)
    ensures Permutation(o[i := o[j]][j := o[i]], |o|)
  {}

  /** Any shuffle by swaps; `cache_rand` picks each partner. */
  method Shuffle(n: nat) returns (o: array<nat>)
    ensures fresh(o) && Permutation(o[..], n)
  {
    hide Permutation;
    o := new nat[n](i => i);
    InOrderPermutes(o[..], n);
    var i := n;
    while i > 1
      invariant i <= n == o.Length && Permutation(o[..], n)
    {
      var j :| 0 <= j < i;
      SwapPermutes(o[..], i - 1, j);
      ghost var next := o[..][i - 1 := o[j]][j := o[i - 1]];
      o[i - 1], o[j] := o[j], o[i - 1];
      assert o[..] == next;
      i := i - 1;
    }
  }

  lemma InOrderPermutes(o: seq<nat>, n: nat)
    requires |o| == n && forall i :: 0 <= i < n ==> o[i] == i
    ensures Permutation(o, n)
  {}

  lemma AnyChoice(d: Drive) returns (c: Choice)
    ensures Legal(d, c)
  {
    var n := |d.pending|;
    SomeMarks(n, Victims(n));
    var marks: seq<bool> :| |marks| == n && CountMarks(marks) == Victims(n);
    c := Choice(marks, seq(n, i => i));
  }

  lemma {:induction false} SomeMarks(n: nat, want: nat)
    requires want <= n
    ensures exists marks: seq<bool> :: |marks| == n && CountMarks(marks) == want
  {
    if n == 0 {
      assert CountMarks([]) == 0;
    } else {
      SomeMarks(n - 1, if want > 0 then want - 1 else 0);
      var m: seq<bool> :| |m| == n - 1 && CountMarks(m) == if want > 0 then want - 1 else 0;
      var r := m + [want > 0];
      assert r[..n - 1] == m;
      assert |r| == n && CountMarks(r) == want;
    }
  }

  lemma NothingYet(m: seq<byte>, ws: seq<PendingWrite>, marks: seq<bool>)
    requires |marks| == |ws|
    ensures forall v :: Select(ws[..0], marks[..0], v) == []
    ensures Total([]) == 0 && AllFit(m, ws[..0]) && View(m, []) == m && ws[..0] == []
  {}

  lemma AllFitSnoc(m: seq<byte>, ws: seq<PendingWrite>, w: PendingWrite)
    ensures AllFit(m, ws + [w]) <==> AllFit(m, ws) && Fits(m, w)
  {
    assert w in ws + [w];
    assert forall v :: v in ws ==> v in ws + [w];
  }

  lemma SelectNext(ws: seq<PendingWrite>, marks: seq<bool>, v: bool, i: nat)
    requires |marks| == |ws| && i < |ws|
    ensures marks[i] == v ==> Select(ws[..i + 1], marks[..i + 1], v) == Select(ws[..i], marks[..i], v) + [ws[i]]
    ensures marks[i] != v ==> Select(ws[..i + 1], marks[..i + 1], v) == Select(ws[..i], marks[..i], v)
  {
    assert ws[..i + 1][..i] == ws[..i] && marks[..i + 1][..i] == marks[..i];
  }

  lemma {:induction false} TotalPrefix(ws: seq<PendingWrite>, k: nat)
    requires k <= |ws|
    ensures Total(ws[..k]) <= Total(ws)
  {
    if k < |ws| {
      var n := |ws| - 1;
      TotalPrefix(ws[..n], k);
      assert ws[..n][..k] == ws[..k];
    } else {
      assert ws[..k] == ws;
    }
  }

  lemma SelectedBytesFit(ws: seq<PendingWrite>, marks: seq<bool>, k: nat)
    requires |marks| == |ws| && k <= |ws|
    ensures Total(Select(ws[..k], marks[..k], true)) <= Total(ws)
  {
    EvictionConservesBytes(ws[..k], marks[..k]);
    TotalPrefix(ws, k);
  }

  lemma ViewOfClipped(m: seq<byte>, w: PendingWrite)
    requires w.off + |w.data| > |m|
    ensures View(m, [w]) == if w.off < |m| then Splice(m, w.off, w.data[..|m| - w.off]) else m
  {
    forall b | 0 <= b < |m| ensures View(m, [w])[b] == if w.Covers(b) then w.At(b) else m[b] {
      Snoc([], w, b);
      assert [] + [w] == [w];
    }
  }
}

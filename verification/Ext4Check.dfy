/**
 The structural check of a mounted volume (Core/shim/ext4_check.c): a worklist walk of the directory graph with a
 visited set. The volume is two fixed functions, and nothing is assumed of them: the graph may have loops, dangling
 entries, wrong types and wrong link counts.
 */
module Ext4Check {
  import opened Bytes
  import opened Errno
  import opened Wrappers

  datatype ItemType = Unknown | File | Dir | Symlink | Fifo | CharDev | BlockDev | Socket

  datatype Attrs = Attrs(linkCount: nat, kind: ItemType)

  datatype Entry = Entry(name: string, inode: nat, kind: ItemType)

  /** What an enumeration delivered, and whether it got to the end. */
  datatype Listing = Listing(entries: seq<Entry>, ok: bool)

  const ROOT: nat := 2
  const MAX_INODES: nat := 64 * 1024 * 1024

  /** The two entries that every directory has for itself and its parent lead to no child. */
  predicate IsDot(e: Entry) {
    e.name == "." || e.name == ".."
  }

  datatype Volume = Volume(getattr: nat -> Option<Attrs>, readdir: nat -> Listing) {

    function Entries(d: nat): seq<Entry> {
      readdir(d).entries
    }

    /** An entry that names a live directory. */
    predicate NamesDir(e: Entry) {
      !IsDot(e) && e.inode != 0 && getattr(e.inode).Some? && getattr(e.inode).value.linkCount != 0 &&
      getattr(e.inode).value.kind == Dir
    }

    predicate NamesFile(e: Entry) {
      !IsDot(e) && e.inode != 0 && getattr(e.inode).Some? && getattr(e.inode).value.linkCount != 0 &&
      getattr(e.inode).value.kind != Dir
    }

    /** The entry agrees with the inode it names. */
    predicate EntryOk(e: Entry) {
      IsDot(e) || (e.inode != 0 && getattr(e.inode).Some? && getattr(e.inode).value.linkCount != 0 &&
                   (e.kind == Unknown || e.kind == getattr(e.inode).value.kind))
    }

    function Subdirs(es: seq<Entry>): nat {
      if es == [] then 0 else Subdirs(es[..|es| - 1]) + if NamesDir(es[|es| - 1]) then 1 else 0
    }

    function Files(es: seq<Entry>): nat {
      if es == [] then 0 else Files(es[..|es| - 1]) + if NamesFile(es[|es| - 1]) then 1 else 0
    }

    /** "." plus the parent's entry plus one ".." per subdirectory; a count parked at 1 is not comparable. */
    predicate LinksOk(d: nat) {
      getattr(d).Some? && (getattr(d).value.linkCount == Subdirs(Entries(d)) + 2 || getattr(d).value.linkCount <= 1)
    }

    // ---- The graph, and what a sound volume is ----

    /** Entry k of d leads to directory c. */
    predicate Leads(d: nat, k: nat, c: nat) {
      getattr(d).Some? && k < |Entries(d)| && NamesDir(Entries(d)[k]) && Entries(d)[k].inode == c
    }

    ghost predicate ChildOf(d: nat, c: nat) {
      exists k: nat :: Leads(d, k, c)
    }

    /** A walk from the root, one entry at a time. */
    ghost predicate Path(p: seq<nat>) {
      |p| > 0 &&
      if |p| == 1 then p[0] == ROOT else Path(p[..|p| - 1]) && ChildOf(p[|p| - 2], p[|p| - 1])
    }

    ghost predicate Reachable(d: nat) {
      exists p :: Path(p) && p[|p| - 1] == d
    }

    /** Everything about one directory that does not depend on how it was reached. */
    predicate LocallySound(d: nat) {
      && getattr(d).Some? && readdir(d).ok && LinksOk(d)
      && forall k :: 0 <= k < |Entries(d)| ==> EntryOk(Entries(d)[k])
    }

    /** The directories reachable from the root form a tree: no entry leads back to the root, none leads outside
        the inode table, and no two lead to the same directory. */
    ghost predicate IsTree(count: nat) {
      && (forall d: nat, k: nat, c: nat :: Reachable(d) && Leads(d, k, c) ==> 0 < c <= count && c != ROOT)
      && (forall d: nat, k: nat, c: nat, d': nat, k': nat ::
            Reachable(d) && Reachable(d') && Leads(d, k, c) && Leads(d', k', c) ==> d == d' && k == k')
    }

    ghost predicate WellFormed(count: nat) {
      (forall d: nat :: Reachable(d) ==> LocallySound(d)) && IsTree(count)
    }

    lemma RootReachable()
      ensures Reachable(ROOT)
    {
      assert Path([ROOT]);
    }

    lemma StepReachable(d: nat, k: nat, c: nat)
      requires Reachable(d) && Leads(d, k, c)
      ensures Reachable(c)
    {
      var p :| Path(p) && p[|p| - 1] == d;
      var q := p + [c];
      assert q[..|q| - 1] == p && ChildOf(q[|q| - 2], q[|q| - 1]);
      assert Path(q);
    }

    /** A set that holds the root and is closed under entries holds everything reachable. */
    lemma {:induction false} ClosedHoldsPath(s: set<nat>, p: seq<nat>)
      requires ROOT in s && Path(p)
      requires forall d: nat, k: nat, c: nat :: d in s && Leads(d, k, c) ==> c in s
      ensures p[|p| - 1] in s
    {
      if |p| > 1 {
        ClosedHoldsPath(s, p[..|p| - 1]);
        var k: nat :| Leads(p[|p| - 2], k, p[|p| - 1]);
      }
    }
  }

  // ---- The walk ----

  /** The walk's state. `done` is the directories already taken off the stack, in order. */
  datatype Walk = Walk(stack: seq<nat>, visited: set<nat>, done: seq<nat>, directories: nat, files: nat, problems: nat)

  function Range(count: nat): (r: set<nat>)
    ensures forall i: nat :: i in r <==> 0 < i <= count
    ensures |r| == count
  {
    if count == 0 then {} else Range(count - 1) + {count}
  }

  /** A number outside the inode table counts as seen: it is not ours to walk. */
  predicate Seen(w: Walk, count: nat, ino: nat) {
    ino == 0 || ino > count || ino in w.visited
  }

  /** `mark`, then `stack_push`. */
  function Discover(w: Walk, count: nat, ino: nat): Walk {
    w.(visited := w.visited + if 0 < ino <= count then {ino} else {}, stack := w.stack + [ino])
  }

  function FoundDirectory(count: nat, w: Walk, ino: nat): Walk {
    var counted := w.(directories := w.directories + 1);
    if Seen(w, count, ino) then counted.(problems := counted.problems + 1) else Discover(counted, count, ino)
  }

  /** `on_entry`. */
  function OnEntry(vol: Volume, count: nat, w: Walk, e: Entry): Walk {
    if IsDot(e) then w
    else if e.inode == 0 || vol.getattr(e.inode).None? || vol.getattr(e.inode).value.linkCount == 0 then
      w.(problems := w.problems + 1)
    else
      var a := vol.getattr(e.inode).value;
      var w1 := if e.kind != Unknown && e.kind != a.kind then w.(problems := w.problems + 1) else w;
      if a.kind == Dir then FoundDirectory(count, w1, e.inode)
      else w1.(files := w1.files + 1)
  }

  function Scan(vol: Volume, count: nat, w: Walk, es: seq<Entry>): Walk {
    if es == [] then w else OnEntry(vol, count, Scan(vol, count, w, es[..|es| - 1]), es[|es| - 1])
  }

  /** One turn of the loop: take a directory off the stack and check it. */
  function Visit(vol: Volume, count: nat, w: Walk): Walk
    requires w.stack != []
  {
    var d := w.stack[|w.stack| - 1];
    var popped := w.(stack := w.stack[..|w.stack| - 1]);
    if vol.getattr(d).None? then popped.(problems := popped.problems + 1, done := popped.done + [d])
    else
      var after := Scan(vol, count, popped, vol.Entries(d));
      var bad := if !vol.readdir(d).ok || !vol.LinksOk(d) then 1 else 0;
      after.(problems := after.problems + bad, done := after.done + [d])
  }

  function Start(count: nat): Walk {
    Discover(Walk([], {}, [], 1, 0, 0), count, ROOT)
  }

  /** Inodes not yet marked. */
  function Unmarked(w: Walk, count: nat): nat {
    |Range(count) - w.visited|
  }

  function Measure(w: Walk, count: nat): nat {
    Unmarked(w, count) + |w.stack|
  }

  /** What one entry does to the walk: an unseen directory is discovered, and a problem is counted exactly when the
      entry disagrees with its inode or leads to a directory already seen. */
  lemma OnEntryDoes(vol: Volume, count: nat, w: Walk, e: Entry)
    ensures var r := OnEntry(vol, count, w, e);
            && r.done == w.done
            && r.visited == (if vol.NamesDir(e) && !Seen(w, count, e.inode) then w.visited + {e.inode} else w.visited)
            && r.stack == (if vol.NamesDir(e) && !Seen(w, count, e.inode) then w.stack + [e.inode] else w.stack)
            && r.directories == w.directories + (if vol.NamesDir(e) then 1 else 0)
            && r.files == w.files + (if vol.NamesFile(e) then 1 else 0)
            && r.problems >= w.problems
            && (r.problems == w.problems <==> vol.EntryOk(e) && (vol.NamesDir(e) ==> !Seen(w, count, e.inode)))
  {}

  lemma MarkOne(visited: set<nat>, count: nat, ino: nat)
    requires 0 < ino <= count && ino !in visited
    ensures |Range(count) - (visited + {ino})| == |Range(count) - visited| - 1
  {
    assert Range(count) - (visited + {ino}) == (Range(count) - visited) - {ino};
  }

  lemma {:induction false} ScanMeasure(vol: Volume, count: nat, w: Walk, es: seq<Entry>)
    ensures Measure(Scan(vol, count, w, es), count) == Measure(w, count)
  {
    hide OnEntry, Range;
    if es != [] {
      var u := Scan(vol, count, w, es[..|es| - 1]);
      var e := es[|es| - 1];
      ScanMeasure(vol, count, w, es[..|es| - 1]);
      OnEntryDoes(vol, count, u, e);
      if !Seen(u, count, e.inode) {
        MarkOne(u.visited, count, e.inode);
      }
    }
  }

  /** Every turn uses up one: the walk ends on every graph, loops included. */
  lemma VisitMeasure(vol: Volume, count: nat, w: Walk)
    requires w.stack != []
    ensures Measure(Visit(vol, count, w), count) == Measure(w, count) - 1
  {
    var d := w.stack[|w.stack| - 1];
    ScanMeasure(vol, count, w.(stack := w.stack[..|w.stack| - 1]), vol.Entries(d));
  }

  function Run(vol: Volume, count: nat, w: Walk): Walk
    decreases Measure(w, count)
  {
    if w.stack == [] then w
    else
      VisitMeasure(vol, count, w);
      Run(vol, count, Visit(vol, count, w))
  }

  // ---- What the walk keeps ----

  ghost predicate NoDup(s: seq<nat>) {
    forall i, j :: 0 <= i < j < |s| ==> s[i] != s[j]
  }

  function Known(w: Walk): set<nat> {
    w.visited + {ROOT}
  }

  /** The directories done, the one in hand and those still on the stack: each known directory exactly once. */
  ghost predicate Enumerated(count: nat, w: Walk, cur: seq<nat>) {
    && NoDup(w.done + cur + w.stack)
    && (forall v: nat :: v in w.done || v in cur || v in w.stack <==> v in Known(w))
    && w.visited <= Range(count) && (ROOT <= count ==> ROOT in w.visited)
  }

  /** Entry k of d has been looked at. */
  ghost predicate Processed(w: Walk, cur: seq<nat>, pos: nat, d: nat, k: nat) {
    d in w.done || (d in cur && k < pos)
  }

  /** Every known directory is reachable, and was found through an entry already looked at. */
  ghost predicate Traced(vol: Volume, w: Walk, cur: seq<nat>, pos: nat) {
    && (forall v: nat :: v in Known(w) ==> vol.Reachable(v))
    && (forall v: nat :: v in Known(w) && v != ROOT ==>
          exists d: nat, k: nat :: Processed(w, cur, pos, d, k) && vol.Leads(d, k, v))
  }

  /** As long as no problem has been counted: everything looked at is sound, and leads to a known directory that no
      other entry looked at leads to. */
  ghost predicate CleanSoFar(vol: Volume, count: nat, w: Walk, cur: seq<nat>, pos: nat) {
    && (forall d: nat :: d in w.done ==> vol.LocallySound(d))
    && (forall d: nat, k: nat, c: nat :: Processed(w, cur, pos, d, k) && vol.Leads(d, k, c) ==>
          c in Known(w) && 0 < c <= count && c != ROOT)
    && (forall d: nat, k: nat, c: nat, d': nat, k': nat ::
          Processed(w, cur, pos, d, k) && Processed(w, cur, pos, d', k') && vol.Leads(d, k, c) && vol.Leads(d', k', c)
          ==> d == d' && k == k')
    && w.directories == |w.done| + |cur| + |w.stack|
  }

  ghost predicate Inv(vol: Volume, count: nat, w: Walk, cur: seq<nat>, pos: nat) {
    && Enumerated(count, w, cur) && Traced(vol, w, cur, pos)
    && (w.problems == 0 ==> CleanSoFar(vol, count, w, cur, pos))
  }

  lemma StartInv(vol: Volume, count: nat)
    ensures Inv(vol, count, Start(count), [], 0) && Start(count).problems == 0
  {
    vol.RootReachable();
  }

  /** An entry that does not discover a directory adds nothing to follow. */
  lemma SameEntries(vol: Volume, count: nat, w: Walk, r: Walk, d: nat, pos: nat)
    requires vol.getattr(d).Some? && pos < |vol.Entries(d)| && Inv(vol, count, w, [d], pos)
    requires r.done == w.done && r.visited == w.visited && r.stack == w.stack && r.problems >= w.problems
    requires r.problems == 0 ==> !vol.NamesDir(vol.Entries(d)[pos]) && r.directories == w.directories
    ensures Inv(vol, count, r, [d], pos + 1)
  {
    forall v: nat | v in Known(r) && v != ROOT
      ensures exists a: nat, k: nat :: Processed(r, [d], pos + 1, a, k) && vol.Leads(a, k, v)
    {
      var a: nat, k: nat :| Processed(w, [d], pos, a, k) && vol.Leads(a, k, v);
      assert Processed(r, [d], pos + 1, a, k);
    }
    if r.problems == 0 {
      forall a: nat, k: nat, c: nat | Processed(r, [d], pos + 1, a, k) && vol.Leads(a, k, c)
        ensures Processed(w, [d], pos, a, k)
      {}
    }
  }

  lemma NewDirectoryTraced(vol: Volume, count: nat, w: Walk, r: Walk, d: nat, pos: nat, c: nat)
    requires Enumerated(count, w, [d]) && Traced(vol, w, [d], pos) && vol.Leads(d, pos, c)
    requires r.done == w.done && r.visited == w.visited + {c}
    ensures Traced(vol, r, [d], pos + 1)
  {
    assert d in Known(w);
    vol.StepReachable(d, pos, c);
    hide Volume.Leads, Volume.Reachable;
    assert Processed(r, [d], pos + 1, d, pos);
    forall v: nat | v in Known(r) && v != ROOT
      ensures exists a: nat, k: nat :: Processed(r, [d], pos + 1, a, k) && vol.Leads(a, k, v)
    {
      if v != c {
        var a: nat, k: nat :| Processed(w, [d], pos, a, k) && vol.Leads(a, k, v);
        assert Processed(r, [d], pos + 1, a, k);
      }
    }
  }

  lemma NewDirectoryClean(vol: Volume, count: nat, w: Walk, r: Walk, d: nat, pos: nat, c: nat)
    requires CleanSoFar(vol, count, w, [d], pos) && vol.Leads(d, pos, c) && !Seen(w, count, c) && c != ROOT
    requires r.done == w.done && r.visited == w.visited + {c} && r.stack == w.stack + [c]
    requires r.directories == w.directories + 1
    ensures CleanSoFar(vol, count, r, [d], pos + 1)
  {
    forall a: nat, k: nat, x: nat | Processed(r, [d], pos + 1, a, k) && vol.Leads(a, k, x)
      ensures (Processed(w, [d], pos, a, k) && x != c) || (a == d && k == pos && x == c)
    {}
    hide Volume.Leads, Volume.LocallySound, Processed;
  }

  lemma NewDirectory(vol: Volume, count: nat, w: Walk, r: Walk, d: nat, pos: nat, c: nat)
    requires Inv(vol, count, w, [d], pos) && vol.Leads(d, pos, c) && !Seen(w, count, c)
    requires r.done == w.done && r.visited == w.visited + {c} && r.stack == w.stack + [c] && r.problems >= w.problems
    requires r.directories == w.directories + 1
    ensures Inv(vol, count, r, [d], pos + 1)
  {
    assert c != ROOT;
    NewDirectoryTraced(vol, count, w, r, d, pos, c);
    EnumeratedPush(count, w, r, d, c);
    hide Volume.Leads, CleanSoFar, Traced;
    if r.problems == 0 {
      NewDirectoryClean(vol, count, w, r, d, pos, c);
    }
  }

  lemma EnumeratedPush(count: nat, w: Walk, r: Walk, d: nat, c: nat)
    requires Enumerated(count, w, [d]) && !Seen(w, count, c)
    requires r.done == w.done && r.visited == w.visited + {c} && r.stack == w.stack + [c]
    ensures Enumerated(count, r, [d])
  {
    var s := w.done + [d] + w.stack;
    assert r.done + [d] + r.stack == s + [c];
    forall i | 0 <= i < |s| ensures s[i] != c {
      assert s[i] in w.done || s[i] in [d] || s[i] in w.stack;
    }
  }

  lemma EntryKeeps(vol: Volume, count: nat, w: Walk, d: nat, pos: nat)
    requires vol.getattr(d).Some? && pos < |vol.Entries(d)| && Inv(vol, count, w, [d], pos)
    ensures Inv(vol, count, OnEntry(vol, count, w, vol.Entries(d)[pos]), [d], pos + 1)
  {
    hide OnEntry, Inv, Volume.EntryOk;
    var e := vol.Entries(d)[pos];
    var r := OnEntry(vol, count, w, e);
    OnEntryDoes(vol, count, w, e);
    if vol.NamesDir(e) && !Seen(w, count, e.inode) {
      NewDirectory(vol, count, w, r, d, pos, e.inode);
    } else {
      SameEntries(vol, count, w, r, d, pos);
    }
  }

  lemma {:induction false} ScanKeeps(vol: Volume, count: nat, w: Walk, d: nat, pos: nat)
    requires vol.getattr(d).Some? && pos <= |vol.Entries(d)| && Inv(vol, count, w, [d], 0)
    ensures var r := Scan(vol, count, w, vol.Entries(d)[..pos]);
            && Inv(vol, count, r, [d], pos) && r.problems >= w.problems && r.done == w.done
            && (r.problems == w.problems ==> forall k :: 0 <= k < pos ==> vol.EntryOk(vol.Entries(d)[k]))
  {
    hide OnEntry, Inv, Volume.EntryOk;
    if pos > 0 {
      var es := vol.Entries(d);
      ScanKeeps(vol, count, w, d, pos - 1);
      assert es[..pos][..pos - 1] == es[..pos - 1];
      var u := Scan(vol, count, w, es[..pos - 1]);
      EntryKeeps(vol, count, u, d, pos - 1);
      OnEntryDoes(vol, count, u, es[pos - 1]);
    }
  }

  lemma TakeInHand(vol: Volume, count: nat, w: Walk)
    requires w.stack != [] && Inv(vol, count, w, [], 0)
    ensures var n := |w.stack| - 1; Inv(vol, count, w.(stack := w.stack[..n]), [w.stack[n]], 0)
  {
    var n := |w.stack| - 1;
    var r, d := w.(stack := w.stack[..n]), w.stack[n];
    assert w.stack == r.stack + [d];
    EnumeratedTake(count, w, r, d);
    assert forall a: nat, k: nat :: Processed(w, [], 0, a, k) <==> Processed(r, [d], 0, a, k);
    hide Volume.Leads, Volume.Reachable, Volume.LocallySound, Enumerated;
    assert Traced(vol, r, [d], 0) by {
      forall v: nat | v in Known(r) && v != ROOT
        ensures exists a: nat, k: nat :: Processed(r, [d], 0, a, k) && vol.Leads(a, k, v)
      {
        var a: nat, k: nat :| Processed(w, [], 0, a, k) && vol.Leads(a, k, v);
        assert Processed(r, [d], 0, a, k);
      }
    }
  }

  lemma EnumeratedTake(count: nat, w: Walk, r: Walk, d: nat)
    requires Enumerated(count, w, []) && w.stack == r.stack + [d]
    requires r.done == w.done && r.visited == w.visited
    ensures Enumerated(count, r, [d])
  {
    NoDupMove(w.done, r.stack, d, w.stack);
    forall v: nat ensures v in r.done || v in [d] || v in r.stack <==> v in Known(r) {
      assert v in w.stack <==> v in r.stack || v in [d];
      assert v !in [];
    }
  }

  lemma NoDupMove(a: seq<nat>, b: seq<nat>, d: nat, c: seq<nat>)
    requires c == b + [d] && NoDup(a + [] + c)
    ensures NoDup(a + [d] + b)
  {
    var s, t := a + [] + c, a + [d] + b;
    forall i, j | 0 <= i < j < |t| ensures t[i] != t[j] {
      var i' := if i < |a| then i else if i == |a| then |a| + |b| else i - 1;
      var j' := if j < |a| then j else if j == |a| then |a| + |b| else j - 1;
      assert t[i] == s[i'] && t[j] == s[j'];
    }
  }

  /** Putting the directory in hand down, every entry of it looked at. */
  lemma PutDown(vol: Volume, count: nat, w: Walk, r: Walk, d: nat, pos: nat)
    requires Inv(vol, count, w, [d], pos) && (vol.getattr(d).Some? ==> pos == |vol.Entries(d)|)
    requires r == w.(done := w.done + [d], problems := r.problems) && r.problems >= w.problems
    requires r.problems == 0 ==> vol.LocallySound(d)
    ensures Inv(vol, count, r, [], 0)
  {
    assert w.done + [d] + w.stack == r.done + [] + r.stack;
    forall v: nat | v in Known(r) && v != ROOT
      ensures exists a: nat, k: nat :: Processed(r, [], 0, a, k) && vol.Leads(a, k, v)
    {
      var a: nat, k: nat :| Processed(w, [d], pos, a, k) && vol.Leads(a, k, v);
      assert Processed(r, [], 0, a, k);
    }
    forall a: nat, k: nat, c: nat | Processed(r, [], 0, a, k) && vol.Leads(a, k, c)
      ensures Processed(w, [d], pos, a, k)
    {}
    hide Volume.Leads, Volume.Reachable, Volume.LocallySound;
  }

  lemma VisitKeeps(vol: Volume, count: nat, w: Walk)
    requires w.stack != [] && Inv(vol, count, w, [], 0)
    ensures Inv(vol, count, Visit(vol, count, w), [], 0)
    ensures Visit(vol, count, w).problems >= w.problems
  {
    hide Inv, Scan, Volume.EntryOk, Volume.LinksOk;
    var n := |w.stack| - 1;
    var d := w.stack[n];
    var popped := w.(stack := w.stack[..n]);
    TakeInHand(vol, count, w);
    if vol.getattr(d).None? {
      PutDown(vol, count, popped, Visit(vol, count, w), d, 0);
    } else {
      var es := vol.Entries(d);
      assert es[..|es|] == es;
      ScanKeeps(vol, count, popped, d, |es|);
      PutDown(vol, count, Scan(vol, count, popped, es), Visit(vol, count, w), d, |es|);
    }
  }

  lemma {:induction false} RunKeeps(vol: Volume, count: nat, w: Walk)
    requires Inv(vol, count, w, [], 0)
    ensures Inv(vol, count, Run(vol, count, w), [], 0)
    ensures Run(vol, count, w).stack == [] && Run(vol, count, w).problems >= w.problems
    decreases Measure(w, count)
  {
    hide Inv, Visit, Measure;
    if w.stack != [] {
      VisitMeasure(vol, count, w);
      VisitKeeps(vol, count, w);
      RunKeeps(vol, count, Visit(vol, count, w));
    }
  }

  // ---- Soundness ----

  lemma FinishedKnows(vol: Volume, count: nat, w: Walk)
    requires Inv(vol, count, w, [], 0) && w.stack == []
    ensures NoDup(w.done) && forall v: nat :: v in w.done <==> v in Known(w)
  {
    assert w.done + [] + w.stack == w.done;
  }

  lemma FinishedReachesAll(vol: Volume, count: nat, w: Walk)
    requires Inv(vol, count, w, [], 0) && w.stack == [] && w.problems == 0
    ensures forall d: nat :: vol.Reachable(d) <==> d in w.done
  {
    FinishedKnows(vol, count, w);
    forall d: nat | vol.Reachable(d) ensures d in w.done {
      var p :| vol.Path(p) && p[|p| - 1] == d;
      forall a: nat, k: nat, c: nat | a in Known(w) && vol.Leads(a, k, c) ensures c in Known(w) {
        assert Processed(w, [], 0, a, k);
      }
      vol.ClosedHoldsPath(Known(w), p);
    }
  }

  lemma FinishedIsTree(vol: Volume, count: nat, w: Walk)
    requires CleanSoFar(vol, count, w, [], 0) && forall d: nat :: vol.Reachable(d) <==> d in w.done
    ensures vol.IsTree(count)
  {
    hide Volume.Leads, Volume.Reachable, Volume.LocallySound;
    assert forall d: nat, k: nat :: d in w.done ==> Processed(w, [], 0, d, k);
  }

  lemma NoProblemsIsSound(vol: Volume, count: nat, w: Walk)
    requires Inv(vol, count, w, [], 0) && w.stack == [] && w.problems == 0
    ensures vol.WellFormed(count)
  {
    FinishedReachesAll(vol, count, w);
    FinishedIsTree(vol, count, w);
    hide Volume.Leads, Volume.Reachable, Volume.LocallySound, Volume.IsTree, Traced, Enumerated;
  }

  // ---- Completeness ----

  lemma InHandNotDone(w: Walk, d: nat)
    requires NoDup(w.done + [d] + w.stack)
    ensures d !in w.done
  {
    var s := w.done + [d] + w.stack;
    forall i | 0 <= i < |w.done| ensures w.done[i] != d {
      assert s[i] == w.done[i] && s[|w.done|] == d;
    }
  }

  lemma EntryStaysClean(vol: Volume, count: nat, w: Walk, d: nat, pos: nat)
    requires vol.WellFormed(count) && vol.getattr(d).Some? && pos < |vol.Entries(d)|
    requires Inv(vol, count, w, [d], pos) && w.problems == 0
    ensures OnEntry(vol, count, w, vol.Entries(d)[pos]).problems == 0
  {
    hide OnEntry, CleanSoFar, NoDup;
    var e := vol.Entries(d)[pos];
    OnEntryDoes(vol, count, w, e);
    assert d in [d] && d in Known(w) && vol.Reachable(d) && vol.LocallySound(d);
    if vol.NamesDir(e) && Seen(w, count, e.inode) {
      assert vol.Leads(d, pos, e.inode);
      var a: nat, k: nat :| Processed(w, [d], pos, a, k) && vol.Leads(a, k, e.inode);
      assert vol.Reachable(a);
      InHandNotDone(w, d);
      assert false;
    }
  }

  lemma {:induction false} ScanStaysClean(vol: Volume, count: nat, w: Walk, d: nat, pos: nat)
    requires vol.WellFormed(count) && vol.getattr(d).Some? && pos <= |vol.Entries(d)|
    requires Inv(vol, count, w, [d], 0) && w.problems == 0
    ensures Scan(vol, count, w, vol.Entries(d)[..pos]).problems == 0
  {
    hide OnEntry, Inv, Volume.WellFormed;
    if pos > 0 {
      var es := vol.Entries(d);
      ScanStaysClean(vol, count, w, d, pos - 1);
      assert es[..pos][..pos - 1] == es[..pos - 1];
      ScanKeeps(vol, count, w, d, pos - 1);
      EntryStaysClean(vol, count, Scan(vol, count, w, es[..pos - 1]), d, pos - 1);
    }
  }

  lemma VisitStaysClean(vol: Volume, count: nat, w: Walk)
    requires vol.WellFormed(count) && w.stack != [] && Inv(vol, count, w, [], 0) && w.problems == 0
    ensures Visit(vol, count, w).problems == 0
  {
    var n := |w.stack| - 1;
    var d := w.stack[n];
    assert d in w.stack;
    assert vol.LocallySound(d);
    TakeInHand(vol, count, w);
    hide Inv, Scan, Volume.WellFormed;
    var es := vol.Entries(d);
    assert es[..|es|] == es;
    ScanStaysClean(vol, count, w.(stack := w.stack[..n]), d, |es|);
  }

  lemma {:induction false} RunStaysClean(vol: Volume, count: nat, w: Walk)
    requires vol.WellFormed(count) && Inv(vol, count, w, [], 0) && w.problems == 0
    ensures Run(vol, count, w).problems == 0
    decreases Measure(w, count)
  {
    hide Inv, Visit, Measure, Volume.WellFormed;
    if w.stack != [] {
      VisitMeasure(vol, count, w);
      VisitKeeps(vol, count, w);
      VisitStaysClean(vol, count, w);
      RunStaysClean(vol, count, Visit(vol, count, w));
    }
  }

  /** The check reports nothing exactly on well-formed volumes: its silence means that the directories reachable from
      the root form a tree in which every entry, type and link count agrees; and it is silent on every such volume. */
  lemma CheckIsExact(vol: Volume, count: nat)
    ensures Run(vol, count, Start(count)).problems == 0 <==> vol.WellFormed(count)
  {
    hide Inv, Run, Start, Volume.WellFormed;
    StartInv(vol, count);
    RunKeeps(vol, count, Start(count));
    if Run(vol, count, Start(count)).problems == 0 {
      NoProblemsIsSound(vol, count, Run(vol, count, Start(count)));
    } else if vol.WellFormed(count) {
      RunStaysClean(vol, count, Start(count));
    }
  }

  /** The non-directory entries of the listed directories. */
  function FilesIn(vol: Volume, ds: seq<nat>): nat {
    if ds == [] then 0
    else FilesIn(vol, ds[..|ds| - 1]) +
         if vol.getattr(ds[|ds| - 1]).Some? then vol.Files(vol.Entries(ds[|ds| - 1])) else 0
  }

  lemma {:induction false} ScanFiles(vol: Volume, count: nat, w: Walk, es: seq<Entry>)
    ensures Scan(vol, count, w, es).files == w.files + vol.Files(es)
    ensures Scan(vol, count, w, es).done == w.done
  {
    hide OnEntry;
    if es != [] {
      ScanFiles(vol, count, w, es[..|es| - 1]);
      OnEntryDoes(vol, count, Scan(vol, count, w, es[..|es| - 1]), es[|es| - 1]);
    }
  }

  lemma {:induction false} RunFiles(vol: Volume, count: nat, w: Walk)
    requires w.files == FilesIn(vol, w.done)
    ensures var r := Run(vol, count, w); r.files == FilesIn(vol, r.done)
    decreases Measure(w, count)
  {
    hide Scan, Measure;
    if w.stack != [] {
      var d := w.stack[|w.stack| - 1];
      VisitMeasure(vol, count, w);
      ScanFiles(vol, count, w.(stack := w.stack[..|w.stack| - 1]), vol.Entries(d));
      assert (w.done + [d])[..|w.done|] == w.done;
      RunFiles(vol, count, Visit(vol, count, w));
    }
  }

  /** What the counters mean. No directory is taken twice, on any volume. On a well-formed one the directories taken are
      exactly the reachable ones, and `directories` is their number. `files` is always the number of entries that name
      something else. */
  lemma CheckCounts(vol: Volume, count: nat)
    ensures var r := Run(vol, count, Start(count));
            && NoDup(r.done) && r.files == FilesIn(vol, r.done)
            && (vol.WellFormed(count) ==>
                  (forall d: nat :: vol.Reachable(d) <==> d in r.done) && r.directories == |r.done|)
  {
    StartInv(vol, count);
    RunKeeps(vol, count, Start(count));
    RunFiles(vol, count, Start(count));
    hide Run, Start, Volume.WellFormed, Volume.Reachable;
    var r := Run(vol, count, Start(count));
    FinishedKnows(vol, count, r);
    if vol.WellFormed(count) {
      CheckIsExact(vol, count);
      FinishedReachesAll(vol, count, r);
    }
  }

  // ---- Entries and inodes ----

  /** Entry k of d is counted as a file, and names inode i. */
  predicate Counted(vol: Volume, d: nat, k: nat, i: nat) {
    vol.getattr(d).Some? && k < |vol.Entries(d)| && vol.NamesFile(vol.Entries(d)[k]) && vol.Entries(d)[k].inode == i
  }

  /** The inodes that counted entries of these directories name. */
  ghost function Inodes(vol: Volume, ds: seq<nat>): set<nat> {
    set d: nat, k: nat | d in ds && k < |vol.Entries(d)| && Counted(vol, d, k, vol.Entries(d)[k].inode)
      :: vol.Entries(d)[k].inode
  }

  /** No two of those entries name the same one. */
  ghost predicate OneNameEach(vol: Volume, ds: seq<nat>) {
    forall d: nat, k: nat, d': nat, k': nat, i: nat ::
      d in ds && d' in ds && Counted(vol, d, k, i) && Counted(vol, d', k', i) ==> d == d' && k == k'
  }

  ghost function Names(vol: Volume, es: seq<Entry>): set<nat> {
    set k: nat | k < |es| && vol.NamesFile(es[k]) :: es[k].inode
  }

  ghost predicate NamesOnce(vol: Volume, es: seq<Entry>) {
    forall j: nat, k: nat :: j < k < |es| && vol.NamesFile(es[j]) && vol.NamesFile(es[k]) ==> es[j].inode != es[k].inode
  }

  lemma {:induction false} NamesCount(vol: Volume, es: seq<Entry>)
    ensures |Names(vol, es)| <= vol.Files(es) && (|Names(vol, es)| == vol.Files(es) <==> NamesOnce(vol, es))
  {
    hide Volume.NamesFile;
    if es == [] {
      assert Names(vol, es) == {};
    } else {
      hide Names, NamesOnce;
      NamesCount(vol, es[..|es| - 1]);
      NamesAdd(vol, es);
      NamesOnceAdds(vol, es);
    }
  }

  lemma NamesAdd(vol: Volume, es: seq<Entry>)
    requires es != []
    ensures var e, front := es[|es| - 1], es[..|es| - 1];
            Names(vol, es) == Names(vol, front) + if vol.NamesFile(e) then {e.inode} else {}
  {
    hide Volume.NamesFile;
  }

  lemma NamesOnceAdds(vol: Volume, es: seq<Entry>)
    requires es != []
    ensures var e, front := es[|es| - 1], es[..|es| - 1];
            NamesOnce(vol, es) <==> NamesOnce(vol, front) && (vol.NamesFile(e) ==> e.inode !in Names(vol, front))
  {
    hide Volume.NamesFile;
    var n := |es| - 1;
    var front, e := es[..n], es[n];
    assert forall k :: 0 <= k < n ==> front[k] == es[k];
    if NamesOnce(vol, front) && (vol.NamesFile(e) ==> e.inode !in Names(vol, front)) {
      forall j: nat, k: nat | j < k < |es| && vol.NamesFile(es[j]) && vol.NamesFile(es[k])
        ensures es[j].inode != es[k].inode
      {
        assert es[j] == front[j];
      }
    }
  }

  lemma {:induction false} InodesCount(vol: Volume, ds: seq<nat>)
    requires NoDup(ds)
    ensures |Inodes(vol, ds)| <= FilesIn(vol, ds) && (|Inodes(vol, ds)| == FilesIn(vol, ds) <==> OneNameEach(vol, ds))
  {
    if ds == [] {
      assert Inodes(vol, ds) == {};
    } else {
      hide Inodes, Names, OneNameEach, NamesOnce, Volume.Files;
      var n := |ds| - 1;
      var front, d := ds[..n], ds[n];
      InodesCount(vol, front);
      var es := if vol.getattr(d).Some? then vol.Entries(d) else [];
      assert vol.Files(es) == if vol.getattr(d).Some? then vol.Files(vol.Entries(d)) else 0 by { NoFiles(vol); }
      NamesCount(vol, es);
      InodesAdd(vol, ds, es);
      OneNameAdds(vol, ds, es);
      UnionSize(Inodes(vol, front), Names(vol, es));
    }
  }

  lemma NoFiles(vol: Volume)
    ensures vol.Files([]) == 0
  {}

  lemma UnionSize(a: set<nat>, b: set<nat>)
    ensures |a + b| == |a| + |b| - |a * b| && (a !! b <==> |a * b| == 0)
  {}

  lemma InodesAdd(vol: Volume, ds: seq<nat>, es: seq<Entry>)
    requires ds != [] && var d := ds[|ds| - 1]; es == if vol.getattr(d).Some? then vol.Entries(d) else []
    ensures Inodes(vol, ds) == Inodes(vol, ds[..|ds| - 1]) + Names(vol, es)
  {
    hide Volume.NamesFile;
    var n := |ds| - 1;
    forall d | d in ds ensures d in ds[..n] || d == ds[n] {}
    forall i | i in Names(vol, es) ensures i in Inodes(vol, ds) {
      var k: nat :| k < |es| && vol.NamesFile(es[k]) && es[k].inode == i;
      assert Counted(vol, ds[n], k, i);
    }
  }

  lemma OneNameAdds(vol: Volume, ds: seq<nat>, es: seq<Entry>)
    requires NoDup(ds) && ds != []
    requires var d := ds[|ds| - 1]; es == if vol.getattr(d).Some? then vol.Entries(d) else []
    ensures var front := ds[..|ds| - 1];
            && (OneNameEach(vol, ds) ==>
                  OneNameEach(vol, front) && NamesOnce(vol, es) && Inodes(vol, front) !! Names(vol, es))
            && (OneNameEach(vol, front) && NamesOnce(vol, es) && Inodes(vol, front) !! Names(vol, es) ==>
                  OneNameEach(vol, ds))
  {
    hide Volume.NamesFile;
    var n := |ds| - 1;
    var front, d := ds[..n], ds[n];
    assert forall a :: a in ds <==> a in front || a == d;
    assert d !in front;
    if OneNameEach(vol, ds) {
      forall j: nat, k: nat | j < k < |es| && vol.NamesFile(es[j]) && vol.NamesFile(es[k])
        ensures es[j].inode != es[k].inode
      {
        assert Counted(vol, d, j, es[j].inode) && Counted(vol, d, k, es[k].inode);
      }
      forall i | i in Inodes(vol, front) ensures i !in Names(vol, es) {
        var a: nat, j: nat :| a in front && j < |vol.Entries(a)| && Counted(vol, a, j, i);
        forall k: nat | k < |es| && vol.NamesFile(es[k]) ensures es[k].inode != i {
          assert Counted(vol, d, k, es[k].inode);
        }
      }
    }
    if OneNameEach(vol, front) && NamesOnce(vol, es) && Inodes(vol, front) !! Names(vol, es) {
      forall a: nat, j: nat, b: nat, k: nat, i: nat |
        a in ds && b in ds && Counted(vol, a, j, i) && Counted(vol, b, k, i)
        ensures a == b && j == k
      {
        NamedWhere(vol, ds, es, a, j, i);
        NamedWhere(vol, ds, es, b, k, i);
      }
    }
  }

  lemma NamedWhere(vol: Volume, ds: seq<nat>, es: seq<Entry>, a: nat, k: nat, i: nat)
    requires ds != [] && var d := ds[|ds| - 1]; es == if vol.getattr(d).Some? then vol.Entries(d) else []
    requires a in ds && Counted(vol, a, k, i)
    ensures (a in ds[..|ds| - 1] ==> i in Inodes(vol, ds[..|ds| - 1]))
    ensures a == ds[|ds| - 1] ==> i in Names(vol, es)
  {
    hide Volume.NamesFile;
  }

  /** `files` is never less than the number of files found, and is that number exactly when none of them was found under
      two names. */
  lemma FilesAreInodesIff(vol: Volume, count: nat)
    ensures var r := Run(vol, count, Start(count));
            && |Inodes(vol, r.done)| <= r.files
            && (r.files == |Inodes(vol, r.done)| <==> OneNameEach(vol, r.done))
  {
    hide Run, Start, OneNameEach, Inodes, Volume.WellFormed;
    CheckCounts(vol, count);
    InodesCount(vol, Run(vol, count, Start(count)).done);
  }

  /** A reachable directory names it. */
  ghost predicate HasName(vol: Volume, i: nat) {
    exists d: nat, k: nat :: vol.Reachable(d) && Counted(vol, d, k, i)
  }

  /** No file has two names among the reachable directories. */
  ghost predicate NoHardLinks(vol: Volume) {
    forall d: nat, k: nat, d': nat, k': nat, i: nat ::
      vol.Reachable(d) && vol.Reachable(d') && Counted(vol, d, k, i) && Counted(vol, d', k', i) ==> d == d' && k == k'
  }

  /** On a well-formed volume, said of the volume alone: `files` is the number of files that have a name exactly
      when the volume has no hard links. */
  lemma SoundFilesIff(vol: Volume, count: nat)
    requires vol.WellFormed(count)
    ensures exists files: set<nat> ::
              && (forall i: nat :: i in files <==> HasName(vol, i))
              && (Run(vol, count, Start(count)).files == |files| <==> NoHardLinks(vol))
  {
    hide Run, Start, Volume.WellFormed, Volume.Reachable, Counted;
    CheckCounts(vol, count);
    FilesAreInodesIff(vol, count);
    var r := Run(vol, count, Start(count));
    assert forall i: nat :: i in Inodes(vol, r.done) <==> HasName(vol, i) by {
      InodesAreNamed(vol, r.done);
    }
    assert OneNameEach(vol, r.done) <==> NoHardLinks(vol);
  }

  lemma InodesAreNamed(vol: Volume, ds: seq<nat>)
    requires forall d: nat :: vol.Reachable(d) <==> d in ds
    ensures forall i: nat :: i in Inodes(vol, ds) <==> HasName(vol, i)
  {
    hide Volume.Reachable, Volume.NamesFile;
    forall i: nat | HasName(vol, i) ensures i in Inodes(vol, ds) {
      var d: nat, k: nat :| vol.Reachable(d) && Counted(vol, d, k, i);
      assert d in ds && Counted(vol, d, k, vol.Entries(d)[k].inode);
    }
  }

  function TwoNamesAttrs(i: nat): Option<Attrs> {
    if i == 2 then Some(Attrs(2, Dir)) else if i == 11 then Some(Attrs(2, File)) else None
  }

  function TwoNamesEntries(d: nat): Listing {
    Listing(if d == 2 then [Entry("a", 11, File), Entry("b", 11, File)] else [], true)
  }

  /** A sound volume whose root gives one file two names: the check finds no problem, and counts it twice. */
  lemma HardLinkIsCountedTwice(count: nat)
    requires count >= 11
    ensures var vol := Volume(TwoNamesAttrs, TwoNamesEntries);
            var r := Run(vol, count, Start(count));
            && vol.WellFormed(count) && r.problems == 0 && r.files == 2 && Inodes(vol, r.done) == {11}
  {
    var vol := Volume(TwoNamesAttrs, TwoNamesEntries);
    var s := Start(count);
    var r := Visit(vol, count, s);
    TwoNamesVisit(count);
    assert Run(vol, count, s) == Run(vol, count, r) == r by { hide Visit, Volume.WellFormed; }
    hide Run, Visit, Start, Volume.WellFormed;
    assert Counted(vol, ROOT, 0, 11);
    assert Inodes(vol, r.done) == {11};
    CheckIsExact(vol, count);
  }

  lemma TwoNamesVisit(count: nat)
    requires count >= 11
    ensures var s, r := Start(count), Visit(Volume(TwoNamesAttrs, TwoNamesEntries), count, Start(count));
            s.stack == [ROOT] && r.stack == [] && r.done == [ROOT] && r.files == 2 && r.problems == 0
  {
    var vol := Volume(TwoNamesAttrs, TwoNamesEntries);
    var popped := Start(count).(stack := []);
    var e, f := Entry("a", 11, File), Entry("b", 11, File);
    assert Start(count).stack[..0] == [];
    assert [e, f][..1] == [e] && [e][..0] == [];
    assert Scan(vol, count, popped, [e]) == popped.(files := 1);
    assert Scan(vol, count, popped, [e, f]) == popped.(files := 2);
    assert vol.Subdirs([e]) == 0 && vol.Subdirs([e, f]) == 0;
  }

  // ---- The code ----

  /** One bit per inode. */
  class InodeSet {
    const count: nat
    const bits: array<byte>

    ghost predicate Valid() {
      bits.Length == (count + 7) / 8
    }

    predicate Has(ino: nat)
      requires Valid() && 0 < ino <= count
      reads bits
    {
      Bit(bits[(ino - 1) / 8], (ino - 1) % 8)
    }

    ghost function Marked(): set<nat>
      requires Valid()
      reads bits
    {
      set i | i in Range(count) && Has(i)
    }

    constructor (count: nat)
      ensures Valid() && this.count == count && fresh(bits) && Marked() == {}
    {
      this.count := count;
      bits := new byte[(count + 7) / 8](i => 0);
      new;
      forall i | i in Range(count) ensures !Has(i) {
        ZeroBit((i - 1) % 8);
      }
    }

    /** `seen`. */
    method Seen(ino: nat) returns (r: bool)
      requires Valid()
      ensures r <==> ino == 0 || ino > count || ino in Marked()
    {
      if ino == 0 || ino > count {
        return true;
      }
      return Has(ino);
    }

    /** `mark`: an inode outside the table is left alone. */
    method Mark(ino: nat)
      requires Valid()
      modifies bits
      ensures Marked() == old(Marked()) + if 0 < ino <= count then {ino} else {}
    {
      if ino == 0 || ino > count {
        return;
      }
      var k, j := (ino - 1) / 8, (ino - 1) % 8;
      ghost var was := bits[k];
      bits[k] := bits[k] | ((1 as byte) << j);
      forall i: nat | 0 < i <= count ensures Has(i) <==> old(Has(i)) || i == ino {
        if (i - 1) / 8 == k {
          SetBit(was, j, (i - 1) % 8);
        }
      }
    }
  }

  lemma ZeroBit(k: nat)
    requires k < 8
    ensures !Bit(0, k)
  {}

  /** The directories still to descend into: an array that doubles when it is full. */
  class InodeStack {
    var items: array<nat>
    var count: nat

    ghost predicate Valid()
      reads this
    {
      count <= items.Length
    }

    ghost function Contents(): seq<nat>
      requires Valid()
      reads this, items
    {
      items[..count]
    }

    constructor ()
      ensures Valid() && Contents() == [] && fresh(items)
    {
      items := new nat[0];
      count := 0;
    }

    /** `stack_push`; growing may fail, and then nothing has changed. */
    method Push(ino: nat) returns (ok: bool)
      requires Valid()
      modifies this, items
      ensures Valid() && (items == old(items) || fresh(items))
      ensures Contents() == if ok then old(Contents()) + [ino] else old(Contents())
    {
      if count == items.Length {
        if * {
          return false;
        }
        var cap := if items.Length > 0 then items.Length * 2 else 256;
        var p := new nat[cap](i requires 0 <= i < cap reads this, items => if i < items.Length then items[i] else 0);
        assert p[..count] == items[..count];
        items := p;
      }
      items[count] := ino;
      count := count + 1;
      assert items[..count] == old(Contents()) + [ino];
      return true;
    }

    method Pop() returns (ino: nat)
      requires Valid() && Contents() != []
      modifies this`count
      ensures Valid() && ino == old(Contents())[|old(Contents())| - 1]
      ensures Contents() == old(Contents())[..|old(Contents())| - 1]
    {
      count := count - 1;
      ino := items[count];
    }
  }

  /** What the callback is handed: the volume, the two tables, the counters. `done` is for the proofs only. */
  class WalkCtx {
    const vol: Volume
    const stack: InodeStack
    const visited: InodeSet
    var directories: nat
    var files: nat
    var problems: nat
    var subdirs: nat
    var outOfMemory: bool
    ghost var done: seq<nat>

    ghost predicate Valid()
      reads this, stack
    {
      stack.Valid() && visited.Valid() && stack.items as object != visited.bits
    }

    ghost function State(): Walk
      requires Valid()
      reads this, stack, stack.items, visited.bits
    {
      Walk(stack.Contents(), visited.Marked(), done, directories, files, problems)
    }

    constructor (vol: Volume, count: nat)
      ensures Valid() && fresh(stack) && fresh(stack.items) && fresh(visited) && fresh(visited.bits)
      ensures this.vol == vol && visited.count == count && State() == Walk([], {}, [], 0, 0, 0)
    {
      this.vol := vol;
      stack := new InodeStack();
      visited := new InodeSet(count);
      directories, files, problems, subdirs, outOfMemory, done := 0, 0, 0, 0, false, [];
    }

    /** `problem` */
    method NoteProblem()
      requires Valid()
      modifies this`problems
      ensures Valid() && problems == old(problems) + 1
      ensures State() == old(State()).(problems := old(problems) + 1)
    {
      problems := problems + 1;
    }

    /** A directory the entry leads to: discover it, or report that it is reachable more than once. */
    method HandleDirectory(ino: nat)
      requires Valid()
      modifies this`outOfMemory, this`problems, this`subdirs, this`directories, stack, stack.items, visited.bits
      ensures Valid() && (stack.items == old(stack.items) || fresh(stack.items))
      ensures old(outOfMemory) ==> outOfMemory
      ensures !outOfMemory ==> State() == FoundDirectory(visited.count, old(State()), ino)
      ensures problems >= old(problems) && subdirs == old(subdirs) + 1
      ensures Measure(State(), visited.count) <= Measure(old(State()), visited.count)
    {
      hide Range, InodeSet.Marked, InodeStack.Contents;
      subdirs := subdirs + 1;
      directories := directories + 1;
      var known := visited.Seen(ino);
      if known {
        NoteProblem();
        return;
      }
      ghost var marked, contents := visited.Marked(), stack.Contents();
      MarkOne(marked, visited.count, ino);
      visited.Mark(ino);
      assert stack.Contents() == contents;
      ghost var bits := visited.bits[..];
      var ok := stack.Push(ino);
      assert visited.bits[..] == bits;
      assert visited.Marked() == marked + {ino};
      if !ok {
        outOfMemory := true;
      }
    }

    /** `on_entry`. */
    method HandleEntry(e: Entry)
      requires Valid()
      modifies this, stack, stack.items, visited.bits
      ensures Valid() && (stack.items == old(stack.items) || fresh(stack.items))
      ensures old(outOfMemory) ==> outOfMemory
      ensures !outOfMemory ==> State() == OnEntry(vol, visited.count, old(State()), e)
      ensures done == old(done) && problems >= old(problems)
      ensures subdirs == old(subdirs) + if vol.NamesDir(e) then 1 else 0
      ensures Measure(State(), visited.count) <= Measure(old(State()), visited.count)
    {
      hide FoundDirectory, Range, InodeSet.Marked, InodeStack.Contents;
      if (|e.name| == 1 && e.name[0] == '.') || (|e.name| == 2 && e.name[0] == '.' && e.name[1] == '.') {
        return;
      }
      if e.inode == 0 {
        NoteProblem();
        return;
      }
      var a := vol.getattr(e.inode);
      if a.None? || a.value.linkCount == 0 {
        NoteProblem();
        return;
      }
      if e.kind != Unknown && e.kind != a.value.kind {
        NoteProblem();
      }
      if a.value.kind == Dir {
        HandleDirectory(e.inode);
      } else {
        files := files + 1;
      }
    }

    /** `ext4b_readdir` with `on_entry` as its callback. */
    method HandleEntries(es: seq<Entry>)
      requires Valid() && subdirs == 0
      modifies this, stack, stack.items, visited.bits
      ensures Valid() && (stack.items == old(stack.items) || fresh(stack.items))
      ensures !outOfMemory ==> State() == Scan(vol, visited.count, old(State()), es)
      ensures done == old(done) && problems >= old(problems)
      ensures subdirs == vol.Subdirs(es)
      ensures Measure(State(), visited.count) <= Measure(old(State()), visited.count)
    {
      hide OnEntry, Measure, InodeSet.Marked, InodeStack.Contents;
      for i := 0 to |es|
        invariant Valid() && (stack.items == old(stack.items) || fresh(stack.items))
        invariant !outOfMemory ==> State() == Scan(vol, visited.count, old(State()), es[..i])
        invariant done == old(done) && problems >= old(problems)
        invariant subdirs == vol.Subdirs(es[..i])
        invariant Measure(State(), visited.count) <= Measure(old(State()), visited.count)
      {
        assert es[..i + 1][..i] == es[..i];
        HandleEntry(es[i]);
      }
      assert es[..|es|] == es;
    }

    /** The top of the stack, and a fresh count of subdirectories. */
    method TakeDirectory() returns (d: nat)
      requires Valid() && stack.Contents() != []
      modifies this`subdirs, this`outOfMemory, stack
      ensures Valid() && stack.items == old(stack.items)
      ensures subdirs == 0 && !outOfMemory
      ensures var w := old(State());
              d == w.stack[|w.stack| - 1] && State() == w.(stack := w.stack[..|w.stack| - 1])
    {
      hide InodeSet.Marked, InodeStack.Contents;
      subdirs, outOfMemory := 0, false;
      d := stack.Pop();
    }

    ghost method Finish(d: nat)
      requires Valid()
      modifies this`done
      ensures Valid() && State() == old(State()).(done := old(done) + [d])
    {
      done := done + [d];
    }

    /** One turn of the loop. True when memory ran out where that ends the check; `lost` says that a directory was not
        followed, which a failed enumeration can hide. */
    method VisitOne() returns (exhausted: bool, ghost lost: bool)
      requires Valid() && stack.Contents() != []
      modifies this, stack, stack.items, visited.bits
      ensures Valid() && (stack.items == old(stack.items) || fresh(stack.items))
      ensures !exhausted && !lost ==> State() == Visit(vol, visited.count, old(State()))
      ensures problems >= old(problems) && (lost ==> problems > 0)
      ensures Measure(State(), visited.count) < Measure(old(State()), visited.count)
    {
      hide Scan, InodeSet.Marked, InodeStack.Contents, Range;
      var d := TakeDirectory();
      exhausted, lost := false, false;
      var a := vol.getattr(d);
      if a.None? {
        NoteProblem();
        Finish(d);
        return;
      }
      var listing := vol.readdir(d);
      HandleEntries(listing.entries);
      Finish(d);
      if !listing.ok {
        NoteProblem();
        lost := outOfMemory;
        return;
      }
      if outOfMemory {
        exhausted := true;
        return;
      }
      if a.value.linkCount != subdirs + 2 && a.value.linkCount > 1 {
        NoteProblem();
      }
    }
  }

  /** `ext4b_check_tree`: 0 with the counters, or an error. `starved` says that an allocation failed. */
  method CheckTree(vol: Volume, totalInodes: Option<nat>)
      returns (rc: int, directories: nat, files: nat, problems: nat, ghost starved: bool)
    ensures rc == EIO <==> totalInodes.None? || totalInodes.value == 0
    ensures rc == EFBIG <==> totalInodes.Some? && totalInodes.value > MAX_INODES
    ensures rc == OK || rc == EIO || rc == EFBIG || (rc == ENOMEM && starved)
    ensures rc == OK && !starved ==>
      (var r := Run(vol, totalInodes.value, Start(totalInodes.value));
       directories == r.directories && files == r.files && problems == r.problems)
    ensures rc == OK && problems == 0 ==> vol.WellFormed(totalInodes.value)
    ensures rc == OK && !starved && vol.WellFormed(totalInodes.value) ==> problems == 0
  {
    hide Visit, InodeSet.Marked, InodeStack.Contents, Volume.WellFormed, Measure;
    starved, directories, files, problems := false, 0, 0, 0;
    if totalInodes.None? || totalInodes.value == 0 {
      return EIO, 0, 0, 0, false;
    }
    if totalInodes.value > MAX_INODES {
      return EFBIG, 0, 0, 0, false;
    }
    if * {
      return ENOMEM, 0, 0, 0, true;
    }
    var count := totalInodes.value;
    var ctx := new WalkCtx(vol, count);
    ctx.visited.Mark(ROOT);
    var ok := ctx.stack.Push(ROOT);
    if !ok {
      return ENOMEM, 0, 0, 0, true;
    }
    ctx.directories := ctx.directories + 1;
    ghost var target := Run(vol, count, Start(count));
    assert ctx.State() == Start(count);
    while ctx.stack.count > 0
      invariant ctx.Valid() && ctx.vol == vol && ctx.visited.count == count
      invariant fresh(ctx) && fresh(ctx.stack) && fresh(ctx.stack.items) && fresh(ctx.visited.bits)
      invariant !starved ==> Run(vol, count, ctx.State()) == target
      invariant starved ==> ctx.problems > 0
      decreases Measure(ctx.State(), count)
    {
      NonEmpty(ctx.stack);
      var exhausted;
      ghost var lost;
      exhausted, lost := ctx.VisitOne();
      if exhausted {
        return ENOMEM, ctx.directories, ctx.files, ctx.problems, true;
      }
      starved := starved || lost;
    }
    Empty(ctx.stack);
    CheckIsExact(vol, count);
    return OK, ctx.directories, ctx.files, ctx.problems, starved;
  }

  lemma NonEmpty(s: InodeStack)
    requires s.Valid() && s.count > 0
    ensures s.Contents() != []
  {}

  lemma Empty(s: InodeStack)
    requires s.Valid() && s.count == 0
    ensures s.Contents() == []
  {}
}

/**
 The open-unlink protocol of a mounted volume (Extension/Ext4Volume.swift and its extensions). Its calls run
 concurrently; what is atomic is one body under `itemsLock` or one body on the executor, and calls stop between them.
 Here a call is the point it has reached, and a run is any sequence of steps of any calls.
 */
module Lifecycle {

  type Ino = nat

  // ---- The medium ----

  /** An inode number: its names, whether it is in use, and how often the number has been handed out. */
  datatype Node = Node(links: nat, inUse: bool, generation: nat)

  /** `freed` is everything ever freed, in order. */
  datatype Disk = Disk(nodes: map<Ino, Node>, freed: seq<(Ino, nat)>)

  function Get(d: Disk, i: Ino): Node {
    if i in d.nodes then d.nodes[i] else Node(0, false, 0)
  }

  function Set(d: Disk, i: Ino, n: Node): (e: Disk)
    ensures forall j :: Get(e, j) == if j == i then n else Get(d, j)
  {
    d.(nodes := d.nodes[i := n])
  }

  predicate Nameless(d: Disk, i: Ino) {
    Get(d, i).inUse && Get(d, i).links == 0
  }

  /** Free an inode; nothing here stops it from being done twice. */
  function Free(d: Disk, i: Ino): (e: Disk)
    ensures forall j :: Get(e, j) == if j == i then Get(d, i).(links := 0, inUse := false) else Get(d, j)
  {
    var n := Get(d, i);
    Set(d, i, n.(links := 0, inUse := false)).(freed := d.freed + [(i, n.generation)])
  }

  /** `ext4b_unlink_ex`: the new medium and whether the caller now owes a release. A failure changes nothing. */
  function Unlink(d: Disk, i: Ino, defer: bool, ok: bool): (Disk, bool) {
    var n := Get(d, i);
    if !ok || n.links == 0 then (d, false)
    else if n.links > 1 then (Set(d, i, n.(links := n.links - 1)), false)
    else if defer then (Set(d, i, n.(links := 0)), true)
    else (Free(d, i), false)
  }

  /** `ext4b_release_inode`: EBUSY while there are links, and nothing to do for an inode that is free. */
  function Release(d: Disk, i: Ino, ok: bool): (Disk, bool) {
    if !ok || Get(d, i).links > 0 then (d, false) else if !Get(d, i).inUse then (d, true) else (Free(d, i), true)
  }

  /** What `ext4b_rename` does to the file whose name it takes: it never defers. */
  function RenameOver(d: Disk, i: Ino, ok: bool): Disk {
    Unlink(d, i, false, ok).0
  }

  // ---- The bookkeeping under itemsLock ----

  datatype Items = Items(pending: set<Ino>, opens: map<Ino, nat>)

  function Opens(t: Items, i: Ino): nat {
    if i in t.opens then t.opens[i] else 0
  }

  /** The body of `openItem`. */
  function OpenBody(t: Items, i: Ino): Items {
    t.(opens := t.opens[i := Opens(t, i) + 1])
  }

  /** The body of `closeItem`: what remains may be negative. */
  function CloseBody(t: Items, i: Ino): (Items, int) {
    var left := Opens(t, i) as int - 1;
    (t.(opens := if left > 0 then t.opens[i := left] else t.opens - {i}), left)
  }

  function InsertBody(t: Items, i: Ino): Items {
    t.(pending := t.pending + {i})
  }

  /** Take an inode out of the set: whether it was there. */
  function TakeBody(t: Items, i: Ino): (Items, bool) {
    (t.(pending := t.pending - {i}), i in t.pending)
  }

  function TakeAllBody(t: Items): (Items, set<Ino>) {
    (t.(pending := {}), t.pending)
  }

  // ---- Calls ----

  /** Where a call is: what its next atomic body will do. */
  datatype Call =
    | Check(i: Ino)                 // removeItem, on the executor: look at the open count
    | Remove(i: Ino, defer: bool)   // removeItem, in the same body: unlink
    | Note(i: Ino)                  // removeItem: notePendingRelease
    | Take(i: Ino)                  // releaseIfPending: take it out of the set
    | Exec(i: Ino)                  // releaseIfPending: release it on the executor
    | Back(i: Ino)                  // releaseIfPending: put it back
    | TakeAll                       // releaseAllPending: take the whole set
    | Drain(rest: set<Ino>)         // releaseAllPending: release them one by one
    | Shut                          // closeVolume

  /** The inodes a call has taken responsibility for. */
  predicate Holds(c: Call, i: Ino) {
    match c
    case Note(j) => i == j
    case Exec(j) => i == j
    case Back(j) => i == j
    case Drain(rest) => i in rest
    case _ => false
  }

  /** `abandoned` is what a failed final release leaves to the orphan list on the medium. */
  datatype State = State(disk: Disk, items: Items, calls: map<nat, Call>, live: bool, abandoned: set<Ino>)

  const INIT := State(Disk(map[], []), Items({}, map[]), map[], true, {})

  datatype Action =
    | Create(i: Ino)                            // a new file, one name
    | Rename(i: Ino, ok: bool)                  // another file takes a name of this one
    | Link(i: Ino)                              // another name for a file that has one
    | Open(i: Ino)
    | Close(c: nat, i: Ino)
    | StartRemove(c: nat, i: Ino)
    | StartRelease(c: nat, i: Ino)              // deactivateItem, reclaimItem
    | StartUnmount(c: nat)
    | StartShut(c: nat)                         // deactivate, unloadResource, format: closeVolume alone
    | Step(c: nat, ok: bool, pick: Ino)         // the next atomic body of a call

  /** A new call, under a name no call in flight has. */
  function Start(s: State, c: nat, call: Call): State {
    if c in s.calls then s else s.(calls := s.calls[c := call])
  }

  function Goto(s: State, c: nat, call: Call): State {
    s.(calls := s.calls[c := call])
  }

  function Done(s: State, c: nat): State {
    s.(calls := s.calls - {c})
  }

  /** The executor runs one body at a time; only removeItem's can be caught half way. */
  predicate Idle(s: State) {
    forall c :: c in s.calls ==> !s.calls[c].Remove?
  }

  function StepCall(s: State, c: nat, ok: bool, pick: Ino): State
    requires c in s.calls
  {
    match s.calls[c]
    case Check(i) =>
      if !Idle(s) then s
      else if s.live then Goto(s, c, Remove(i, Opens(s.items, i) > 0)) else Done(s, c)
    case Remove(i, defer) =>
      var (disk, orphaned) := Unlink(s.disk, i, defer, ok && s.live);
      if orphaned then Goto(s.(disk := disk), c, Note(i)) else Done(s.(disk := disk), c)
    case Note(i) => Done(s.(items := InsertBody(s.items, i)), c)
    case Take(i) =>
      var (items, waiting) := TakeBody(s.items, i);
      if waiting then Goto(s.(items := items), c, Exec(i)) else Done(s.(items := items), c)
    case Exec(i) =>
      var (disk, released) := Release(s.disk, i, ok && s.live);
      if !Idle(s) then s
      else if released then Done(s.(disk := disk), c) else Goto(s, c, Back(i))
    case Back(i) => Done(s.(items := InsertBody(s.items, i)), c)
    case TakeAll =>
      var (items, waiting) := TakeAllBody(s.items);
      Goto(s.(items := items), c, Drain(waiting))
    case Drain(rest) =>
      if rest == {} then Goto(s, c, Shut)
      else if pick !in rest || !Idle(s) then s
      else
        var (disk, released) := Release(s.disk, pick, ok && s.live);
        Goto(s.(disk := disk, abandoned := if released then s.abandoned else s.abandoned + {pick}), c,
             Drain(rest - {pick}))
    case Shut => if Idle(s) then Done(s.(live := false), c) else s
  }

  function Next(s: State, a: Action): State {
    match a
    case Create(i) =>
      var n := Get(s.disk, i);
      if n.inUse || !s.live || !Idle(s) then s else s.(disk := Set(s.disk, i, Node(1, true, n.generation + 1)))
    case Link(i) =>
      var n := Get(s.disk, i);
      if n.links == 0 || !s.live || !Idle(s) then s else s.(disk := Set(s.disk, i, n.(links := n.links + 1)))
    case Rename(i, ok) => if !s.live || !Idle(s) then s else s.(disk := RenameOver(s.disk, i, ok))
    case Open(i) => s.(items := OpenBody(s.items, i))
    case Close(c, i) =>
      if c in s.calls then s
      else
        var (items, left) := CloseBody(s.items, i);
        if left <= 0 then Start(s.(items := items), c, Take(i)) else s.(items := items)
    case StartRemove(c, i) => Start(s, c, Check(i))
    case StartRelease(c, i) => Start(s, c, Take(i))
    case StartUnmount(c) => Start(s, c, TakeAll)
    case StartShut(c) => Start(s, c, Shut)
    case Step(c, ok, pick) => if c in s.calls then StepCall(s, c, ok, pick) else s
  }

  function Run(s: State, actions: seq<Action>): State
    decreases |actions|
  {
    if actions == [] then s else Run(Next(s, actions[0]), actions[1..])
  }

  // ---- Exactly one owner ----

  ghost predicate InFlight(s: State, i: Ino) {
    exists c :: c in s.calls && Holds(s.calls[c], i)
  }

  /** An allocated inode without a name waits in the set, is held by a call, or was left to the orphan list. */
  ghost predicate Owned(s: State) {
    forall i :: Nameless(s.disk, i) ==> i in s.items.pending || i in s.abandoned || InFlight(s, i)
  }

  /** And by no more than one of them, and nothing else is owned. */
  ghost predicate Exclusive(s: State) {
    && (forall i :: i in s.items.pending ==> Nameless(s.disk, i) && i !in s.abandoned)
    && (forall i :: i in s.abandoned ==> Nameless(s.disk, i))
    && (forall c, i :: c in s.calls && Holds(s.calls[c], i) ==>
          Nameless(s.disk, i) && i !in s.items.pending && i !in s.abandoned)
    && (forall c, d, i :: c in s.calls && d in s.calls && Holds(s.calls[c], i) && Holds(s.calls[d], i) ==> c == d)
  }

  /** Nothing is freed twice while its number is the same file's. */
  ghost predicate FreedOnce(d: Disk) {
    && (forall k :: 0 <= k < |d.freed| ==> Settled(d, d.freed[k]))
    && (forall j, k :: 0 <= j < k < |d.freed| ==> d.freed[j] != d.freed[k])
  }

  /** A freed file's number is free, or another file's. */
  predicate Settled(d: Disk, f: (Ino, nat)) {
    f.1 < Get(d, f.0).generation || (f.1 == Get(d, f.0).generation && !Get(d, f.0).inUse)
  }

  /** A number that is free has no names. */
  ghost predicate FreeIsUnlinked(d: Disk) {
    forall i :: !Get(d, i).inUse ==> Get(d, i).links == 0
  }

  /** At most one removal is half way. */
  ghost predicate OneBody(s: State) {
    forall c, d :: c in s.calls && d in s.calls && s.calls[c].Remove? && s.calls[d].Remove? ==> c == d
  }

  ghost predicate Inv(s: State) {
    Owned(s) && Exclusive(s) && FreedOnce(s.disk) && FreeIsUnlinked(s.disk) && OneBody(s)
  }

  lemma FreeKeeps(d: Disk, i: Ino)
    requires FreedOnce(d) && FreeIsUnlinked(d) && Get(d, i).inUse
    ensures FreedOnce(Free(d, i)) && FreeIsUnlinked(Free(d, i))
  {
    var e := Free(d, i);
    forall k | 0 <= k < |e.freed| ensures Settled(e, e.freed[k]) {
      if k < |d.freed| { assert e.freed[k] == d.freed[k] && Settled(d, d.freed[k]); }
    }
    forall j, k | 0 <= j < k < |e.freed| ensures e.freed[j] != e.freed[k] {
      assert e.freed[j] == d.freed[j] && Settled(d, d.freed[j]);
    }
  }

  lemma SetKeeps(d: Disk, i: Ino, n: Node)
    requires FreedOnce(d) && FreeIsUnlinked(d) && n.inUse
    requires n.generation > Get(d, i).generation || (Get(d, i).inUse && n.generation == Get(d, i).generation)
    ensures FreedOnce(Set(d, i, n)) && FreeIsUnlinked(Set(d, i, n))
  {
    var e := Set(d, i, n);
    forall k | 0 <= k < |e.freed| ensures Settled(e, e.freed[k]) {
      assert Settled(d, d.freed[k]);
    }
  }

  /** Only call c moved: the others hold what they held. */
  ghost predicate OnlyCall(s: State, t: State, c: nat) {
    forall d :: d != c ==> (d in s.calls <==> d in t.calls) && (d in s.calls ==> s.calls[d] == t.calls[d])
  }

  ghost predicate HeldBy(s: State, c: nat, i: Ino) {
    c in s.calls && Holds(s.calls[c], i)
  }

  /** Whatever only call c gained or lost was in one place before and is in one place after: inode by inode. */
  ghost predicate Moves(s: State, t: State, c: nat, i: Ino) {
    var before := (if i in s.items.pending then 1 else 0) + (if i in s.abandoned then 1 else 0)
                  + if HeldBy(s, c, i) then 1 else 0;
    var after := (if i in t.items.pending then 1 else 0) + (if i in t.abandoned then 1 else 0)
                 + if HeldBy(t, c, i) then 1 else 0;
    after - before == (if Nameless(t.disk, i) then 1 else 0) - if Nameless(s.disk, i) then 1 else 0
  }

  /** A call that moves every inode's one owner to one owner, and gives a new nameless inode one, keeps ownership. */
  lemma MovingKeepsOwners(s: State, t: State, c: nat)
    requires Owned(s) && Exclusive(s) && OnlyCall(s, t, c)
    requires forall i :: Moves(s, t, c, i)
    ensures Owned(t) && Exclusive(t)
  {
    forall i | Nameless(t.disk, i) ensures i in t.items.pending || i in t.abandoned || InFlight(t, i) {
      assert Moves(s, t, c, i);
      if HeldBy(t, c, i) {
        assert InFlight(t, i);
      } else if Nameless(s.disk, i) && i !in s.items.pending && i !in s.abandoned && !HeldBy(s, c, i) {
        var d :| d in s.calls && Holds(s.calls[d], i);
        assert d in t.calls && Holds(t.calls[d], i);
      }
    }
    forall i ensures i in t.items.pending ==> Nameless(t.disk, i) && i !in t.abandoned {
      OwnerIsExclusive(s, t, c, i);
    }
    forall i ensures i in t.abandoned ==> Nameless(t.disk, i) {
      OwnerIsExclusive(s, t, c, i);
    }
    forall d, i | d in t.calls && Holds(t.calls[d], i)
      ensures Nameless(t.disk, i) && i !in t.items.pending && i !in t.abandoned
    {
      OwnerIsExclusive(s, t, c, i);
      if d != c { HolderStays(s, t, c, d, i); }
    }
    forall d, e, i | d in t.calls && e in t.calls && Holds(t.calls[d], i) && Holds(t.calls[e], i) ensures d == e {
      if d != c { HolderStays(s, t, c, d, i); }
      if e != c { HolderStays(s, t, c, e, i); }
    }
  }

  /** Of the set, the orphan list and call c, at most one owns an inode, and only a nameless one. */
  lemma OwnerIsExclusive(s: State, t: State, c: nat, i: Ino)
    requires Exclusive(s) && Moves(s, t, c, i)
    ensures i in t.items.pending ==> Nameless(t.disk, i) && i !in t.abandoned && !HeldBy(t, c, i)
    ensures i in t.abandoned ==> Nameless(t.disk, i) && !HeldBy(t, c, i)
    ensures HeldBy(t, c, i) ==> Nameless(t.disk, i)
  {}

  /** What another call holds is still nameless and nobody else's. */
  lemma HolderStays(s: State, t: State, c: nat, d: nat, i: Ino)
    requires Exclusive(s) && OnlyCall(s, t, c) && Moves(s, t, c, i) && d != c && HeldBy(t, d, i)
    ensures HeldBy(s, d, i) && !HeldBy(s, c, i)
    ensures Nameless(t.disk, i) && i !in t.items.pending && i !in t.abandoned && !HeldBy(t, c, i)
  {}

  /** What a step does to the medium. */
  ghost predicate DiskKeeps(d: Disk) {
    FreedOnce(d) && FreeIsUnlinked(d)
  }

  lemma UnlinkKeeps(d: Disk, i: Ino, defer: bool, ok: bool)
    requires DiskKeeps(d)
    ensures var (e, orphaned) := Unlink(d, i, defer, ok);
            && DiskKeeps(e) && (orphaned ==> !Nameless(d, i) && Nameless(e, i))
            && forall j :: j != i || !orphaned ==> (Nameless(e, j) <==> Nameless(d, j))
  {
    var n := Get(d, i);
    assert n.links > 0 ==> n.inUse;
    if n.links > 0 {
      FreeKeeps(d, i);
      SetKeeps(d, i, n.(links := n.links - 1));
    }
  }

  lemma ReleaseKeeps(d: Disk, i: Ino, ok: bool)
    requires DiskKeeps(d) && Nameless(d, i)
    ensures var (e, released) := Release(d, i, ok);
            && DiskKeeps(e) && (released <==> ok)
            && forall j :: Nameless(e, j) <==> Nameless(d, j) && !(released && j == i)
  {
    FreeKeeps(d, i);
  }

  lemma StepKeeps(s: State, c: nat, ok: bool, pick: Ino)
    requires Inv(s) && c in s.calls
    ensures Inv(StepCall(s, c, ok, pick))
  {
    hide FreedOnce, FreeIsUnlinked, Unlink, Release, Nameless, Owned, OneBody, Idle;
    StepOneBody(s, c, ok, pick);
    var t := StepCall(s, c, ok, pick);
    match s.calls[c] {
      case Remove(i, defer) => UnlinkKeeps(s.disk, i, defer, ok && s.live);
      case Exec(i) =>
        assert Holds(s.calls[c], i);
        ReleaseKeeps(s.disk, i, ok && s.live);
      case Drain(rest) =>
        if pick in rest {
          assert Holds(s.calls[c], pick);
          ReleaseKeeps(s.disk, pick, ok && s.live);
        }
      case _ =>
    }
    assert DiskKeeps(t.disk);
    forall i ensures Moves(s, t, c, i) {
      assert HeldBy(s, c, i) ==> Nameless(s.disk, i) && i !in s.items.pending && i !in s.abandoned;
    }
    MovingKeepsOwners(s, t, c);
  }

  lemma StepOneBody(s: State, c: nat, ok: bool, pick: Ino)
    requires OneBody(s) && c in s.calls
    ensures OneBody(StepCall(s, c, ok, pick))
  {
    hide Unlink, Release;
  }

  lemma LinkedIsInUse(d: Disk, i: Ino)
    requires FreeIsUnlinked(d) && Get(d, i).links > 0
    ensures Get(d, i).inUse
  {}

  lemma NextOneBody(s: State, a: Action)
    requires OneBody(s)
    ensures OneBody(Next(s, a))
  {
    hide StepCall, RenameOver;
    if a.Step? && a.c in s.calls { StepOneBody(s, a.c, a.ok, a.pick); }
  }

  lemma NextKeeps(s: State, a: Action)
    requires Inv(s)
    ensures Inv(Next(s, a))
  {
    hide FreedOnce, FreeIsUnlinked, Owned, OneBody, Idle;
    var t := Next(s, a);
    NextOneBody(s, a);
    if a.Step? {
      if a.c in s.calls { StepKeeps(s, a.c, a.ok, a.pick); }
    } else {
      var c := match a { case Close(c, _) => c case StartRemove(c, _) => c case StartRelease(c, _) => c
                         case StartUnmount(c) => c case StartShut(c) => c case _ => 0 };
      if a.Create? && t != s {
        SetKeeps(s.disk, a.i, Get(t.disk, a.i));
      } else if a.Link? && t != s {
        LinkedIsInUse(s.disk, a.i);
        SetKeeps(s.disk, a.i, Get(t.disk, a.i));
      } else if a.Rename? {
        UnlinkKeeps(s.disk, a.i, false, a.ok);
      }
      assert forall i :: Nameless(t.disk, i) <==> Nameless(s.disk, i);
      forall i ensures Moves(s, t, c, i) {}
      MovingKeepsOwners(s, t, c);
    }
  }

  /** In every interleaving, with any failures: an allocated inode without a name waits in the set, is held by exactly
      one call, or was left to the orphan list; never two of these; and no file is freed twice. */
  lemma {:induction false} EveryRunKeeps(s: State, actions: seq<Action>)
    requires Inv(s)
    ensures Inv(Run(s, actions))
    decreases |actions|
  {
    if actions != [] {
      NextKeeps(s, actions[0]);
      EveryRunKeeps(Next(s, actions[0]), actions[1..]);
    }
  }

  lemma InitInv()
    ensures Inv(INIT)
  {}

  /** The same from the start of the session, said in full. */
  lemma ExactlyOneOwner(actions: seq<Action>, i: Ino)
    ensures var s := Run(INIT, actions);
            && (Nameless(s.disk, i) <==> i in s.items.pending || i in s.abandoned || InFlight(s, i))
            && !(i in s.items.pending && i in s.abandoned)
            && !(i in s.items.pending && InFlight(s, i)) && !(i in s.abandoned && InFlight(s, i))
            && (forall c, d :: HeldBy(s, c, i) && HeldBy(s, d, i) ==> c == d)
            && (forall j, k :: 0 <= j < k < |s.disk.freed| ==> s.disk.freed[j] != s.disk.freed[k])
  {
    InitInv();
    EveryRunKeeps(INIT, actions);
  }

  lemma HeldIsNameless(s: State, c: nat, i: Ino)
    requires Exclusive(s) && c in s.calls && Holds(s.calls[c], i)
    ensures Nameless(s.disk, i)
  {}

  // ---- An undisturbed unmount ----

  /** Steps of call c alone. */
  ghost predicate StepsOf(actions: seq<Action>, c: nat) {
    forall a :: a in actions ==> a.Step? && a.c == c
  }

  ghost predicate AllSucceed(actions: seq<Action>) {
    forall a :: a in actions ==> a.Step? && a.ok
  }

  /** Where an unmount with the volume to itself can be: it alone runs, and past its first step the set is empty. */
  ghost predicate Alone(s: State, c: nat) {
    && (forall d :: d in s.calls ==> d == c && (s.calls[d].TakeAll? || s.calls[d].Drain? || s.calls[d].Shut?))
    && ((c in s.calls && s.calls[c].TakeAll?) || s.items.pending == {})
  }

  lemma AloneStep(s: State, c: nat, ok: bool, pick: Ino)
    requires Alone(s, c) && c in s.calls && s.live && Exclusive(s)
    ensures var t := StepCall(s, c, ok, pick);
            && Alone(t, c) && (t.live <==> c in t.calls) && (ok ==> t.abandoned == s.abandoned)
  {
    if s.calls[c].Drain? && pick in s.calls[c].rest {
      assert Holds(s.calls[c], pick);
      assert Nameless(s.disk, pick);
    }
    hide Exclusive, Release;
  }

  lemma {:induction false} AloneRun(s: State, c: nat, actions: seq<Action>)
    requires Inv(s) && Alone(s, c) && StepsOf(actions, c) && (s.live <==> c in s.calls)
    ensures var t := Run(s, actions);
            && Inv(t) && Alone(t, c) && (t.live <==> c in t.calls)
            && (AllSucceed(actions) ==> t.abandoned == s.abandoned)
    decreases |actions|
  {
    hide Alone, Exclusive, Owned, FreedOnce, FreeIsUnlinked;
    if actions != [] {
      var a := actions[0];
      assert a in actions;
      NextKeeps(s, a);
      if c in s.calls { AloneStep(s, c, a.ok, a.pick); }
      AloneRun(Next(s, a), c, actions[1..]);
    }
  }

  /** An unmount that has the volume to itself, once it is over: the set is empty, the volume closed, and what is
      allocated without a name is exactly what a failed release left to the orphan list, which is nothing more than
      before when every release succeeded. */
  lemma UnmountLeavesNothing(s: State, c: nat, actions: seq<Action>)
    requires Inv(s) && s.calls == map[] && s.live && StepsOf(actions, c)
    requires c !in Run(s, [StartUnmount(c)] + actions).calls
    ensures var t := Run(s, [StartUnmount(c)] + actions);
            && t.calls == map[] && t.items.pending == {} && !t.live
            && (forall i :: Nameless(t.disk, i) <==> i in t.abandoned)
            && (AllSucceed(actions) ==> t.abandoned == s.abandoned)
  {
    var u := Next(s, StartUnmount(c));
    assert ([StartUnmount(c)] + actions)[1..] == actions;
    NextKeeps(s, StartUnmount(c));
    hide FreedOnce, FreeIsUnlinked, OneBody, StepsOf, AllSucceed;
    assert u.calls == map[c := TakeAll];
    AloneRun(u, c, actions);
    hide Run;
    var t := Run(u, actions);
    assert t.calls.Keys == {};
    forall i ensures !InFlight(t, i) {}
    forall i ensures Nameless(t.disk, i) <==> i in t.abandoned {}
  }

  lemma {:induction false} DrainFinishes(s: State, c: nat, rest: set<Ino>) returns (actions: seq<Action>)
    requires Inv(s) && s.calls == map[c := Drain(rest)] && s.live
    ensures StepsOf(actions, c) && AllSucceed(actions) && c !in Run(s, actions).calls
    decreases |rest|
  {
    hide FreedOnce, FreeIsUnlinked, OneBody, Owned;
    if rest == {} {
      var u := Next(s, Step(c, true, 0));
      assert u.calls == map[c := Shut];
      RunOne(u, Step(c, true, 0));
      actions := [Step(c, true, 0), Step(c, true, 0)];
      assert actions[1..] == [Step(c, true, 0)];
    } else {
      var i :| i in rest;
      var u := Next(s, Step(c, true, i));
      assert u.calls == map[c := Drain(rest - {i})];
      NextKeeps(s, Step(c, true, i));
      var more := DrainFinishes(u, c, rest - {i});
      actions := [Step(c, true, i)] + more;
      assert actions[1..] == more;
    }
  }

  /** And it can get there. */
  lemma UnmountFinishes(s: State, c: nat)
    requires Inv(s) && s.calls == map[] && s.live
    ensures exists actions :: StepsOf(actions, c) && AllSucceed(actions)
                              && c !in Run(s, [StartUnmount(c)] + actions).calls
  {
    var u := Next(s, StartUnmount(c));
    var v := Next(u, Step(c, true, 0));
    NextKeeps(s, StartUnmount(c));
    NextKeeps(u, Step(c, true, 0));
    assert u.calls == map[c := TakeAll];
    assert v.calls == map[c := Drain(s.items.pending)];
    var more := DrainFinishes(v, c, s.items.pending);
    var actions := [Step(c, true, 0)] + more;
    assert actions[1..] == more && ([StartUnmount(c)] + actions)[1..] == actions;
    hide Next;
    assert Run(s, [StartUnmount(c)] + actions) == Run(u, actions) == Run(v, more);
  }

  // ---- What a call does when nothing gets in its way ----

  /** Inode i has just been freed, and nothing else on the medium is different. */
  ghost predicate JustFreed(d: Disk, e: Disk, i: Ino) {
    && e.freed == d.freed + [(i, Get(d, i).generation)] && !Get(e, i).inUse
    && forall j :: j != i ==> Get(e, j) == Get(d, j)
  }

  /** Inode i has links names now, and nothing else on the medium is different. */
  ghost predicate NowLinked(d: Disk, e: Disk, i: Ino, links: nat) {
    && e.freed == d.freed && Get(e, i) == Get(d, i).(links := links)
    && forall j :: j != i ==> Get(e, j) == Get(d, j)
  }

  /** The same calls, the set of waiting inodes, and everybody's count of opens but one. */
  ghost predicate Settles(s: State, t: State, pending: set<Ino>, i: Ino, opens: nat) {
    && t.calls == s.calls && t.live == s.live && t.abandoned == s.abandoned && t.items.pending == pending
    && forall j :: Opens(t.items, j) == if j == i then opens else Opens(s.items, j)
  }

  lemma RunThree(s: State, a: Action, b: Action, c: Action)
    ensures Run(s, [a, b, c]) == Next(Next(Next(s, a), b), c)
  {
    hide Next;
    var r := [a, b, c];
    assert r[1..] == [b, c] && r[1..][1..] == [c];
    RunOne(Next(Next(s, a), b), c);
    assert Run(Next(s, a), r[1..]) == Run(Next(Next(s, a), b), r[1..][1..]);
  }

  lemma RunFour(s: State, a: Action, b: Action, c: Action, d: Action)
    ensures Run(s, [a, b, c, d]) == Next(Next(Next(Next(s, a), b), c), d)
  {
    hide Next;
    assert [a, b, c, d][1..] == [b, c, d];
    RunThree(Next(s, a), b, c, d);
  }

  /** A call is about to look for i in the set; everything else is as it was. */
  ghost predicate Looking(s: State, t: State, c: nat, i: Ino) {
    && t.calls == s.calls[c := Take(i)] && t.disk == s.disk && t.live == s.live && t.abandoned == s.abandoned
    && t.items.pending == s.items.pending
  }

  /** What waits is freed by the two steps of the call that looks for it. */
  lemma TakenIsFreed(s: State, u: State, c: nat, i: Ino)
    requires Inv(s) && s.live && Idle(s) && c !in s.calls && i in s.items.pending && Looking(s, u, c, i)
    ensures var t := Next(Next(u, Step(c, true, 0)), Step(c, true, 0));
            && JustFreed(s.disk, t.disk, i)
            && Settles(s.(items := u.items), t, s.items.pending - {i}, i, Opens(u.items, i))
  {
    hide FreedOnce, FreeIsUnlinked, Owned, OneBody;
    assert Nameless(s.disk, i);
    var v := Next(u, Step(c, true, 0));
    assert v.calls == s.calls[c := Exec(i)];
    assert Idle(v);
  }

  /** Or it waits again when its release fails. */
  lemma FailedWaitsAgain(s: State, u: State, c: nat, i: Ino, ok: bool)
    requires Inv(s) && s.live && Idle(s) && c !in s.calls && i in s.items.pending && Looking(s, u, c, i)
    ensures var t := Next(Next(Next(u, Step(c, true, 0)), Step(c, false, 0)), Step(c, ok, 0));
            t.disk == s.disk && Settles(s.(items := u.items), t, s.items.pending, i, Opens(u.items, i))
  {
    hide FreedOnce, FreeIsUnlinked, Owned, OneBody, Exclusive;
    var v := Next(u, Step(c, true, 0));
    assert v.calls == s.calls[c := Exec(i)];
    assert Idle(v);
    var w := Next(v, Step(c, false, 0));
    assert w.calls == s.calls[c := Back(i)];
    assert s.items.pending - {i} + {i} == s.items.pending;
  }

  /** And a call that finds nothing waiting is over at once. */
  lemma NothingWaits(s: State, u: State, c: nat, i: Ino, ok: bool)
    requires c !in s.calls && i !in s.items.pending && Looking(s, u, c, i)
    ensures var t := Next(u, Step(c, ok, 0));
            t.disk == s.disk && Settles(s.(items := u.items), t, s.items.pending, i, Opens(u.items, i))
  {
    assert s.items.pending - {i} == s.items.pending;
  }

  /** The last close of a file that waits for it frees the file; if the release fails the file waits on. */
  lemma LastCloseFrees(s: State, c: nat, i: Ino)
    requires Inv(s) && s.live && Idle(s) && c !in s.calls && i in s.items.pending && Opens(s.items, i) <= 1
    ensures var t := Run(s, [Close(c, i), Step(c, true, 0), Step(c, true, 0)]);
            JustFreed(s.disk, t.disk, i) && Settles(s, t, s.items.pending - {i}, i, 0)
    ensures forall ok ::
              var t := Run(s, [Close(c, i), Step(c, true, 0), Step(c, false, 0), Step(c, ok, 0)]);
              t.disk == s.disk && Settles(s, t, s.items.pending, i, 0)
  {
    var u := Next(s, Close(c, i));
    hide Run, Inv;
    assert Looking(s, u, c, i) && forall j :: Opens(u.items, j) == if j == i then 0 else Opens(s.items, j);
    hide Next, Idle, Opens;
    TakenIsFreed(s, u, c, i);
    RunThree(s, Close(c, i), Step(c, true, 0), Step(c, true, 0));
    forall ok
      ensures var t := Run(s, [Close(c, i), Step(c, true, 0), Step(c, false, 0), Step(c, ok, 0)]);
              t.disk == s.disk && Settles(s, t, s.items.pending, i, 0)
    {
      FailedWaitsAgain(s, u, c, i, ok);
      RunFour(s, Close(c, i), Step(c, true, 0), Step(c, false, 0), Step(c, ok, 0));
    }
  }

  /** So do deactivating and reclaiming it, however often it is open. */
  lemma ReleaseFrees(s: State, c: nat, i: Ino)
    requires Inv(s) && s.live && Idle(s) && c !in s.calls && i in s.items.pending
    ensures var t := Run(s, [StartRelease(c, i), Step(c, true, 0), Step(c, true, 0)]);
            JustFreed(s.disk, t.disk, i) && Settles(s, t, s.items.pending - {i}, i, Opens(s.items, i))
    ensures forall ok ::
              var t := Run(s, [StartRelease(c, i), Step(c, true, 0), Step(c, false, 0), Step(c, ok, 0)]);
              t.disk == s.disk && Settles(s, t, s.items.pending, i, Opens(s.items, i))
  {
    var u := Next(s, StartRelease(c, i));
    hide Run, Inv;
    assert Looking(s, u, c, i) && u.items == s.items;
    hide Next, Idle, Opens;
    TakenIsFreed(s, u, c, i);
    RunThree(s, StartRelease(c, i), Step(c, true, 0), Step(c, true, 0));
    forall ok
      ensures var t := Run(s, [StartRelease(c, i), Step(c, true, 0), Step(c, false, 0), Step(c, ok, 0)]);
              t.disk == s.disk && Settles(s, t, s.items.pending, i, Opens(s.items, i))
    {
      FailedWaitsAgain(s, u, c, i, ok);
      RunFour(s, StartRelease(c, i), Step(c, true, 0), Step(c, false, 0), Step(c, ok, 0));
    }
  }

  /** A close that leaves the file open starts nothing; an open is undone by it. */
  lemma CloseLeavesOpen(s: State, c: nat, i: Ino)
    requires c !in s.calls && Opens(s.items, i) >= 2
    ensures var t := Next(s, Close(c, i)); t.disk == s.disk && Settles(s, t, s.items.pending, i, Opens(s.items, i) - 1)
    ensures forall j :: Opens(Next(Next(s, Open(i)), Close(c, i)).items, j) == Opens(s.items, j)
  {}

  /** A close or a release of a file that does not wait changes nothing but the count. */
  lemma NothingToRelease(s: State, c: nat, i: Ino, ok: bool)
    requires c !in s.calls && i !in s.items.pending
    ensures var t := Next(Next(s, StartRelease(c, i)), Step(c, ok, 0));
            t.disk == s.disk && Settles(s, t, s.items.pending, i, Opens(s.items, i))
    ensures Opens(s.items, i) <= 1 ==>
              var t := Next(Next(s, Close(c, i)), Step(c, ok, 0));
              t.disk == s.disk && Settles(s, t, s.items.pending, i, 0)
  {
    var u := Next(s, StartRelease(c, i));
    assert Looking(s, u, c, i) && u.items == s.items;
    var v := Next(s, Close(c, i));
    assert Opens(s.items, i) <= 1 ==>
             Looking(s, v, c, i) && forall j :: Opens(v.items, j) == if j == i then 0 else Opens(s.items, j);
    hide Next, Opens;
    NothingWaits(s, u, c, i, ok);
    if Opens(s.items, i) <= 1 { NothingWaits(s, v, c, i, ok); }
  }

  /** A removal of a file's only name frees a file that nobody has open, and makes one that somebody has open wait. */
  lemma RemoveFreesOrWaits(s: State, c: nat, i: Ino)
    requires Inv(s) && s.live && Idle(s) && c !in s.calls && Get(s.disk, i).links == 1
    ensures Opens(s.items, i) == 0 ==>
              var t := Run(s, [StartRemove(c, i), Step(c, true, 0), Step(c, true, 0)]);
              JustFreed(s.disk, t.disk, i) && Settles(s, t, s.items.pending, i, 0)
    ensures Opens(s.items, i) > 0 ==>
              var t := Run(s, [StartRemove(c, i), Step(c, true, 0), Step(c, true, 0), Step(c, true, 0)]);
              NowLinked(s.disk, t.disk, i, 0) && Settles(s, t, s.items.pending + {i}, i, Opens(s.items, i))
  {
    hide Inv, Run;
    var defer := Opens(s.items, i) > 0;
    var v := CheckedFor(s, c, i);
    RunThree(s, StartRemove(c, i), Step(c, true, 0), Step(c, true, 0));
    RunFour(s, StartRemove(c, i), Step(c, true, 0), Step(c, true, 0), Step(c, true, 0));
    hide Idle, Opens;
    var w := Next(v, Step(c, true, 0));
    if defer {
      assert w.calls == s.calls[c := Note(i)];
      assert Next(w, Step(c, true, 0)).calls == s.calls;
    } else {
      assert w.calls == s.calls;
    }
  }

  lemma CheckedFor(s: State, c: nat, i: Ino) returns (v: State)
    requires s.live && Idle(s) && c !in s.calls
    ensures v == Next(Next(s, StartRemove(c, i)), Step(c, true, 0))
    ensures v == s.(calls := s.calls[c := Remove(i, Opens(s.items, i) > 0)])
  {
    var u := Next(s, StartRemove(c, i));
    assert u.calls == s.calls[c := Check(i)];
    assert Idle(u);
    v := Next(u, Step(c, true, 0));
    assert v.calls == s.calls[c := Remove(i, Opens(s.items, i) > 0)];
  }

  /** A removal of one name of several takes that name and no more; one that fails, or of no name, changes nothing. */
  lemma RemoveTakesOneName(s: State, c: nat, i: Ino, ok: bool)
    requires s.live && Idle(s) && c !in s.calls && (Get(s.disk, i).links > 1 || Get(s.disk, i).links == 0 || !ok)
    ensures var t := Run(s, [StartRemove(c, i), Step(c, true, 0), Step(c, ok, 0)]);
            var links := Get(s.disk, i).links;
            Settles(s, t, s.items.pending, i, Opens(s.items, i))
            && NowLinked(s.disk, t.disk, i, if ok && links > 0 then links - 1 else links)
  {
    var v := CheckedFor(s, c, i);
    RunThree(s, StartRemove(c, i), Step(c, true, 0), Step(c, ok, 0));
    hide Run, Idle, Opens;
    var w := Next(v, Step(c, ok, 0));
    assert w.calls == s.calls;
  }

  /** A name that is made and then renamed over is gone again, and the file with it if it was the only one. */
  lemma RenamedAway(s: State, i: Ino)
    requires s.live && Idle(s)
    ensures Get(s.disk, i).links > 0 ==>
              var t := Next(Next(s, Link(i)), Rename(i, true));
              NowLinked(s.disk, t.disk, i, Get(s.disk, i).links) && t == s.(disk := t.disk)
    ensures !Get(s.disk, i).inUse ==>
              var u := Next(s, Create(i));
              var t := Next(u, Rename(i, true));
              && Get(u.disk, i).links == 1 && Get(u.disk, i).inUse && u == s.(disk := u.disk)
              && (forall j :: j != i ==> Get(u.disk, j) == Get(s.disk, j))
              && Get(u.disk, i).generation > Get(s.disk, i).generation && JustFreed(u.disk, t.disk, i)
              && t == s.(disk := t.disk)
  {
    var u := Next(s, Create(i));
    assert Idle(u) && Idle(Next(s, Link(i)));
  }

  /** Deactivating, unloading or formatting the resource closes the volume, and nothing else. */
  lemma ShutCloses(s: State, c: nat, ok: bool)
    requires Idle(s) && c !in s.calls
    ensures Next(Next(s, StartShut(c)), Step(c, ok, 0)) == s.(live := false)
  {
    var u := Next(s, StartShut(c));
    assert u.calls == s.calls[c := Shut] && Idle(u);
    assert s.calls[c := Shut] - {c} == s.calls;
  }

  /** While a removal has the executor only that removal changes the medium, and a volume that is closed changes it no
      more and stays closed. */
  lemma OneAtATime(s: State, a: Action)
    ensures !Idle(s) && Next(s, a).disk != s.disk ==> a.Step? && a.c in s.calls && s.calls[a.c].Remove?
    ensures !s.live ==> Next(s, a).disk == s.disk && !Next(s, a).live
  {
    if a.Step? && a.c in s.calls { StepAtATime(s, a.c, a.ok, a.pick); }
    hide Idle;
  }

  lemma StepAtATime(s: State, c: nat, ok: bool, pick: Ino)
    requires c in s.calls
    ensures var t := StepCall(s, c, ok, pick);
            && (!Idle(s) && t.disk != s.disk ==> s.calls[c].Remove?)
            && (!s.live ==> t.disk == s.disk && !t.live)
  {
    hide Idle;
  }

  lemma {:induction false} NothingAfterClosing(s: State, actions: seq<Action>)
    requires !s.live
    ensures Run(s, actions).disk == s.disk && !Run(s, actions).live
    decreases |actions|
  {
    hide Next;
    if actions != [] {
      OneAtATime(s, actions[0]);
      NothingAfterClosing(Next(s, actions[0]), actions[1..]);
    }
  }

  /** Steps a call still takes; the unmount takes one for each inode it finds waiting. */
  function Left(s: State, call: Call): nat {
    match call
    case Check(_) => 3
    case Remove(_, _) => 2
    case Note(_) => 1
    case Take(_) => 3
    case Exec(_) => 2
    case Back(_) => 1
    case TakeAll => |s.items.pending| + 3
    case Drain(rest) => |rest| + 2
    case Shut => 1
  }

  /** Every call ends: with the executor free, or the call having it, each of its steps brings it nearer, or over. */
  lemma EveryCallEnds(s: State, c: nat, ok: bool, pick: Ino)
    requires c in s.calls && (Idle(s) || s.calls[c].Remove?)
    requires s.calls[c].Drain? && s.calls[c].rest != {} ==> pick in s.calls[c].rest
    ensures var t := Next(s, Step(c, ok, pick));
            OnlyCall(s, t, c) && (c in t.calls ==> Left(t, t.calls[c]) < Left(s, s.calls[c]))
  {
    StepsAlone(s, c, ok, pick);
    hide OnlyCall, Idle, Unlink, Release;
    match s.calls[c] {
      case Drain(rest) => DrainEnds(s, c, ok, pick);
      case TakeAll =>
        hide Left;
        assert Next(s, Step(c, ok, pick)).calls[c] == Drain(s.items.pending);
        DrainIsNearer(s, Next(s, Step(c, ok, pick)));
      case _ =>
    }
  }

  lemma DrainIsNearer(s: State, t: State)
    ensures Left(t, Drain(s.items.pending)) < Left(s, TakeAll)
  {}

  lemma DrainEnds(s: State, c: nat, ok: bool, pick: Ino)
    requires c in s.calls && s.calls[c].Drain? && Idle(s) && (s.calls[c].rest != {} ==> pick in s.calls[c].rest)
    ensures var t := Next(s, Step(c, ok, pick)); c in t.calls && Left(t, t.calls[c]) < Left(s, s.calls[c])
  {
    hide Idle, Release;
    var rest, t := s.calls[c].rest, Next(s, Step(c, ok, pick));
    if rest == {} {
      assert t.calls[c] == Shut;
    } else {
      assert t.calls[c] == Drain(rest - {pick});
      assert |rest| == |rest - {pick}| + 1;
    }
  }

  lemma StepsAlone(s: State, c: nat, ok: bool, pick: Ino)
    ensures OnlyCall(s, Next(s, Step(c, ok, pick)), c)
  {
    hide Idle, Unlink, Release;
  }

  // ---- Never while open ----

  /** What FSKit is relied on for. It opens only files that have a name, and not while an unlink that looked at the open
      count is still to happen, nor while a close, deactivation or reclaim of the same item is in flight, nor once the
      volume is being unmounted; it deactivates, reclaims and unmounts only after the last close; and it renames nothing
      over the last name of a file that is open. */
  ghost predicate Allowed(s: State, a: Action) {
    match a
    case Open(i) =>
      && Get(s.disk, i).links > 0
      && forall c :: c in s.calls ==> s.calls[c] != Remove(i, false) && s.calls[c] != Take(i) && s.calls[c] != TakeAll
    case StartRelease(_, i) => Opens(s.items, i) == 0
    case StartUnmount(_) => forall i :: Opens(s.items, i) == 0
    case Rename(i, _) => Opens(s.items, i) == 0 || Get(s.disk, i).links > 1
    case _ => true
  }

  ghost predicate AllAllowed(s: State, actions: seq<Action>)
    decreases |actions|
  {
    actions == [] || (Allowed(s, actions[0]) && AllAllowed(Next(s, actions[0]), actions[1..]))
  }

  /** A call that is going to free this inode. */
  predicate WillFree(c: Call, i: Ino) {
    match c
    case Remove(j, defer) => i == j && !defer
    case Take(j) => i == j
    case Exec(j) => i == j
    case TakeAll => true
    case Drain(rest) => i in rest
    case _ => false
  }

  ghost predicate OpenIsSafe(s: State) {
    && (forall i :: Opens(s.items, i) > 0 ==> Get(s.disk, i).inUse)
    && (forall c, i :: c in s.calls && WillFree(s.calls[c], i) ==> Opens(s.items, i) == 0)
  }

  /** No call is about to free a file that may be opened. */
  lemma OpenedIsSpared(s: State, j: Ino, c: nat, i: Ino)
    requires Exclusive(s) && OpenIsSafe(s) && Allowed(s, Open(j)) && c in s.calls && WillFree(s.calls[c], i)
    ensures Opens(Next(s, Open(j)).items, i) == 0
  {
    assert Holds(s.calls[c], i) ==> Nameless(s.disk, i);
    assert i != j;
    assert Opens(s.items, i) == 0;
  }

  lemma AllowedKeeps(s: State, a: Action)
    requires Inv(s) && OpenIsSafe(s) && Allowed(s, a)
    ensures OpenIsSafe(Next(s, a))
  {
    hide FreedOnce, Owned;
    var t := Next(s, a);
    if a.Step? {
      if a.c in s.calls { StepIsSafe(s, a.c, a.ok, a.pick); }
    } else if a.Open? {
      forall c, i | c in t.calls && WillFree(t.calls[c], i) ensures Opens(t.items, i) == 0 {
        assert c in s.calls && t.calls[c] == s.calls[c];
        OpenedIsSpared(s, a.i, c, i);
      }
      assert Get(s.disk, a.i).inUse;
    } else {
      forall c, i | c in t.calls && WillFree(t.calls[c], i) ensures Opens(t.items, i) == 0 {
        StartIsSafe(s, a, c, i);
      }
    }
  }

  lemma StartIsSafe(s: State, a: Action, c: nat, i: Ino)
    requires OpenIsSafe(s) && Allowed(s, a) && !a.Step? && !a.Open?
    requires c in Next(s, a).calls && WillFree(Next(s, a).calls[c], i)
    ensures Opens(Next(s, a).items, i) == 0
  {
    var t := Next(s, a);
    assert Opens(t.items, i) <= Opens(s.items, i);
    if c in s.calls {
      assert t.calls[c] == s.calls[c] && Opens(s.items, i) == 0;
    } else if a.Close? {
      assert c == a.c && i == a.i;
    }
  }

  lemma StepIsSafe(s: State, c: nat, ok: bool, pick: Ino)
    requires Inv(s) && OpenIsSafe(s) && c in s.calls
    ensures OpenIsSafe(StepCall(s, c, ok, pick))
  {
    hide FreedOnce, FreeIsUnlinked, Owned, Exclusive, OneBody, Idle;
    var t := StepCall(s, c, ok, pick);
    assert forall i :: Opens(t.items, i) == Opens(s.items, i);
    forall i | Opens(t.items, i) > 0 ensures Get(t.disk, i).inUse {
      assert !WillFree(s.calls[c], i);
    }
    forall d, i | d in t.calls && WillFree(t.calls[d], i) ensures Opens(t.items, i) == 0 {
      if d != c {
        assert d in s.calls && s.calls[d] == t.calls[d];
      } else if !s.calls[c].Check? {
        assert WillFree(s.calls[c], i);
      }
    }
  }

  lemma OpenIsInUse(s: State, i: Ino)
    requires OpenIsSafe(s)
    ensures Opens(s.items, i) > 0 ==> Get(s.disk, i).inUse
  {}

  /** As long as FSKit keeps to that, no interleaving frees a file that is open. */
  lemma {:induction false} NeverFreedWhileOpen(s: State, actions: seq<Action>, i: Ino)
    requires Inv(s) && OpenIsSafe(s) && AllAllowed(s, actions)
    ensures Opens(Run(s, actions).items, i) > 0 ==> Get(Run(s, actions).disk, i).inUse
    decreases |actions|
  {
    hide Inv, OpenIsSafe, Allowed;
    if actions == [] {
      OpenIsInUse(s, i);
    } else {
      NextKeeps(s, actions[0]);
      AllowedKeeps(s, actions[0]);
      NeverFreedWhileOpen(Next(s, actions[0]), actions[1..], i);
    }
  }

  lemma InitIsSafe()
    ensures OpenIsSafe(INIT)
  {}

  lemma {:induction false} RunConcat(s: State, a: seq<Action>, b: seq<Action>)
    ensures Run(s, a + b) == Run(Run(s, a), b)
    decreases |a|
  {
    if a == [] {
      assert a + b == b;
    } else {
      assert (a + b)[0] == a[0] && (a + b)[1..] == a[1..] + b;
      RunConcat(Next(s, a[0]), a[1..], b);
    }
  }

  lemma RunOne(s: State, a: Action)
    ensures Run(s, [a]) == Next(s, a)
  {
    assert Run(Next(s, a), [a][1..]) == Next(s, a);
  }

  /** A file is open and its inode is free. */
  predicate Broken(s: State, i: Ino) {
    Opens(s.items, i) > 0 && !Get(s.disk, i).inUse
  }

  /** An open that lands between removeItem's look at the open count and its unlink breaks it: `openItem` takes only
      `itemsLock`, so nothing in the volume's own code keeps the two together. */
  lemma OpenDuringRemove()
    ensures Broken(Run(INIT, [Create(1), StartRemove(0, 1), Step(0, true, 0), Open(1), Step(0, true, 0)]), 1)
  {
    var s1 := Next(INIT, Create(1));
    var s2 := Next(s1, StartRemove(0, 1));
    var s3 := Next(s2, Step(0, true, 0));
    var s4 := Next(s3, Open(1));
    var s5 := Next(s4, Step(0, true, 0));
    assert s2.calls[0] == Check(1);
    assert s3.calls[0] == Remove(1, false);
    assert s4.calls[0] == Remove(1, false);
    assert Broken(s5, 1);
    RunFive(INIT, Create(1), StartRemove(0, 1), Step(0, true, 0), Open(1), Step(0, true, 0));
  }

  lemma RunFive(s: State, a: Action, b: Action, c: Action, d: Action, e: Action)
    ensures Run(s, [a, b, c, d, e]) == Next(Next(Next(Next(Next(s, a), b), c), d), e)
  {
    hide Next;
    var r := [a, b, c, d, e];
    var r1, r2, r3, r4 := r[1..], r[1..][1..], r[1..][1..][1..], r[1..][1..][1..][1..];
    assert r4 == [e];
    RunOne(Next(Next(Next(Next(s, a), b), c), d), e);
    assert Run(Next(Next(Next(s, a), b), c), r3) == Run(Next(Next(Next(Next(s, a), b), c), d), r4);
    assert Run(Next(Next(s, a), b), r2) == Run(Next(Next(Next(s, a), b), c), r3);
    assert Run(Next(s, a), r1) == Run(Next(Next(s, a), b), r2);
  }

  /** A close has looked at the count and not yet at the set; the file is open again and its removal has begun. */
  predicate HalfClosed(s: State) {
    && s.live && s.calls.Keys == {0, 1} && s.calls[0] == Take(1) && s.calls[1] == Check(1)
    && Opens(s.items, 1) == 1 && 1 !in s.items.pending && Get(s.disk, 1).links == 1 && Get(s.disk, 1).inUse
  }

  lemma ReopenedHalfClosed()
    ensures HalfClosed(Run(INIT, [Create(1), Open(1), Close(0, 1), Open(1), StartRemove(1, 1)]))
  {
    var t2 := Next(Next(INIT, Create(1)), Open(1));
    assert Get(t2.disk, 1) == Node(1, true, 1) && Opens(t2.items, 1) == 1 && t2.items.pending == {} && t2.live;
    var t3 := Next(t2, Close(0, 1));
    assert t3.calls == map[0 := Take(1)] && Opens(t3.items, 1) == 0 && t3.disk == t2.disk;
    var t5 := Next(Next(t3, Open(1)), StartRemove(1, 1));
    assert t5.calls == map[0 := Take(1), 1 := Check(1)] && Opens(t5.items, 1) == 1 && t5.disk == t2.disk;
    RunFive(INIT, Create(1), Open(1), Close(0, 1), Open(1), StartRemove(1, 1));
  }

  /** The removal defers the inode; the close then takes and frees it. */
  lemma HalfClosedBreaks(s: State)
    requires HalfClosed(s)
    ensures Broken(Run(s, [Step(1, true, 0), Step(1, true, 0), Step(1, true, 0), Step(0, true, 0), Step(0, true, 0)]),
                   1)
  {
    var t1 := Next(s, Step(1, true, 0));
    assert t1.calls[0] == Take(1) && t1.calls[1] == Remove(1, true) && t1.disk == s.disk && t1.items == s.items;
    var t2 := Next(t1, Step(1, true, 0));
    assert t2.calls[0] == Take(1) && t2.calls[1] == Note(1) && Nameless(t2.disk, 1) && t2.items == s.items;
    var t3 := Next(t2, Step(1, true, 0));
    assert t3.calls[0] == Take(1) && 1 in t3.items.pending && t3.disk == t2.disk && Opens(t3.items, 1) == 1;
    var t4 := Next(t3, Step(0, true, 0));
    assert t4.calls[0] == Exec(1) && t4.disk == t2.disk && Opens(t4.items, 1) == 1;
    assert Broken(Next(t4, Step(0, true, 0)), 1);
    RunFive(s, Step(1, true, 0), Step(1, true, 0), Step(1, true, 0), Step(0, true, 0), Step(0, true, 0));
  }

  /** Opening, and removing, the file again between closeItem's two critical sections breaks it too. */
  lemma ReopenDuringClose()
    ensures Broken(Run(INIT, [Create(1), Open(1), Close(0, 1), Open(1), StartRemove(1, 1)]
                           + [Step(1, true, 0), Step(1, true, 0), Step(1, true, 0), Step(0, true, 0),
                              Step(0, true, 0)]),
                   1)
  {
    hide Run, Broken, HalfClosed;
    ReopenedHalfClosed();
    HalfClosedBreaks(Run(INIT, [Create(1), Open(1), Close(0, 1), Open(1), StartRemove(1, 1)]));
    RunConcat(INIT, [Create(1), Open(1), Close(0, 1), Open(1), StartRemove(1, 1)],
              [Step(1, true, 0), Step(1, true, 0), Step(1, true, 0), Step(0, true, 0), Step(0, true, 0)]);
  }

  // ---- Exactly when an open file can be freed ----

  predicate Removes(c: Call, i: Ino) {
    match c
    case Check(j) => i == j
    case Remove(j, _) => i == j
    case _ => false
  }

  ghost function Removers(s: State, i: Ino): set<nat> {
    set c | c in s.calls && Removes(s.calls[c], i)
  }

  predicate Releases(c: Call, i: Ino) {
    match c
    case Exec(j) => i == j
    case Drain(rest) => i in rest
    case _ => false
  }

  /** A call is about to release it. */
  ghost predicate Released(s: State, i: Ino) {
    exists c :: c in s.calls && Releases(s.calls[c], i)
  }

  /** A call is about to remove a name of it, having found it closed. */
  ghost predicate FoundClosed(s: State, i: Ino) {
    exists c :: c in s.calls && s.calls[c] == Remove(i, false)
  }

  /** A call is about to look at the set. */
  ghost predicate Looked(s: State, i: Ino) {
    exists c :: c in s.calls && (s.calls[c] == Take(i) || s.calls[c] == TakeAll)
  }

  /** A call is about to put it into the set. */
  ghost predicate Noted(s: State, i: Ino) {
    exists c :: c in s.calls && (s.calls[c] == Note(i) || s.calls[c] == Back(i))
  }

  /** It is in the set or will be, as when as many removals are in flight as it has names. */
  ghost predicate Coming(s: State, i: Ino) {
    i in s.items.pending || Noted(s, i) || 1 <= Get(s.disk, i).links <= |Removers(s, i)|
  }

  /** The calls in flight can free it by themselves, though it is open. */
  ghost predicate Doomed(s: State, i: Ino) {
    s.live && (Released(s, i) || (Get(s.disk, i).links == 1 && FoundClosed(s, i)) || (Coming(s, i) && Looked(s, i)))
  }

  ghost predicate OpenFile(s: State, i: Ino) {
    Opens(s.items, i) > 0 && Get(s.disk, i).inUse
  }

  lemma RemoversAfter(s: State, t: State, c: nat, i: Ino)
    requires OnlyCall(s, t, c) && c in s.calls
    ensures c in Removers(s, i) <==> Removes(s.calls[c], i)
    ensures c in Removers(t, i) <==> c in t.calls && Removes(t.calls[c], i)
    ensures Removers(t, i) - {c} == Removers(s, i) - {c}
    ensures |Removers(t, i)| == |Removers(s, i)| + (if c in Removers(t, i) then 1 else 0)
                                - if c in Removers(s, i) then 1 else 0
  {
    OtherRemovers(s, t, c, i);
    hide Removers;
    SizeWithout(Removers(s, i), c);
    SizeWithout(Removers(t, i), c);
  }

  lemma OtherRemovers(s: State, t: State, c: nat, i: Ino)
    requires OnlyCall(s, t, c)
    ensures Removers(t, i) - {c} == Removers(s, i) - {c}
  {
    hide Removes;
  }

  lemma SizeWithout(a: set<nat>, c: nat)
    ensures |a - {c}| == |a| - if c in a then 1 else 0
  {}

  lemma ReleasedByOther(s: State, t: State, c: nat, i: Ino)
    requires OnlyCall(s, t, c) && Released(t, i)
    ensures Released(s, i) || (c in t.calls && Releases(t.calls[c], i))
  {
    var d :| d in t.calls && Releases(t.calls[d], i);
    if d != c { assert s.calls[d] == t.calls[d]; }
  }

  lemma FoundClosedByOther(s: State, t: State, c: nat, i: Ino)
    requires OnlyCall(s, t, c) && FoundClosed(t, i) && OneBody(s)
    ensures FoundClosed(s, i) || (c in t.calls && t.calls[c] == Remove(i, false))
    ensures c in s.calls && s.calls[c].Remove? ==> c in t.calls && t.calls[c].Remove?
  {
    var d :| d in t.calls && t.calls[d] == Remove(i, false);
    if d != c {
      assert d in s.calls && s.calls[d] == t.calls[d];
      assert s.calls[d].Remove?;
    }
  }

  lemma LookedByOther(s: State, t: State, c: nat, i: Ino)
    requires OnlyCall(s, t, c) && Looked(t, i)
    ensures Looked(s, i) || (c in t.calls && (t.calls[c] == Take(i) || t.calls[c] == TakeAll))
  {
    var d :| d in t.calls && (t.calls[d] == Take(i) || t.calls[d] == TakeAll);
    if d != c { assert s.calls[d] == t.calls[d]; }
  }

  lemma NotedByOther(s: State, t: State, c: nat, i: Ino)
    requires OnlyCall(s, t, c) && Noted(t, i)
    ensures Noted(s, i) || (c in t.calls && (t.calls[c] == Note(i) || t.calls[c] == Back(i)))
  {
    var d :| d in t.calls && (t.calls[d] == Note(i) || t.calls[d] == Back(i));
    if d != c { assert s.calls[d] == t.calls[d]; }
  }

  /** What one body does to one file. */
  lemma BodyOnDisk(s: State, c: nat, ok: bool, pick: Ino, i: Ino)
    requires c in s.calls && Get(s.disk, i).inUse
    ensures var t := StepCall(s, c, ok, pick);
            && OnlyCall(s, t, c) && t.items.opens == s.items.opens && (t.live ==> s.live)
            && (!Get(t.disk, i).inUse ==> s.live && (s.calls[c] == Remove(i, false) || Releases(s.calls[c], i)))
            && (!Get(t.disk, i).inUse && s.calls[c] == Remove(i, false) ==> Get(s.disk, i).links == 1)
            && (Get(t.disk, i).inUse && Get(t.disk, i).links != Get(s.disk, i).links ==>
                  s.calls[c].Remove? && s.calls[c].i == i && s.live && Get(t.disk, i).links == Get(s.disk, i).links - 1)
  {
    hide Idle;
  }

  /** What one body does to the calls. */
  lemma BodyOfCall(s: State, c: nat, ok: bool, pick: Ino, i: Ino)
    requires c in s.calls && Opens(s.items, i) > 0
    ensures var t := StepCall(s, c, ok, pick);
            && (c in t.calls ==> !(t.calls[c].Take? || t.calls[c].TakeAll? || t.calls[c] == Remove(i, false))
                                 || t.calls[c] == s.calls[c])
            && (c in t.calls && Releases(t.calls[c], i) ==>
                  Releases(s.calls[c], i) || (i in s.items.pending && (s.calls[c] == Take(i) || s.calls[c] == TakeAll)))
            && (c in t.calls && Removes(t.calls[c], i) ==> Removes(s.calls[c], i))
            && (i in t.items.pending && i !in s.items.pending ==> s.calls[c] == Note(i) || s.calls[c] == Back(i))
            && (s.calls[c].Remove? ==> !(c in t.calls && t.calls[c].Remove?))
            && (Removes(s.calls[c], i) && s.calls[c].Remove? ==> !(c in t.calls && Removes(t.calls[c], i)))
            && (c in t.calls && (t.calls[c] == Note(i) || t.calls[c] == Back(i)) && t.calls[c] != s.calls[c] ==>
                  s.calls[c] == Exec(i) || (Removes(s.calls[c], i) && Get(s.disk, i).links == 1))
  {
    hide Idle, Release;
  }

  lemma DoomedBefore(s: State, c: nat, ok: bool, pick: Ino, i: Ino)
    requires Inv(s) && OpenFile(s, i) && c in s.calls
    requires var t := StepCall(s, c, ok, pick); Doomed(t, i) && Get(t.disk, i).inUse
    ensures Doomed(s, i)
  {
    hide StepCall, Owned, Exclusive, FreedOnce, FreeIsUnlinked, Removers;
    var t := StepCall(s, c, ok, pick);
    BodyOnDisk(s, c, ok, pick, i);
    BodyOfCall(s, c, ok, pick, i);
    RemoversAfter(s, t, c, i);
    if Released(t, i) {
      ReleasedByOther(s, t, c, i);
    } else if Get(t.disk, i).links == 1 && FoundClosed(t, i) {
      FoundClosedByOther(s, t, c, i);
      assert FoundClosed(s, i) && Get(s.disk, i).links == 1;
    } else {
      LookedByOther(s, t, c, i);
      assert Looked(s, i);
      if Noted(t, i) {
        NotedByOther(s, t, c, i);
        assert Noted(s, i) || Released(s, i) || c in Removers(s, i);
      }
      assert i in t.items.pending ==> i in s.items.pending || Noted(s, i);
      assert Coming(s, i) || Released(s, i);
    }
  }

  /** A file that the calls in flight cannot free stays so, and stays, through every body of theirs. */
  lemma CalmStep(s: State, c: nat, ok: bool, pick: Ino, i: Ino)
    requires Inv(s) && OpenFile(s, i) && c in s.calls && !Doomed(s, i)
    ensures var t := StepCall(s, c, ok, pick);
            OpenFile(t, i) && !Doomed(t, i) && (Get(s.disk, i).links == 0 ==> Get(t.disk, i).links == 0)
            && (t.live ==> s.live)
  {
    BodyOnDisk(s, c, ok, pick, i);
    if Get(StepCall(s, c, ok, pick).disk, i).inUse && Doomed(StepCall(s, c, ok, pick), i) {
      DoomedBefore(s, c, ok, pick, i);
    }
    hide StepCall, Owned, Exclusive, FreedOnce, FreeIsUnlinked, OneBody, Coming;
  }

  /** A run of bodies of calls in flight, and perhaps of renames over i. */
  ghost predicate Continues(actions: seq<Action>, i: Ino, renames: bool) {
    forall a :: a in actions ==> a.Step? || (renames && a.Rename? && a.i == i)
  }

  lemma {:induction false} CalmRun(s: State, actions: seq<Action>, i: Ino, renames: bool)
    requires Inv(s) && OpenFile(s, i) && !Doomed(s, i) && Continues(actions, i, renames)
    requires renames ==> Get(s.disk, i).links == 0 || !s.live
    ensures OpenFile(Run(s, actions), i)
    decreases |actions|
  {
    hide Inv, Doomed, StepCall;
    if actions != [] {
      var a := actions[0];
      assert a in actions;
      NextKeeps(s, a);
      if a.Step? {
        if a.c in s.calls { CalmStep(s, a.c, a.ok, a.pick, i); }
      } else {
        CalmRename(s, a.ok, i);
      }
      CalmRun(Next(s, a), actions[1..], i, renames);
    }
  }

  lemma CalmRename(s: State, ok: bool, i: Ino)
    requires Get(s.disk, i).links == 0 || !s.live
    ensures Next(s, Rename(i, ok)) == s
  {}

  // ---- A doomed file can be freed ----

  lemma OpenIsLinkedOrNot(s: State, i: Ino)
    requires Inv(s)
    ensures i in s.items.pending || Noted(s, i) || Released(s, i) ==> Nameless(s.disk, i)
  {
    hide Owned, FreedOnce, FreeIsUnlinked, OneBody;
    if i in s.items.pending {
      assert Nameless(s.disk, i);
    } else if Noted(s, i) {
      var c :| c in s.calls && (s.calls[c] == Note(i) || s.calls[c] == Back(i));
      HeldIsNameless(s, c, i);
    } else if Released(s, i) {
      var c :| c in s.calls && Releases(s.calls[c], i);
      HeldIsNameless(s, c, i);
    }
  }

  /** A call that is about to release it, with the executor free, does. */
  lemma ReleasedIsFreed(s: State, i: Ino) returns (c: nat)
    requires Inv(s) && s.live && Released(s, i) && Idle(s)
    ensures !Get(Next(s, Step(c, true, i)).disk, i).inUse
  {
    OpenIsLinkedOrNot(s, i);
    c :| c in s.calls && Releases(s.calls[c], i);
  }

  /** What else is true of a witness once one call has gone. */
  lemma StillReleased(s: State, t: State, b: nat, i: Ino)
    requires OnlyCall(s, t, b) && Released(s, i) && b in s.calls && !Releases(s.calls[b], i)
    ensures Released(t, i)
  {
    var c :| c in s.calls && Releases(s.calls[c], i);
    assert t.calls[c] == s.calls[c];
  }

  lemma StillLooked(s: State, t: State, b: nat, i: Ino)
    requires OnlyCall(s, t, b) && Looked(s, i) && b in s.calls && !s.calls[b].Take? && !s.calls[b].TakeAll?
    ensures Looked(t, i)
  {
    var c :| c in s.calls && (s.calls[c] == Take(i) || s.calls[c] == TakeAll);
    assert t.calls[c] == s.calls[c];
  }

  lemma StillNoted(s: State, t: State, b: nat, i: Ino)
    requires OnlyCall(s, t, b) && Noted(s, i) && b in s.calls && s.calls[b] != Note(i) && s.calls[b] != Back(i)
    ensures Noted(t, i)
  {
    var c :| c in s.calls && (s.calls[c] == Note(i) || s.calls[c] == Back(i));
    assert t.calls[c] == s.calls[c];
  }

  lemma StillFoundClosed(s: State, t: State, b: nat, i: Ino)
    requires OnlyCall(s, t, b) && FoundClosed(s, i) && b in s.calls && s.calls[b] != Remove(i, false)
    ensures FoundClosed(t, i)
  {
    var c :| c in s.calls && s.calls[c] == Remove(i, false);
    assert t.calls[c] == s.calls[c];
  }

  /** The removal of another file's name gets out of the way. */
  lemma AnotherSteps(s: State, b: nat, i: Ino)
    requires Inv(s) && OpenFile(s, i) && Doomed(s, i) && b in s.calls && s.calls[b].Remove? && s.calls[b].i != i
    ensures var t := Next(s, Step(b, false, 0));
            OpenFile(t, i) && Doomed(t, i) && Get(t.disk, i) == Get(s.disk, i) && t.calls == s.calls - {b}
  {
    hide Inv;
    var t := Next(s, Step(b, false, 0));
    assert t == s.(calls := s.calls - {b});
    assert OnlyCall(s, t, b);
    RemoversAfter(s, t, b, i);
    hide Removers, Next;
    if Released(s, i) {
      StillReleased(s, t, b, i);
    } else if Get(s.disk, i).links == 1 && FoundClosed(s, i) {
      StillFoundClosed(s, t, b, i);
    } else {
      StillLooked(s, t, b, i);
      if Noted(s, i) { StillNoted(s, t, b, i); }
    }
  }

  /** The removal of one of its names: it is freed, or comes closer. */
  lemma RemovalSteps(s: State, b: nat, i: Ino)
    requires Inv(s) && OpenFile(s, i) && Doomed(s, i) && b in s.calls && s.calls[b].Remove? && s.calls[b].i == i
    ensures var t := Next(s, Step(b, true, 0));
            && t.items == s.items
            && (Get(t.disk, i).inUse ==>
                  && Doomed(t, i)
                  && if Get(s.disk, i).links == 0 then Get(t.disk, i).links == 0 && t.calls == s.calls - {b}
                     else Get(t.disk, i).links == Get(s.disk, i).links - 1)
  {
    OpenIsLinkedOrNot(s, i);
    var t := Next(s, Step(b, true, 0));
    assert OnlyCall(s, t, b);
    RemoversAfter(s, t, b, i);
    BodyOfCall(s, b, true, 0, i);
    if Get(t.disk, i).inUse {
      if Released(s, i) {
        StillReleased(s, t, b, i);
      } else {
        assert Looked(s, i);
        StillLooked(s, t, b, i);
        if Noted(s, i) { StillNoted(s, t, b, i); }
        if Get(s.disk, i).links == 1 { assert t.calls[b] == Note(i); }
      }
    }
  }

  /** With the executor free and as many removals to come as it has names, the next one is made. */
  lemma RemovalStarts(s: State, i: Ino) returns (b: nat)
    requires Inv(s) && OpenFile(s, i) && s.live && Idle(s) && Looked(s, i)
    requires 1 <= Get(s.disk, i).links <= |Removers(s, i)|
    ensures var t := Next(s, Step(b, true, 0));
            && b in t.calls && t.calls[b] == Remove(i, true)
            && OpenFile(t, i) && Doomed(t, i) && Get(t.disk, i) == Get(s.disk, i)
  {
    assert Removers(s, i) != {};
    b :| b in Removers(s, i);
    var t := Next(s, Step(b, true, 0));
    assert s.calls[b] == Check(i);
    assert t == s.(calls := s.calls[b := Remove(i, true)]);
    assert OnlyCall(s, t, b);
    RemoversAfter(s, t, b, i);
    StillLooked(s, t, b, i);
  }

  /** With the executor free and the file about to be in the set, it is put there. */
  lemma NotedIsPending(s: State, i: Ino) returns (b: nat)
    requires Inv(s) && OpenFile(s, i) && s.live && Noted(s, i) && Looked(s, i)
    ensures var t := Next(s, Step(b, true, 0));
            && b in s.calls && (s.calls[b] == Note(i) || s.calls[b] == Back(i))
            && t.calls == s.calls - {b} && t.disk == s.disk
            && OpenFile(t, i) && Doomed(t, i)
  {
    hide Inv, Removers;
    b :| b in s.calls && (s.calls[b] == Note(i) || s.calls[b] == Back(i));
    var t := Next(s, Step(b, true, 0));
    assert t == s.(calls := s.calls - {b}, items := InsertBody(s.items, i));
    assert OnlyCall(s, t, b);
    StillLooked(s, t, b, i);
  }

  /** A file in the set that a call is about to look at is taken, and then released. */
  lemma PendingIsTaken(s: State, i: Ino) returns (b: nat)
    requires Inv(s) && OpenFile(s, i) && s.live && Idle(s) && i in s.items.pending && Looked(s, i)
    ensures var t := Next(s, Step(b, true, 0)); t.live && Released(t, i) && Idle(t)
  {
    b :| b in s.calls && (s.calls[b] == Take(i) || s.calls[b] == TakeAll);
    var t := Next(s, Step(b, true, 0));
    assert b in t.calls && Releases(t.calls[b], i);
  }

  lemma SizeOfCalls(calls: map<nat, Call>, b: nat)
    requires b in calls
    ensures |calls - {b}| == |calls| - 1
  {
    assert (calls - {b}).Keys == calls.Keys - {b};
    assert |calls.Keys| == |calls| && |(calls - {b}).Keys| == |calls - {b}|;
  }

  ghost function Stages(s: State, i: Ino): nat {
    (if Idle(s) then 1 else 0) + if Released(s, i) then 0 else 1
  }

  /** Nearer to being freed. */
  ghost predicate Nearer(s: State, t: State, i: Ino) {
    var m, n := Get(s.disk, i).links, Get(t.disk, i).links;
    n < m || (n == m && (|t.calls| < |s.calls| || (|t.calls| == |s.calls| && Stages(t, i) < Stages(s, i))))
  }

  /** The step frees it, or leads nearer. */
  ghost predicate Advances(s: State, c: nat, ok: bool, i: Ino) {
    var t := Next(s, Step(c, ok, i));
    Get(t.disk, i).inUse ==> OpenFile(t, i) && Doomed(t, i) && Nearer(s, t, i)
  }

  lemma BusyAdvances(s: State, i: Ino) returns (c: nat, ok: bool)
    requires Inv(s) && OpenFile(s, i) && Doomed(s, i) && !Idle(s)
    ensures Advances(s, c, ok, i)
  {
    c :| c in s.calls && s.calls[c].Remove?;
    ok := s.calls[c].i == i;
    SizeOfCalls(s.calls, c);
    PickIsIdle(s, c, ok, i);
    hide Inv, Doomed, Next;
    if ok {
      RemovalSteps(s, c, i);
    } else {
      AnotherSteps(s, c, i);
    }
  }

  lemma NotedAdvances(s: State, i: Ino) returns (c: nat)
    requires Inv(s) && OpenFile(s, i) && s.live && Noted(s, i) && Looked(s, i)
    ensures Advances(s, c, true, i)
  {
    c := NotedIsPending(s, i);
    SizeOfCalls(s.calls, c);
    NotedDoesNotDrain(s, c, i);
    hide Inv, Doomed, Next;
  }

  lemma NotedDoesNotDrain(s: State, c: nat, i: Ino)
    requires c in s.calls && (s.calls[c] == Note(i) || s.calls[c] == Back(i))
    ensures Next(s, Step(c, true, i)) == Next(s, Step(c, true, 0))
  {}

  lemma PendingAdvances(s: State, i: Ino) returns (c: nat)
    requires Inv(s) && OpenFile(s, i) && Idle(s) && s.live && i in s.items.pending && Looked(s, i) && !Released(s, i)
    ensures Advances(s, c, true, i)
  {
    c := PendingIsTaken(s, i);
    hide Inv, Doomed, Next;
    PickIsIdle(s, c, true, i);
  }

  lemma RemovalAdvances(s: State, i: Ino) returns (c: nat)
    requires Inv(s) && OpenFile(s, i) && s.live && Idle(s) && Looked(s, i)
    requires 1 <= Get(s.disk, i).links <= |Removers(s, i)|
    requires !Released(s, i)
    ensures Advances(s, c, true, i)
  {
    c := RemovalStarts(s, i);
    hide Inv, Doomed, Next;
    PickIsIdle(s, c, true, i);
  }

  /** From a doomed file one body of some call in flight frees it or leads nearer. */
  lemma DoomedAdvances(s: State, i: Ino) returns (c: nat, ok: bool)
    requires Inv(s) && OpenFile(s, i) && Doomed(s, i)
    ensures Advances(s, c, ok, i)
  {
    hide Inv, Advances, OpenFile, Removers, Noted, Looked, Released;
    ok := true;
    if !Idle(s) {
      c, ok := BusyAdvances(s, i);
    } else if Released(s, i) {
      c := ReleasedIsFreed(s, i);
      FreedIsAdvance(s, c, i);
    } else if i in s.items.pending {
      assert Looked(s, i);
      c := PendingAdvances(s, i);
    } else if Noted(s, i) {
      c := NotedAdvances(s, i);
    } else {
      c := RemovalAdvances(s, i);
    }
  }

  lemma FreedIsAdvance(s: State, c: nat, i: Ino)
    requires !Get(Next(s, Step(c, true, i)).disk, i).inUse
    ensures Advances(s, c, true, i)
  {}

  /** Only a drain heeds the pick. */
  lemma PickIsIdle(s: State, c: nat, ok: bool, i: Ino)
    requires c in s.calls && !s.calls[c].Drain?
    ensures Next(s, Step(c, ok, i)) == Next(s, Step(c, ok, 0))
  {
    hide Idle, Unlink, Release;
  }

  lemma {:induction false} DoomedIsFreed(s: State, i: Ino) returns (actions: seq<Action>)
    requires Inv(s) && OpenFile(s, i) && Doomed(s, i)
    ensures Continues(actions, i, false) && !Get(Run(s, actions).disk, i).inUse
    decreases Get(s.disk, i).links, |s.calls|, Stages(s, i)
  {
    hide Inv, Next, Doomed, Stages;
    var c, ok := DoomedAdvances(s, i);
    var a := Step(c, ok, i);
    NextKeeps(s, a);
    if Get(Next(s, a).disk, i).inUse {
      var more := DoomedIsFreed(Next(s, a), i);
      actions := [a] + more;
      assert actions[1..] == more;
    } else {
      RunOne(s, a);
      actions := [a];
    }
  }

  /** From any state that a run can reach: the calls in flight can free a file that is open, taking their bodies in some
      order and with some outcomes, exactly when it is doomed. */
  lemma FreedWhileOpenIff(s: State, i: Ino)
    requires Inv(s) && OpenFile(s, i)
    ensures (exists actions :: Continues(actions, i, false) && !Get(Run(s, actions).disk, i).inUse) <==> Doomed(s, i)
  {
    hide Inv, Doomed, Run, Continues;
    if Doomed(s, i) {
      var actions := DoomedIsFreed(s, i);
    } else {
      forall actions | Continues(actions, i, false) ensures Get(Run(s, actions).disk, i).inUse {
        CalmRun(s, actions, i, false);
      }
    }
  }

  /** With renames over it in between, also whenever it has a name. */
  lemma RenamedWhileOpenIff(s: State, i: Ino)
    requires Inv(s) && OpenFile(s, i)
    ensures (exists actions :: Continues(actions, i, true) && !Get(Run(s, actions).disk, i).inUse)
       <==> Doomed(s, i) || (s.live && Get(s.disk, i).links > 0)
  {
    hide Inv, Doomed, Run;
    if Doomed(s, i) {
      var actions := DoomedIsFreed(s, i);
      assert Continues(actions, i, true);
    } else if s.live && Get(s.disk, i).links > 0 {
      var actions := NamedIsFreed(s, i);
    } else {
      forall actions | Continues(actions, i, true) ensures Get(Run(s, actions).disk, i).inUse {
        CalmRun(s, actions, i, true);
      }
    }
  }

  /** The removal half way, if any, gives up, and then each name in turn is renamed over. */
  lemma NamedIsFreed(s: State, i: Ino) returns (actions: seq<Action>)
    requires Inv(s) && s.live && Get(s.disk, i).links > 0
    ensures Continues(actions, i, true) && !Get(Run(s, actions).disk, i).inUse
  {
    if Idle(s) {
      actions := RenamesFree(s, i);
    } else {
      var b :| b in s.calls && s.calls[b].Remove?;
      var a := Step(b, false, 0);
      var t := Next(s, a);
      assert t == s.(calls := s.calls - {b});
      assert Idle(t);
      var more := RenamesFree(t, i);
      actions := [a] + more;
      assert actions[1..] == more;
    }
  }

  lemma {:induction false} RenamesFree(s: State, i: Ino) returns (actions: seq<Action>)
    requires s.live && Idle(s) && Get(s.disk, i).links > 0
    ensures Continues(actions, i, true) && !Get(Run(s, actions).disk, i).inUse
    decreases Get(s.disk, i).links
  {
    var a := Rename(i, true);
    if Get(s.disk, i).links == 1 {
      RunOne(s, a);
      actions := [a];
    } else {
      var more := RenamesFree(Next(s, a), i);
      actions := [a] + more;
      assert actions[1..] == more;
    }
  }

  /** The one step that frees it is then one of these. */
  lemma FreeingStep(s: State, a: Action, i: Ino)
    requires Inv(s) && OpenFile(s, i)
    ensures !Get(Next(s, a).disk, i).inUse <==>
            && s.live
            && match a
               case Rename(j, ok) => i == j && ok && Idle(s) && Get(s.disk, i).links == 1
               case Step(c, ok, pick) =>
                 && c in s.calls && ok
                 && (|| (s.calls[c] == Remove(i, false) && Get(s.disk, i).links == 1)
                     || (Idle(s) && Releases(s.calls[c], i) && (s.calls[c].Drain? ==> pick == i)))
               case _ => false
  {
    hide Owned, FreedOnce, FreeIsUnlinked, OneBody, Idle;
    if a.Step? && a.c in s.calls && Releases(s.calls[a.c], i) { HeldIsNameless(s, a.c, i); }
  }

  /** Calls that FSKit keeps in order doom nothing. */
  lemma SafeIsNotDoomed(s: State, i: Ino)
    requires OpenIsSafe(s) && Opens(s.items, i) > 0
    ensures !Doomed(s, i)
  {
    hide Removers, Coming;
    forall c | c in s.calls
      ensures !Releases(s.calls[c], i)
      ensures s.calls[c] != Remove(i, false) && s.calls[c] != Take(i) && s.calls[c] != TakeAll
    {
      assert !WillFree(s.calls[c], i);
    }
  }

  /** FSKit keeping to everything else, a rename over the one name of an open file is enough. */
  lemma RenameOverOpen()
    ensures Broken(Run(INIT, [Create(1), Open(1), Rename(1, true)]), 1)
  {
    var s1 := Next(INIT, Create(1));
    var s2 := Next(s1, Open(1));
    var s3 := Next(s2, Rename(1, true));
    var r := [Create(1), Open(1), Rename(1, true)];
    assert Broken(s3, 1);
    RunOne(s2, Rename(1, true));
    assert r[1..][1..] == [Rename(1, true)];
    assert Run(s1, r[1..]) == Run(s2, r[1..][1..]);
  }

  // ---- The code ----

  /** The volume's own fields, and the bodies that `itemsLock` makes atomic. */
  class Volume {
    var pendingRelease: set<Ino>
    var openCounts: map<Ino, nat>

    function View(): Items
      reads this
    {
      Items(pendingRelease, openCounts)
    }

    constructor ()
      ensures View() == INIT.items
    {
      pendingRelease, openCounts := {}, map[];
    }

    /** `openItem` */
    method OpenItem(i: Ino)
      modifies this`openCounts
      ensures View() == OpenBody(old(View()), i)
    {
      openCounts := openCounts[i := (if i in openCounts then openCounts[i] else 0) + 1];
    }

    /** The first critical section of `closeItem`. */
    method CountClose(i: Ino) returns (remaining: int)
      modifies this`openCounts
      ensures (View(), remaining) == CloseBody(old(View()), i)
    {
      var count: int := if i in openCounts then openCounts[i] else 0;
      remaining := count - 1;
      if remaining > 0 {
        openCounts := openCounts[i := remaining];
      } else {
        openCounts := openCounts - {i};
      }
    }

    /** `isOpen` */
    method IsOpen(i: Ino) returns (open: bool)
      ensures open <==> Opens(View(), i) > 0
    {
      open := i in openCounts && openCounts[i] > 0;
    }

    /** `notePendingRelease`, and putting an inode back after a release that failed. */
    method NotePendingRelease(i: Ino)
      modifies this`pendingRelease
      ensures View() == InsertBody(old(View()), i)
    {
      pendingRelease := pendingRelease + {i};
    }

    /** The critical section of `releaseIfPending`. */
    method TakePending(i: Ino) returns (waiting: bool)
      modifies this`pendingRelease
      ensures (View(), waiting) == TakeBody(old(View()), i)
    {
      waiting := i in pendingRelease;
      pendingRelease := pendingRelease - {i};
    }

    /** The critical section of `releaseAllPending`. */
    method TakeAllPending() returns (waiting: set<Ino>)
      modifies this`pendingRelease
      ensures (View(), waiting) == TakeAllBody(old(View()))
    {
      waiting := pendingRelease;
      pendingRelease := {};
    }
  }
}

/**
 Loading and closing a volume (Extension/Ext4FileSystem.swift, Extension/BlockDeviceBridge.swift). `unmount`,
 `deactivate`, `unloadResource`, a reload and a format all reach `closeVolume`, from concurrent calls; what is atomic is
 one body under the state lock, one under the teardown lock, or one on the executor.
 */
module CloseVolume {
  import opened Wrappers

  /** What happens to a core device or a cipher layer, each named by its handle. `LateUnmount` is the unmount that
      destroying a device makes first when it is still mounted: outside the executor, its result lost. */
  datatype Event =
    | Mount(h: nat) | Unmount(h: nat) | LateUnmount(h: nat) | DestroyDevice(h: nat) | DestroyLuks(l: nat)

  /** A bridge's handles: the core device, and the cipher layer under it if there is one. */
  datatype Bridge = Bridge(device: Option<nat>, luks: Option<nat>)

  /** What FSKit hands over: an object, and the name of the device it stands for. */
  datatype Resource = Resource(object: nat, name: nat)

  /** Where a call is. `reload` is what to load after the closeVolume that a load of the same device makes first. */
  datatype Call =
    | Examining(r: Resource)           // probeResource: look at the device, perhaps decline it
    | Naming(r: Resource)              // loadResource: this device is now the last seen
    | Opening(r: Resource, check: bool)   // loadResource or check: make the bridge
    | Opened(b: nat, check: bool)      // and rebuild it through the cipher if it must be
    | Checking(b: nat)                 // check: replay the journal, which mounts and unmounts
    | Probing(b: nat)                  // loadResource: probe, then mount
    | Mounted(b: nat)                  // loadResource: publish
    | Taking(reload: Option<Resource>) // closeVolume: take ownership
    | Taken(b: nat, reload: Option<Resource>)          // closeVolume: is there a device?
    | Unmounting(b: nat, h: nat, reload: Option<Resource>)
    | Closing(b: nat, reload: Option<Resource>)

  /** `slot` is the device registered under the core's one name, `made` what each bridge was made from, `under` what
      each device was created on; `next` names the next handle or bridge. */
  datatype State = State(
    published: Option<nat>, lastSeen: Option<Resource>, slot: Option<nat>, bridges: map<nat, Bridge>,
    made: map<nat, Resource>, calls: map<nat, Call>, under: map<nat, Option<nat>>, next: nat, log: seq<Event>)

  const INIT := State(None, None, None, map[], map[], map[], map[], 0, [])

  /** The bridge a call is using. */
  function Uses(c: Call): Option<nat> {
    match c
    case Opened(b, _) => Some(b)
    case Checking(b) => Some(b)
    case Probing(b) => Some(b)
    case Mounted(b) => Some(b)
    case Taken(b, _) => Some(b)
    case Unmounting(b, _, _) => Some(b)
    case Closing(b, _) => Some(b)
    case _ => None
  }

  // ---- Steps ----

  function Goto(s: State, c: nat, call: Call): State {
    s.(calls := s.calls[c := call])
  }

  function Done(s: State, c: nat): State {
    s.(calls := s.calls - {c})
  }

  /** The end of closeVolume: a reload goes on to load. */
  function Closed(s: State, c: nat, reload: Option<Resource>): State {
    if reload.Some? then Goto(s, c, Naming(reload.value)) else Done(s, c)
  }

  /** What `close` does to a bridge: the filesystem's device first, unmounted if it must be, then the decrypting layer;
      nothing twice. */
  function CloseEvents(b: Bridge, mounted: bool): seq<Event> {
    (if b.device.None? then []
     else (if mounted then [LateUnmount(b.device.value)] else []) + [DestroyDevice(b.device.value)])
    + if b.luks.Some? then [DestroyLuks(b.luks.value)] else []
  }

  /** The bridge's device is the one registered. */
  predicate InSlot(s: State, b: Bridge) {
    s.slot.Some? && s.slot == b.device
  }

  function CloseBridge(s: State, b: nat): State {
    if b !in s.bridges then s
    else
      var mounted := InSlot(s, s.bridges[b]);
      s.(bridges := s.bridges[b := Bridge(None, None)], log := s.log + CloseEvents(s.bridges[b], mounted),
         slot := if mounted then None else s.slot)
  }

  /** A new device, on the container or on the cipher layer. */
  function NewDevice(s: State, b: nat, luks: Option<nat>): State {
    s.(bridges := s.bridges[b := Bridge(Some(s.next), luks)], under := s.under[s.next := luks], next := s.next + 1)
  }

  /** A cipher layer that is opened and, since nothing can be built on it, closed again. */
  function LayerInVain(s: State): State {
    s.(next := s.next + 1, log := s.log + [DestroyLuks(s.next)])
  }

  /** The first body of `loadResource`: the device it takes to be mounted, if any. */
  function Existing(s: State): Option<nat> {
    if s.published.Some? && s.lastSeen.Some? then Some(s.lastSeen.value.name) else None
  }

  /** What `loadResource` does about it: nothing, close it first, or refuse. */
  function StartLoad(s: State, c: nat, r: Resource): State {
    if Existing(s).None? then Goto(s, c, Naming(r))
    else if Existing(s).value == r.name then Goto(s, c, Taking(Some(r)))
    else s
  }

  /** A mount takes the core's one slot, an unmount gives it back. */
  function Logged(s: State, e: Event): State {
    s.(log := s.log + [e], slot := if e.Mount? then Some(e.h) else None)
  }

  /** What an opened bridge is for. */
  function Onward(b: nat, check: bool): Call {
    if check then Checking(b) else Probing(b)
  }

  /** How the next body of a call turns out. */
  datatype Outcome = Fine | Unlock | Fail | LateFail | Drop

  function StepCall(s: State, c: nat, o: Outcome): State
    requires c in s.calls
  {
    match s.calls[c]
    case Examining(r) =>
      if o.Drop? && s.lastSeen == Some(r) then Done(s.(lastSeen := None), c)   // declined
      else Done(s, c)
    case Naming(r) => Goto(s.(lastSeen := Some(r)), c, Opening(r, false))
    case Opening(r, check) =>
      var b := s.next;
      if o.Fail? then Done(s, c)
      else Goto(NewDevice(s.(next := s.next + 1, made := s.made[b := r]), b, None), c, Opened(b, check))
    case Opened(b, check) =>
      (match o
       case Fine => Goto(s, c, Onward(b, check))                     // not a container
       case Drop => Done(s, c)                                       // no key: the bridge is let go
       case Fail => Done(CloseBridge(s, b), c)                       // closed, and the cipher would not open
       case LateFail => Done(LayerInVain(CloseBridge(s, b)), c)      // it opened, but no device fits on it
       case Unlock =>
         var t := CloseBridge(s, b);
         Goto(NewDevice(t.(next := t.next + 1), b, Some(t.next)), c, Onward(b, check)))
    case Checking(b) =>
      if o.Fail? || o.Drop? || s.slot.Some? || b !in s.bridges || s.bridges[b].device.None? then
        Done(CloseBridge(s, b), c)
      else
        var h := s.bridges[b].device.value;
        Goto(Logged(Logged(s, Mount(h)), Unmount(h)), c, Closing(b, None))
    case Probing(b) =>
      (match o
       case Drop => Done(s, c)                                       // the superblock could not be read
       case Fail => Done(CloseBridge(s, b), c)                       // nothing to mount, or it would not mount
       case _ =>
         if b !in s.bridges || s.bridges[b].device.None? then Done(s, c)
         else if s.slot.Some? then Done(CloseBridge(s, b), c)        // EBUSY: the core has another one mounted
         else Goto(Logged(s, Mount(s.bridges[b].device.value)), c, Mounted(b)))
    case Mounted(b) => Done(s.(published := Some(b)), c)
    case Taking(reload) =>
      if s.published.None? then Closed(s, c, reload)
      else Goto(s.(published := None), c, Taken(s.published.value, reload))
    case Taken(b, reload) =>
      if b !in s.bridges || s.bridges[b].device.None? then Closed(s, c, reload)
      else Goto(s, c, Unmounting(b, s.bridges[b].device.value, reload))
    case Unmounting(b, h, reload) =>
      Goto(if s.slot == Some(h) then Logged(s, Unmount(h)) else s, c, Closing(b, reload))
    case Closing(b, reload) => Closed(CloseBridge(s, b), c, reload)
  }

  /** Nothing refers to the bridge any more. */
  ghost predicate Unused(s: State, b: nat) {
    s.published != Some(b) && forall c :: c in s.calls ==> Uses(s.calls[c]) != Some(b)
  }

  datatype Action =
    | Probe(c: nat, r: Resource)
    | Load(c: nat, r: Resource)
    | Check(c: nat, r: Resource)         // check, of a device that is not mounted
    | Close(c: nat)                      // unmount, deactivate, unloadResource, format
    | Step(c: nat, o: Outcome)
    | Deinit(b: nat)                     // the last reference goes

  ghost function Next(s: State, a: Action): State {
    match a
    case Probe(c, r) => if c in s.calls then s else Goto(s.(lastSeen := Some(r)), c, Examining(r))
    case Load(c, r) => if c in s.calls then s else StartLoad(s, c, r)
    case Check(c, r) => if c in s.calls || s.published.Some? then s else Goto(s, c, Opening(r, true))
    case Close(c) => if c in s.calls then s else Goto(s, c, Taking(None))
    case Step(c, o) => if c in s.calls then StepCall(s, c, o) else s
    case Deinit(b) => if Unused(s, b) then CloseBridge(s, b) else s
  }

  ghost function Run(s: State, actions: seq<Action>): State
    decreases |actions|
  {
    if actions == [] then s else Run(Next(s, actions[0]), actions[1..])
  }

  // ---- The order of events ----

  /** What must have happened, and must not, before each event: one mount at a time, and no unmount left to the
      destruction. */
  ghost predicate Legal(before: seq<Event>, e: Event, under: map<nat, Option<nat>>) {
    && e !in before
    && match e
       case Mount(h) => DestroyDevice(h) !in before && forall g :: Mount(g) in before ==> Unmount(g) in before
       case LateUnmount(h) => false
       case Unmount(h) => Mount(h) in before && DestroyDevice(h) !in before
       case DestroyDevice(h) => Mount(h) in before ==> Unmount(h) in before
       case DestroyLuks(l) => forall h :: h in under && under[h] == Some(l) ==>
         DestroyDevice(h) in before && (Mount(h) in before ==> Unmount(h) in before)
  }

  ghost predicate Orderly(log: seq<Event>, under: map<nat, Option<nat>>) {
    forall k :: 0 <= k < |log| ==> Legal(log[..k], log[k], under)
  }

  lemma Extends(log: seq<Event>, e: Event, under: map<nat, Option<nat>>)
    requires Orderly(log, under) && Legal(log, e, under)
    ensures Orderly(log + [e], under)
  {
    var longer := log + [e];
    forall k | 0 <= k < |longer| ensures Legal(longer[..k], longer[k], under) {
      if k < |log| {
        assert longer[..k] == log[..k];
      } else {
        assert longer[..k] == log;
      }
    }
  }

  /** A device made later, on a layer still alive, makes nothing before it out of order. */
  lemma UnderGrows(log: seq<Event>, under: map<nat, Option<nat>>, h: nat, luks: Option<nat>)
    requires Orderly(log, under) && h !in under && (luks.Some? ==> DestroyLuks(luks.value) !in log)
    ensures Orderly(log, under[h := luks])
  {
    forall k | 0 <= k < |log| ensures Legal(log[..k], log[k], under[h := luks]) {
      assert Legal(log[..k], log[k], under) && log[k] in log;
      StillLegal(log[..k], log[k], under, h, luks);
    }
  }

  lemma StillLegal(before: seq<Event>, e: Event, under: map<nat, Option<nat>>, h: nat, luks: Option<nat>)
    requires Legal(before, e, under) && h !in under && (luks.Some? ==> e != DestroyLuks(luks.value))
    ensures Legal(before, e, under[h := luks])
  {}

  // ---- The invariant ----

  /** A bridge's handles are alive, and what it was built on is what it says. */
  ghost predicate Sound(s: State, b: nat)
    requires b in s.bridges
  {
    var x := s.bridges[b];
    && (x.device.Some? ==> x.device.value in s.under && s.under[x.device.value] == x.luks
                           && DestroyDevice(x.device.value) !in s.log)
    && (x.luks.Some? ==> x.luks.value < s.next && DestroyLuks(x.luks.value) !in s.log && x.device.Some?)
  }

  /** Handles are handed out once. */
  ghost predicate Distinct(s: State) {
    && (forall h :: h in s.under ==> h < s.next && (s.under[h].Some? ==> s.under[h].value < s.next))
    && (forall e :: e in s.log ==> match e { case DestroyLuks(l) => l < s.next case _ => e.h in s.under })
    && (forall b :: b in s.bridges ==> b < s.next)
    && (forall a, b :: a in s.bridges && b in s.bridges && a != b && s.bridges[a].device.Some? ==>
          s.bridges[a].device != s.bridges[b].device)
    && (forall a, b :: a in s.bridges && b in s.bridges && a != b && s.bridges[a].luks.Some? ==>
          s.bridges[a].luks != s.bridges[b].luks)
  }

  /** Every other device built on a living bridge's cipher layer is that bridge's own. */
  ghost predicate OneOnTop(s: State) {
    forall b, h :: b in s.bridges && s.bridges[b].luks.Some? && h in s.under && s.under[h] == s.bridges[b].luks ==>
      s.bridges[b].device == Some(h)
  }

  ghost predicate Live(s: State, b: nat) {
    b in s.bridges && s.bridges[b].device.Some?
  }

  ghost predicate HasMounted(s: State, b: nat) {
    Live(s, b) && Mount(s.bridges[b].device.value) in s.log
  }

  ghost predicate HasUnmounted(s: State, b: nat) {
    Live(s, b) && Unmount(s.bridges[b].device.value) in s.log
  }

  /** What each stage of a call knows about its bridge. */
  ghost predicate Stage(s: State, c: Call) {
    match c
    case Opened(b, _) => Live(s, b) && !HasMounted(s, b)
    case Checking(b) => Live(s, b) && !HasMounted(s, b)
    case Probing(b) => Live(s, b) && !HasMounted(s, b)
    case Mounted(b) => HasMounted(s, b) && !HasUnmounted(s, b)
    case Taken(b, _) => HasMounted(s, b) && !HasUnmounted(s, b)
    case Unmounting(b, h, _) => HasMounted(s, b) && !HasUnmounted(s, b) && s.bridges[b].device == Some(h)
    case Closing(b, _) => HasMounted(s, b) && HasUnmounted(s, b)
    case _ => true
  }

  ghost predicate Stages(s: State) {
    && (forall c :: c in s.calls ==> Stage(s, s.calls[c]))
    && (s.published.Some? ==> HasMounted(s, s.published.value) && !HasUnmounted(s, s.published.value))
    && (forall b :: Unused(s, b) ==> !HasMounted(s, b))
  }

  /** One owner for each bridge. */
  ghost predicate OneOwner(s: State) {
    && (forall c, d :: c in s.calls && d in s.calls && c != d && Uses(s.calls[c]).Some? ==>
          Uses(s.calls[c]) != Uses(s.calls[d]))
    && (forall c :: c in s.calls && s.published.Some? ==> Uses(s.calls[c]) != s.published)
  }

  /** The device in the slot is the one that is mounted and not unmounted. */
  ghost predicate Slotted(s: State) {
    && (s.slot.Some? ==> Mount(s.slot.value) in s.log && Unmount(s.slot.value) !in s.log)
    && forall h: nat :: Mount(h) in s.log && Unmount(h) !in s.log ==> s.slot == Some(h)
  }

  ghost predicate Handles(s: State) {
    && Orderly(s.log, s.under) && Distinct(s) && OneOnTop(s) && (forall b :: b in s.bridges ==> Sound(s, b))
    && Slotted(s)
  }

  ghost predicate Inv(s: State) {
    Handles(s) && Stages(s) && OneOwner(s)
  }

  /** Only what bridge b has been through may have changed. */
  ghost predicate OnlyBridge(s: State, t: State, b: nat) {
    forall a :: a != b ==> (Live(s, a) <==> Live(t, a)) && (HasMounted(s, a) <==> HasMounted(t, a))
                           && (HasUnmounted(s, a) <==> HasUnmounted(t, a))
                           && (Live(s, a) ==> s.bridges[a].device == t.bridges[a].device)
  }

  lemma CloseIsOrderly(s: State, b: nat)
    requires Handles(s) && (HasMounted(s, b) ==> HasUnmounted(s, b))
    ensures var t := CloseBridge(s, b); Orderly(t.log, t.under)
  {
    hide Orderly, Distinct;
    if b in s.bridges {
      var x := s.bridges[b];
      assert Sound(s, b) && !InSlot(s, x);
      var mid := s.log;
      if x.device.Some? {
        Extends(s.log, DestroyDevice(x.device.value), s.under);
        mid := s.log + [DestroyDevice(x.device.value)];
      }
      if x.luks.Some? {
        assert forall h :: h in s.under && s.under[h] == x.luks ==> h == x.device.value;
        Extends(mid, DestroyLuks(x.luks.value), s.under);
      }
      assert CloseBridge(s, b).log == if x.luks.Some? then mid + [DestroyLuks(x.luks.value)] else mid;
    }
  }

  /** Closing a bridge adds no mount and no unmount, and destroys only that bridge's handles. */
  ghost predicate Shuts(s: State, t: State, b: nat)
    requires b in s.bridges
  {
    var x := s.bridges[b];
    && t.bridges == s.bridges[b := Bridge(None, None)] && t.under == s.under && t.next == s.next
    && t.slot == s.slot
    && forall e :: e in t.log <==> (e in s.log || (x.device.Some? && e == DestroyDevice(x.device.value))
                                    || (x.luks.Some? && e == DestroyLuks(x.luks.value)))
  }

  lemma CloseShuts(s: State, b: nat)
    requires b in s.bridges && !InSlot(s, s.bridges[b])
    ensures Shuts(s, CloseBridge(s, b), b)
  {}

  lemma ShutKeepsDistinct(s: State, t: State, b: nat)
    requires Handles(s) && b in s.bridges && Shuts(s, t, b)
    ensures Distinct(t)
  {
    hide Orderly, OneOnTop;
    assert Sound(s, b);
  }

  lemma ShutKeepsSlot(s: State, t: State, b: nat)
    requires Handles(s) && b in s.bridges && Shuts(s, t, b)
    ensures Slotted(t)
  {
    hide Orderly, Distinct, OneOnTop, Sound;
  }

  /** A bridge that never mounted, or has unmounted, is not the one in the slot. */
  lemma NotInSlot(s: State, b: nat)
    requires Handles(s) && b in s.bridges && (HasMounted(s, b) ==> HasUnmounted(s, b))
    ensures !InSlot(s, s.bridges[b])
  {
    hide Orderly, Distinct, OneOnTop, Sound;
  }

  lemma ShutKeepsTop(s: State, t: State, b: nat)
    requires Handles(s) && b in s.bridges && Shuts(s, t, b)
    ensures OneOnTop(t)
  {
    hide Orderly, Distinct, Sound;
  }

  lemma ShutKeepsSound(s: State, t: State, b: nat, a: nat)
    requires Handles(s) && b in s.bridges && Shuts(s, t, b) && a in t.bridges
    ensures Sound(t, a)
  {
    hide Orderly, OneOnTop;
    assert Sound(s, a) && Sound(s, b);
  }

  lemma ShutIsLocal(s: State, t: State, b: nat)
    requires Handles(s) && b in s.bridges && Shuts(s, t, b)
    ensures OnlyBridge(s, t, b) && !Live(t, b)
  {
    hide Orderly, OneOnTop, Distinct, Sound;
  }

  lemma CloseKeepsHandles(s: State, b: nat)
    requires Handles(s) && (HasMounted(s, b) ==> HasUnmounted(s, b))
    ensures var t := CloseBridge(s, b); Handles(t) && OnlyBridge(s, t, b) && !Live(t, b)
  {
    CloseIsOrderly(s, b);
    if b in s.bridges {
      NotInSlot(s, b);
      hide Orderly, Distinct, OneOnTop, CloseEvents, Shuts, OnlyBridge, Sound, Slotted;
      CloseShuts(s, b);
      var t := CloseBridge(s, b);
      ShutKeepsSlot(s, t, b);
      ShutKeepsDistinct(s, t, b);
      ShutKeepsTop(s, t, b);
      ShutIsLocal(s, t, b);
      forall a | a in t.bridges ensures Sound(t, a) {
        ShutKeepsSound(s, t, b, a);
      }
    }
  }

  /** A bridge that may be given a new device on this layer. */
  ghost predicate MayBuild(s: State, b: nat, luks: Option<nat>) {
    && !Live(s, b) && b < s.next
    && (luks.Some? ==> luks.value < s.next && DestroyLuks(luks.value) !in s.log)
    && (luks.Some? ==> forall h :: h in s.under ==> s.under[h] != luks)
    && (luks.Some? ==> forall a :: a in s.bridges ==> s.bridges[a].luks != luks)
  }

  lemma NextIsFresh(s: State)
    requires Handles(s)
    ensures s.next !in s.under
    ensures DestroyDevice(s.next) !in s.log && Mount(s.next) !in s.log && Unmount(s.next) !in s.log
    ensures forall a :: a in s.bridges ==> s.bridges[a].device != Some(s.next)
  {
    hide Orderly, OneOnTop;
    assert forall a :: a in s.bridges ==> Sound(s, a);
  }

  lemma NewDeviceKeepsDistinct(s: State, b: nat, luks: Option<nat>)
    requires Handles(s) && MayBuild(s, b, luks)
    ensures Distinct(NewDevice(s, b, luks))
  {
    hide Orderly, Sound, OneOnTop;
    NextIsFresh(s);
  }

  lemma NewDeviceKeepsTop(s: State, b: nat, luks: Option<nat>)
    requires Handles(s) && MayBuild(s, b, luks)
    ensures OneOnTop(NewDevice(s, b, luks))
  {
    hide Orderly, Distinct;
    NextIsFresh(s);
    assert forall a :: a in s.bridges ==> Sound(s, a);
  }

  lemma NewDeviceKeepsSound(s: State, b: nat, luks: Option<nat>, a: nat)
    requires Handles(s) && MayBuild(s, b, luks) && a in NewDevice(s, b, luks).bridges
    ensures Sound(NewDevice(s, b, luks), a)
  {
    hide Orderly, Distinct, OneOnTop;
    NextIsFresh(s);
    if a != b { assert Sound(s, a); }
  }

  lemma NewDeviceKeepsHandles(s: State, b: nat, luks: Option<nat>)
    requires Handles(s) && MayBuild(s, b, luks)
    ensures var t := NewDevice(s, b, luks);
            Handles(t) && OnlyBridge(s, t, b) && Live(t, b) && !HasMounted(t, b) && !HasUnmounted(t, b)
  {
    hide Orderly, Distinct, OneOnTop, Sound;
    var t := NewDevice(s, b, luks);
    NextIsFresh(s);
    UnderGrows(s.log, s.under, s.next, luks);
    NewDeviceKeepsDistinct(s, b, luks);
    NewDeviceKeepsTop(s, b, luks);
    forall a | a in t.bridges ensures Sound(t, a) {
      NewDeviceKeepsSound(s, b, luks, a);
    }
  }

  lemma EventKeepsSlot(s: State, b: nat, e: Event)
    requires Handles(s) && Live(s, b) && Legal(s.log, e, s.under) && (e.Mount? ==> s.slot == None)
    requires e == Mount(s.bridges[b].device.value) || e == Unmount(s.bridges[b].device.value)
    ensures Slotted(Logged(s, e))
  {
    if e.Mount? { NotUnmountedYet(s, b); }
    hide Orderly, Distinct, OneOnTop, Sound;
    if e.Unmount? { assert Mount(e.h) in s.log && Unmount(e.h) !in s.log && s.slot == Some(e.h); }
    assert forall h: nat :: e != Mount(h) && Mount(h) in Logged(s, e).log ==> Mount(h) in s.log;
  }

  /** Mount or unmount what bridge b holds. */
  lemma EventKeepsHandles(s: State, b: nat, e: Event)
    requires Handles(s) && Live(s, b) && Legal(s.log, e, s.under)
    requires e == Mount(s.bridges[b].device.value) || e == Unmount(s.bridges[b].device.value)
    requires e.Mount? ==> s.slot == None
    ensures var t := Logged(s, e); Handles(t) && OnlyBridge(s, t, b) && Live(t, b)
  {
    var t := Logged(s, e);
    EventKeepsSlot(s, b, e);
    EventKeepsNames(s, b, e);
    EventIsLocal(s, b, e);
    Extends(s.log, e, s.under);
    hide Orderly, Slotted, OneOnTop, Distinct, Legal, OnlyBridge;
    forall a | a in t.bridges ensures Sound(t, a) {
      assert Sound(s, a);
    }
  }

  lemma EventIsLocal(s: State, b: nat, e: Event)
    requires Handles(s) && Live(s, b)
    requires e == Mount(s.bridges[b].device.value) || e == Unmount(s.bridges[b].device.value)
    ensures OnlyBridge(s, Logged(s, e), b)
  {
    hide Orderly, Slotted, OneOnTop, Sound;
  }

  lemma EventKeepsNames(s: State, b: nat, e: Event)
    requires Handles(s) && Live(s, b)
    requires e == Mount(s.bridges[b].device.value) || e == Unmount(s.bridges[b].device.value)
    ensures Distinct(Logged(s, e)) && OneOnTop(Logged(s, e))
  {
    hide Orderly, Slotted;
    assert Sound(s, b);
    hide Sound;
  }

  /** No call but c has to do with bridge b. */
  ghost predicate Mine(s: State, c: nat, b: nat) {
    forall d :: d in s.calls && d != c ==> Uses(s.calls[d]) != Some(b)
  }

  ghost predicate OnlyCall(s: State, t: State, c: nat) {
    forall d :: d != c ==> (d in s.calls <==> d in t.calls) && (d in s.calls ==> s.calls[d] == t.calls[d])
  }

  /** What call c, working on bridge b, must leave behind. */
  ghost predicate Leaves(s: State, t: State, c: nat, b: nat) {
    && OnlyCall(s, t, c) && OnlyBridge(s, t, b) && Mine(s, c, b)
    && (t.published == s.published || t.published == None || t.published == Some(b))
    && (t.published == Some(b) ==> HasMounted(t, b) && !HasUnmounted(t, b))
    && (s.published.Some? && s.published != Some(b) ==> t.published == s.published)
    && (c in s.calls && Uses(s.calls[c]).Some? ==> Uses(s.calls[c]) == Some(b))
    && (c in t.calls ==> Stage(t, t.calls[c]) && (Uses(t.calls[c]) == None || Uses(t.calls[c]) == Some(b)))
    && (c in t.calls && Uses(t.calls[c]) == Some(b) ==> t.published != Some(b))
    && ((c !in t.calls || Uses(t.calls[c]) == None) && t.published != Some(b) ==> !HasMounted(t, b))
  }

  lemma StageFollows(s: State, t: State, b: nat, call: Call)
    requires OnlyBridge(s, t, b) && Stage(s, call) && Uses(call) != Some(b)
    ensures Stage(t, call)
  {}

  lemma StagesFollow(s: State, t: State, c: nat, b: nat)
    requires Stages(s) && Leaves(s, t, c, b)
    ensures Stages(t)
  {
    forall d | d in t.calls ensures Stage(t, t.calls[d]) {
      if d != c { StageFollows(s, t, b, t.calls[d]); }
    }
    forall a: nat | Unused(t, a) ensures !HasMounted(t, a) {
      if a != b {
        assert Unused(s, a) by {
          forall d | d in s.calls ensures Uses(s.calls[d]) != Some(a) {
            if d != c { assert t.calls[d] == s.calls[d]; }
          }
        }
      } else {
        assert c in t.calls ==> Uses(t.calls[c]) != Some(b);
      }
    }
  }

  lemma OwnersFollow(s: State, t: State, c: nat, b: nat)
    requires OneOwner(s) && Leaves(s, t, c, b)
    requires s.published == Some(b) ==> t.published != Some(b)
    ensures OneOwner(t)
  {
    forall d | d in t.calls && t.published.Some? ensures Uses(t.calls[d]) != t.published {
      if d != c { assert s.calls[d] == t.calls[d]; }
    }
  }

  /** A bridge not made yet is nobody's. */
  lemma NextIsNobodys(s: State, c: nat)
    requires Inv(s)
    ensures Mine(s, c, s.next) && s.published != Some(s.next) && !Live(s, s.next)
    ensures c in s.calls ==> Uses(s.calls[c]) != Some(s.next)
  {
    hide Orderly;
    forall d | d in s.calls ensures Uses(s.calls[d]) != Some(s.next) {
      assert Stage(s, s.calls[d]);
    }
  }

  /** What a call knows about the bridge it is using. */
  lemma UserKnows(s: State, c: nat, b: nat)
    requires Inv(s) && c in s.calls && Uses(s.calls[c]) == Some(b)
    ensures Stage(s, s.calls[c]) && Mine(s, c, b) && s.published != Some(b)
    ensures b < s.next && Live(s, b) && DestroyDevice(s.bridges[b].device.value) !in s.log
  {
    hide Orderly, OneOnTop;
    assert Sound(s, b);
  }

  /** And what is known about the one published. */
  lemma PublishedKnows(s: State, c: nat, b: nat)
    requires Inv(s) && s.published == Some(b)
    ensures HasMounted(s, b) && !HasUnmounted(s, b) && Mine(s, c, b)
    ensures c in s.calls ==> Uses(s.calls[c]) != Some(b)
  {
    hide Handles;
  }

  /** The handles do not depend on the calls, nor on a name not used yet. */
  lemma SameHandles(s: State, t: State)
    requires Handles(s) && t.bridges == s.bridges && t.under == s.under && t.log == s.log && t.slot == s.slot
    requires t.next >= s.next
    ensures Handles(t)
  {
    hide Orderly;
    forall a | a in t.bridges ensures Sound(t, a) {
      assert Sound(s, a);
    }
  }

  lemma Follow(s: State, t: State, c: nat, b: nat)
    requires Inv(s) && Handles(t) && Leaves(s, t, c, b)
    requires s.published == Some(b) ==> t.published != Some(b)
    ensures Inv(t)
  {
    hide Handles, Stages, OneOwner, Leaves;
    StagesFollow(s, t, c, b);
    OwnersFollow(s, t, c, b);
  }

  /** A body that touches no bridge, and leaves the call at a point that uses none. */
  lemma IdleKeeps(s: State, t: State, c: nat)
    requires Inv(s) && OnlyCall(s, t, c) && t.published == s.published
    requires t.bridges == s.bridges && t.under == s.under && t.log == s.log && t.next == s.next && t.slot == s.slot
    requires c in s.calls ==> Uses(s.calls[c]) == None
    requires c in t.calls ==> Uses(t.calls[c]) == None
    ensures Inv(t)
  {
    hide Handles, Stages, OneOwner, Mine;
    NextIsNobodys(s, c);
    SameHandles(s, t);
    assert c in t.calls ==> Stage(t, t.calls[c]);
    Follow(s, t, c, s.next);
  }

  lemma OpeningKeeps(s: State, c: nat, o: Outcome)
    requires Inv(s) && c in s.calls && s.calls[c].Opening?
    ensures Inv(StepCall(s, c, o))
  {
    hide Handles, Stages, OneOwner, NewDevice, Mine;
    var t, b := StepCall(s, c, o), s.next;
    NextIsNobodys(s, c);
    if o.Fail? {
      SameHandles(s, t);
    } else {
      var u := s.(next := s.next + 1, made := s.made[b := s.calls[c].r]);
      SameHandles(s, u);
      NewDeviceKeepsRest(u, b, None);
      NewDeviceKeepsHandles(u, b, None);
      SameHandles(NewDevice(u, b, None), t);
    }
    assert OnlyBridge(s, t, b);
    Follow(s, t, c, b);
  }

  lemma NewDeviceKeepsRest(s: State, b: nat, luks: Option<nat>)
    ensures var t := NewDevice(s, b, luks); t.calls == s.calls && t.published == s.published && t.next >= s.next
  {}

  lemma OpenedKeeps(s: State, c: nat, o: Outcome)
    requires Inv(s) && c in s.calls && s.calls[c].Opened?
    ensures Inv(StepCall(s, c, o))
  {
    hide Handles, Stages, OneOwner, CloseBridge, Mine;
    var t, b := StepCall(s, c, o), s.calls[c].b;
    UserKnows(s, c, b);
    var u := CloseBridge(s, b);
    CloseKeepsRest(s, b);
    if o.Fail? {
      CloseKeepsHandles(s, b);
      SameHandles(u, t);
    } else if o.LateFail? {
      CloseKeepsHandles(s, b);
      LayerInVainKeeps(u);
      SameHandles(LayerInVain(u), t);
    } else if o.Unlock? {
      CloseKeepsHandles(s, b);
      FreshLayer(u);
      var v := u.(next := u.next + 1);
      SameHandles(u, v);
      NewDeviceKeepsHandles(v, b, Some(u.next));
      SameHandles(NewDevice(v, b, Some(u.next)), t);
    } else {
      SameHandles(s, t);
    }
    assert OnlyBridge(s, t, b);
    Follow(s, t, c, b);
  }

  lemma CloseKeepsRest(s: State, b: nat)
    ensures var t := CloseBridge(s, b); t.calls == s.calls && t.published == s.published && t.next == s.next
  {}

  lemma FreshLayer(s: State)
    requires Handles(s)
    ensures DestroyLuks(s.next) !in s.log
    ensures forall h :: h in s.under ==> s.under[h] != Some(s.next)
    ensures forall a :: a in s.bridges ==> s.bridges[a].luks != Some(s.next) && a < s.next
  {
    hide Orderly;
    assert forall a :: a in s.bridges ==> Sound(s, a);
  }

  lemma LayerInVainIsDistinct(s: State)
    requires Handles(s)
    ensures Distinct(LayerInVain(s)) && OneOnTop(LayerInVain(s))
  {
    hide Orderly, Sound, Slotted;
  }

  lemma LayerInVainKeeps(s: State)
    requires Handles(s)
    ensures Handles(LayerInVain(s))
    ensures forall b :: OnlyBridge(s, LayerInVain(s), b) && (Live(LayerInVain(s), b) <==> Live(s, b))
  {
    hide Orderly, Distinct, OneOnTop;
    var t := LayerInVain(s);
    FreshLayer(s);
    LayerInVainIsDistinct(s);
    assert Legal(s.log, DestroyLuks(s.next), s.under);
    Extends(s.log, DestroyLuks(s.next), s.under);
    forall a | a in t.bridges ensures Sound(t, a) {
      assert Sound(s, a);
    }
  }

  /** Only what was mounted has been unmounted. */
  lemma NotUnmountedYet(s: State, b: nat)
    requires Handles(s) && Live(s, b) && !HasMounted(s, b)
    ensures !HasUnmounted(s, b)
  {
    hide Distinct, OneOnTop, Sound;
    var h := s.bridges[b].device.value;
    forall k | 0 <= k < |s.log| ensures s.log[k] != Unmount(h) {
      assert Legal(s.log[..k], s.log[k], s.under);
      assert forall e :: e in s.log[..k] ==> e in s.log;
    }
  }

  lemma ProbingKeeps(s: State, c: nat, o: Outcome)
    requires Inv(s) && c in s.calls && s.calls[c].Probing?
    ensures Inv(StepCall(s, c, o))
  {
    hide Handles, Stages, OneOwner, CloseBridge, Mine;
    var t, b := StepCall(s, c, o), s.calls[c].b;
    UserKnows(s, c, b);
    NotUnmountedYet(s, b);
    if o.Drop? {
      SameHandles(s, t);
    } else if o.Fail? || s.slot.Some? {
      CloseKeepsRest(s, b);
      CloseKeepsHandles(s, b);
      SameHandles(CloseBridge(s, b), t);
    } else {
      var e := Mount(s.bridges[b].device.value);
      FreeSlot(s);
      EventKeepsHandles(s, b, e);
      SameHandles(Logged(s, e), t);
    }
    assert OnlyBridge(s, t, b);
    Follow(s, t, c, b);
  }

  lemma CheckingKeeps(s: State, c: nat, o: Outcome)
    requires Inv(s) && c in s.calls && s.calls[c].Checking?
    ensures Inv(StepCall(s, c, o))
  {
    hide Handles, Stages, OneOwner, CloseBridge, Mine;
    var t, b := StepCall(s, c, o), s.calls[c].b;
    UserKnows(s, c, b);
    NotUnmountedYet(s, b);
    if o.Fail? || o.Drop? || s.slot.Some? {
      CloseKeepsRest(s, b);
      CloseKeepsHandles(s, b);
      SameHandles(CloseBridge(s, b), t);
    } else {
      var h := s.bridges[b].device.value;
      FreeSlot(s);
      EventKeepsHandles(s, b, Mount(h));
      var u := Logged(s, Mount(h));
      EventKeepsHandles(u, b, Unmount(h));
      SameHandles(Logged(u, Unmount(h)), t);
    }
    assert OnlyBridge(s, t, b);
    Follow(s, t, c, b);
  }

  lemma FreeSlot(s: State)
    requires Handles(s) && s.slot == None
    ensures forall g :: Mount(g) in s.log ==> Unmount(g) in s.log
  {
    hide Orderly, Distinct, OneOnTop, Sound;
  }

  /** Two bridges whose devices are mounted and not unmounted are one. */
  lemma OneMounted(s: State, a: nat, b: nat)
    requires Handles(s) && HasMounted(s, a) && !HasUnmounted(s, a) && HasMounted(s, b) && !HasUnmounted(s, b)
    ensures a == b && InSlot(s, s.bridges[b])
  {
    hide Orderly, OneOnTop, Sound;
  }

  /** A load that has mounted finds nothing published. */
  lemma NothingPublished(s: State, c: nat)
    requires Inv(s) && c in s.calls && s.calls[c].Mounted?
    ensures s.published == None
  {
    UserKnows(s, c, s.calls[c].b);
    hide Handles, OneOwner;
    if s.published.Some? { OneMounted(s, s.calls[c].b, s.published.value); }
  }

  lemma SameBridges(s: State, t: State, b: nat)
    requires t.bridges == s.bridges && t.log == s.log
    ensures OnlyBridge(s, t, b)
    ensures (HasMounted(s, b) <==> HasMounted(t, b)) && (HasUnmounted(s, b) <==> HasUnmounted(t, b))
  {}

  lemma MountedKeeps(s: State, c: nat, o: Outcome)
    requires Inv(s) && c in s.calls && s.calls[c].Mounted?
    ensures Inv(StepCall(s, c, o))
  {
    hide Handles, Stages, OneOwner, Mine, Live, HasMounted, HasUnmounted, OnlyBridge;
    NothingPublished(s, c);
    SameBridges(s, StepCall(s, c, o), s.calls[c].b);
    var t, b := StepCall(s, c, o), s.calls[c].b;
    UserKnows(s, c, b);
    SameHandles(s, t);
    Follow(s, t, c, b);
  }

  lemma TakingKeeps(s: State, c: nat, o: Outcome)
    requires Inv(s) && c in s.calls && s.calls[c].Taking?
    ensures Inv(StepCall(s, c, o))
  {
    hide Handles, Stages, OneOwner, Mine;
    var t := StepCall(s, c, o);
    SameHandles(s, t);
    if s.published.Some? {
      PublishedKnows(s, c, s.published.value);
      Follow(s, t, c, s.published.value);
    } else {
      NextIsNobodys(s, c);
      Follow(s, t, c, s.next);
    }
  }

  lemma ClosingKeeps(s: State, c: nat, o: Outcome)
    requires Inv(s) && c in s.calls && (s.calls[c].Taken? || s.calls[c].Unmounting? || s.calls[c].Closing?)
    ensures Inv(StepCall(s, c, o))
  {
    hide Handles, Stages, OneOwner, CloseBridge, Mine;
    var t, b := StepCall(s, c, o), s.calls[c].b;
    UserKnows(s, c, b);
    if s.calls[c].Closing? {
      CloseKeepsRest(s, b);
      CloseKeepsHandles(s, b);
      SameHandles(CloseBridge(s, b), t);
    } else if s.calls[c].Unmounting? {
      var e := Unmount(s.calls[c].h);
      OneMounted(s, b, b);
      EventKeepsHandles(s, b, e);
      SameHandles(Logged(s, e), t);
    } else {
      SameHandles(s, t);
    }
    assert OnlyBridge(s, t, b);
    Follow(s, t, c, b);
  }

  lemma NextKeeps(s: State, a: Action)
    requires Inv(s)
    ensures Inv(Next(s, a))
  {
    hide Handles, Stages, OneOwner, StepCall, Mine;
    match a
    case Probe(c, r) => if c !in s.calls { IdleKeeps(s, Next(s, a), c); }
    case Load(c, r) => if c !in s.calls { IdleKeeps(s, Next(s, a), c); }
    case Check(c, r) => if c !in s.calls && s.published.None? { IdleKeeps(s, Next(s, a), c); }
    case Close(c) => if c !in s.calls { IdleKeeps(s, Next(s, a), c); }
    case Deinit(b) => DeinitKeeps(s, b);
    case Step(c, o) => if c in s.calls { StepKeeps(s, c, o); }
  }

  lemma StepKeeps(s: State, c: nat, o: Outcome)
    requires Inv(s) && c in s.calls
    ensures Inv(StepCall(s, c, o))
  {
    hide Handles, Stages, OneOwner, Mine;
    match s.calls[c]
    case Examining(_) => IdleKeeps(s, StepCall(s, c, o), c);
    case Naming(_) => IdleKeeps(s, StepCall(s, c, o), c);
    case Opening(_, _) => OpeningKeeps(s, c, o);
    case Opened(_, _) => OpenedKeeps(s, c, o);
    case Checking(_) => CheckingKeeps(s, c, o);
    case Probing(_) => ProbingKeeps(s, c, o);
    case Mounted(_) => MountedKeeps(s, c, o);
    case Taking(_) => TakingKeeps(s, c, o);
    case _ => ClosingKeeps(s, c, o);
  }

  lemma SameOwners(s: State, t: State)
    requires OneOwner(s) && t.calls == s.calls && t.published == s.published
    ensures OneOwner(t)
  {}

  lemma DeinitKeeps(s: State, b: nat)
    requires Inv(s)
    ensures Inv(Next(s, Deinit(b)))
  {
    hide Handles, CloseBridge, OneOwner;
    if Unused(s, b) {
      var t := CloseBridge(s, b);
      CloseKeepsHandles(s, b);
      CloseKeepsRest(s, b);
      SameOwners(s, t);
      forall d | d in t.calls ensures Stage(t, t.calls[d]) {
        StageFollows(s, t, b, t.calls[d]);
      }
      forall a: nat | Unused(t, a) ensures !HasMounted(t, a) {
        assert Unused(s, a);
      }
    }
  }

  lemma {:induction false} EveryRunKeeps(s: State, actions: seq<Action>)
    requires Inv(s)
    ensures Inv(Run(s, actions))
    decreases |actions|
  {
    hide Inv;
    if actions != [] {
      NextKeeps(s, actions[0]);
      EveryRunKeeps(Next(s, actions[0]), actions[1..]);
    }
  }

  lemma InitInv()
    ensures Inv(INIT)
  {}

  // ---- Every run is in order ----

  ghost predicate InOrder(s: State) {
    Orderly(s.log, s.under)
  }

  /** Events are in order at every point of the run, whichever unreferenced bridge is let go there. */
  ghost predicate InOrderThroughout(s: State, actions: seq<Action>)
    decreases |actions|
  {
    && InOrder(s) && (forall b: nat :: InOrder(Next(s, Deinit(b))))
    && (actions == [] || InOrderThroughout(Next(s, actions[0]), actions[1..]))
  }

  lemma InvIsInOrder(s: State)
    requires Inv(s)
    ensures InOrder(s) && forall b: nat :: InOrder(Next(s, Deinit(b)))
  {
    hide Orderly, Next;
    forall b: nat ensures InOrder(Next(s, Deinit(b))) {
      DeinitKeeps(s, b);
    }
  }

  lemma {:induction false} InOrderFrom(s: State, actions: seq<Action>)
    requires Inv(s)
    ensures InOrderThroughout(s, actions)
    decreases |actions|
  {
    hide Inv, InOrder;
    InvIsInOrder(s);
    if actions != [] {
      NextKeeps(s, actions[0]);
      InOrderFrom(Next(s, actions[0]), actions[1..]);
    }
  }

  /** In every interleaving of probes, loads and closes, at every point and whichever unreferenced bridge goes
      there: one device at a time is mounted; each is mounted, unmounted and destroyed at most once; what was
      mounted has been unmounted, by `closeVolume`, before its device is destroyed, and that before the cipher layer
      under it. */
  lemma EveryRunIsOrderly(actions: seq<Action>)
    ensures InOrderThroughout(INIT, actions)
  {
    InitInv();
    InOrderFrom(INIT, actions);
  }

  /** A bridge is published over none: no load, however many there are at once, loses the bridge of another. */
  lemma NeverOverwrites(actions: seq<Action>, c: nat)
    ensures var s := Run(INIT, actions); c in s.calls && s.calls[c].Mounted? ==> s.published == None
  {
    InitInv();
    EveryRunKeeps(INIT, actions);
    hide Inv;
    var s := Run(INIT, actions);
    if c in s.calls && s.calls[c].Mounted? { NothingPublished(s, c); }
  }

  /** The order, event by event. */
  lemma UnmountedFirst(actions: seq<Action>, h: nat, j: nat, k: nat)
    requires var log := Run(INIT, actions).log; j < |log| && k < |log| && log[j] == Mount(h)
    ensures var s := Run(INIT, actions);
            && (s.log[k] == DestroyDevice(h) ==> j < k && Unmount(h) in s.log[..k])
            && (s.log[k] == Mount(h) ==> j == k)
            && (s.log[k].Mount? && j < k ==> Unmount(h) in s.log[..k])
            && !s.log[k].LateUnmount?
            && (h in s.under && s.under[h].Some? && s.log[k] == DestroyLuks(s.under[h].value) ==>
                  DestroyDevice(h) in s.log[..k])
  {
    InitInv();
    EveryRunKeeps(INIT, actions);
    var log, under := Run(INIT, actions).log, Run(INIT, actions).under;
    assert Orderly(log, under);
    assert Legal(log[..j], log[j], under) && Legal(log[..k], log[k], under);
    if k < j { assert log[k] == log[..j][k] && log[k] in log[..j]; }
    if j < k { assert log[j] == log[..k][j] && log[j] in log[..k]; }
  }

  // ---- Nothing leaks ----

  ghost predicate HoldsDevice(s: State, h: nat) {
    exists b :: b in s.bridges && s.bridges[b].device == Some(h)
  }

  ghost predicate HoldsLayer(s: State, l: nat) {
    exists b :: b in s.bridges && s.bridges[b].luks == Some(l)
  }

  /** Every device ever made, and every cipher layer under one, is destroyed or some bridge still holds it; so is the
      one in the slot. */
  ghost predicate Accounted(s: State) {
    && (forall h :: h in s.under ==> DestroyDevice(h) in s.log || HoldsDevice(s, h))
    && (forall h :: h in s.under && s.under[h].Some? ==>
          DestroyLuks(s.under[h].value) in s.log || HoldsLayer(s, s.under[h].value))
    && (s.slot.Some? ==> HoldsDevice(s, s.slot.value))
  }

  lemma StillHolds(s: State, t: State, b: nat)
    requires forall a :: a in s.bridges && a != b ==> a in t.bridges && t.bridges[a] == s.bridges[a]
    ensures forall h: nat :: HoldsDevice(s, h) ==>
              HoldsDevice(t, h) || (b in s.bridges && s.bridges[b].device == Some(h))
    ensures forall l: nat :: HoldsLayer(s, l) ==> HoldsLayer(t, l) || (b in s.bridges && s.bridges[b].luks == Some(l))
  {
    forall h: nat | HoldsDevice(s, h) ensures HoldsDevice(t, h) || (b in s.bridges && s.bridges[b].device == Some(h)) {
      var a :| a in s.bridges && s.bridges[a].device == Some(h);
    }
    forall l: nat | HoldsLayer(s, l) ensures HoldsLayer(t, l) || (b in s.bridges && s.bridges[b].luks == Some(l)) {
      var a :| a in s.bridges && s.bridges[a].luks == Some(l);
    }
  }

  lemma CloseAccounts(s: State, b: nat)
    requires Accounted(s)
    ensures Accounted(CloseBridge(s, b))
  {
    if b in s.bridges {
      StillHolds(s, CloseBridge(s, b), b);
      hide HoldsDevice, HoldsLayer;
    }
  }

  lemma NewDeviceAccounts(s: State, b: nat, luks: Option<nat>)
    requires Accounted(s) && (b in s.bridges ==> s.bridges[b] == Bridge(None, None))
    ensures Accounted(NewDevice(s, b, luks))
  {
    var t := NewDevice(s, b, luks);
    StillHolds(s, t, b);
    assert t.bridges[b] == Bridge(Some(s.next), luks);
    assert HoldsDevice(t, s.next) && (luks.Some? ==> HoldsLayer(t, luks.value));
    hide HoldsDevice, HoldsLayer;
  }

  lemma SameAccounts(s: State, t: State)
    requires Accounted(s) && t.bridges == s.bridges && t.under == s.under && t.slot == s.slot && s.log <= t.log
    ensures Accounted(t)
  {
    StillHolds(s, t, t.next);
    assert forall h: nat :: HoldsDevice(s, h) ==> HoldsDevice(t, h);
    assert forall l: nat :: HoldsLayer(s, l) ==> HoldsLayer(t, l);
    hide HoldsDevice, HoldsLayer;
    assert forall e :: e in s.log ==> e in t.log;
  }

  lemma LoggedAccounts(s: State, b: nat, e: Event)
    requires Accounted(s) && (e.Unmount? || (e.Mount? && b in s.bridges && s.bridges[b].device == Some(e.h)))
    ensures Accounted(Logged(s, e))
  {
    var t := Logged(s, e);
    SameAccounts(s, s.(log := s.log + [e]));
    assert forall h: nat :: HoldsDevice(s, h) <==> HoldsDevice(t, h);
    assert forall l: nat :: HoldsLayer(s, l) <==> HoldsLayer(t, l);
    assert e.Mount? ==> HoldsDevice(t, e.h);
    hide HoldsDevice, HoldsLayer;
  }

  lemma StepAccounts(s: State, c: nat, o: Outcome)
    requires Inv(s) && Accounted(s) && c in s.calls
    ensures Accounted(StepCall(s, c, o))
  {
    FreshNext(s);
    hide Inv, Accounted, StepCall;
    match s.calls[c]
    case Opening(r, _) => OpeningAccounts(s, c, o, r);
    case Opened(b, _) => OpenedAccounts(s, c, o, b);
    case Checking(b) => CheckingAccounts(s, c, o, b);
    case Probing(b) => ProbingAccounts(s, c, o, b);
    case Unmounting(b, h, _) => UnmountingAccounts(s, c, o);
    case Closing(b, _) => ClosingAccounts(s, c, o, b);
    case _ => OtherAccounts(s, c, o);
  }

  lemma ClosingAccounts(s: State, c: nat, o: Outcome, b: nat)
    requires Accounted(s) && c in s.calls && s.calls[c].Closing? && s.calls[c].b == b
    ensures Accounted(StepCall(s, c, o))
  {
    hide Accounted, CloseBridge;
    CloseAccounts(s, b);
    SameAccounts(CloseBridge(s, b), StepCall(s, c, o));
  }

  lemma OtherAccounts(s: State, c: nat, o: Outcome)
    requires Accounted(s) && c in s.calls
    requires var x := s.calls[c]; x.Examining? || x.Naming? || x.Mounted? || x.Taking? || x.Taken?
    ensures Accounted(StepCall(s, c, o))
  {
    hide Accounted, CloseBridge, NewDevice, LayerInVain;
    SameAccounts(s, StepCall(s, c, o));
  }

  lemma OpeningAccounts(s: State, c: nat, o: Outcome, r: Resource)
    requires Accounted(s) && c in s.calls && s.calls[c].Opening? && s.calls[c].r == r && s.next !in s.bridges
    ensures Accounted(StepCall(s, c, o))
  {
    hide Accounted, CloseBridge, NewDevice, LayerInVain;
    var t := StepCall(s, c, o);
    if !o.Fail? {
      var u := s.(next := s.next + 1, made := s.made[s.next := r]);
      SameAccounts(s, u);
      NewDeviceAccounts(u, s.next, None);
      SameAccounts(NewDevice(u, s.next, None), t);
    } else {
      SameAccounts(s, t);
    }
  }

  lemma CheckingAccounts(s: State, c: nat, o: Outcome, b: nat)
    requires Accounted(s) && c in s.calls && s.calls[c] == Checking(b)
    ensures Accounted(StepCall(s, c, o))
  {
    hide Accounted, CloseBridge, NewDevice, LayerInVain;
    var t := StepCall(s, c, o);
    if o.Fail? || o.Drop? || s.slot.Some? || b !in s.bridges || s.bridges[b].device.None? {
      CloseAccounts(s, b);
      SameAccounts(CloseBridge(s, b), t);
    } else {
      var h := s.bridges[b].device.value;
      LoggedAccounts(s, b, Mount(h));
      LoggedAccounts(Logged(s, Mount(h)), b, Unmount(h));
      SameAccounts(Logged(Logged(s, Mount(h)), Unmount(h)), t);
    }
  }

  lemma ProbingAccounts(s: State, c: nat, o: Outcome, b: nat)
    requires Accounted(s) && c in s.calls && s.calls[c] == Probing(b)
    ensures Accounted(StepCall(s, c, o))
  {
    hide Accounted, CloseBridge, NewDevice, LayerInVain;
    var t := StepCall(s, c, o);
    if o.Drop? || (!o.Fail? && (b !in s.bridges || s.bridges[b].device.None?)) {
      SameAccounts(s, t);
    } else if o.Fail? || s.slot.Some? {
      CloseAccounts(s, b);
      SameAccounts(CloseBridge(s, b), t);
    } else {
      var e := Mount(s.bridges[b].device.value);
      LoggedAccounts(s, b, e);
      SameAccounts(Logged(s, e), t);
    }
  }

  lemma UnmountingAccounts(s: State, c: nat, o: Outcome)
    requires Accounted(s) && c in s.calls && s.calls[c].Unmounting?
    ensures Accounted(StepCall(s, c, o))
  {
    hide Accounted, CloseBridge, NewDevice, LayerInVain;
    var t, h := StepCall(s, c, o), s.calls[c].h;
    if s.slot == Some(h) {
      LoggedAccounts(s, s.calls[c].b, Unmount(h));
      SameAccounts(Logged(s, Unmount(h)), t);
    } else {
      SameAccounts(s, t);
    }
  }

  lemma OpenedAccounts(s: State, c: nat, o: Outcome, b: nat)
    requires Accounted(s) && c in s.calls && s.calls[c].Opened? && s.calls[c].b == b
    ensures Accounted(StepCall(s, c, o))
  {
    var t, u := StepCall(s, c, o), CloseBridge(s, b);
    CloseAccounts(s, b);
    ClosedIsEmpty(s, b);
    hide Accounted, CloseBridge, NewDevice;
    match o
    case Fail => SameAccounts(u, t);
    case LateFail => SameAccounts(u, t);
    case Unlock =>
      var v := u.(next := u.next + 1);
      SameAccounts(u, v);
      NewDeviceAccounts(v, b, Some(u.next));
      SameAccounts(NewDevice(v, b, Some(u.next)), t);
    case _ => SameAccounts(s, t);
  }

  lemma ClosedIsEmpty(s: State, b: nat)
    ensures b in CloseBridge(s, b).bridges ==> CloseBridge(s, b).bridges[b] == Bridge(None, None)
  {}

  lemma {:induction false} EveryRunAccounts(s: State, actions: seq<Action>)
    requires Inv(s) && Accounted(s)
    ensures Accounted(Run(s, actions))
    decreases |actions|
  {
    hide Inv, Accounted, StepCall, CloseBridge;
    if actions != [] {
      var a := actions[0];
      NextKeeps(s, a);
      match a {
        case Step(c, o) => if c in s.calls { StepAccounts(s, c, o); }
        case Deinit(b) => CloseAccounts(s, b);
        case _ => SameAccounts(s, Next(s, a));
      }
      EveryRunAccounts(Next(s, a), actions[1..]);
    }
  }

  /** At every point of every run: a device that is not destroyed is held by a bridge, which is the one published, or
      some call's, or is let go, and then its device and its cipher layer are destroyed. */
  lemma NothingLeaks(actions: seq<Action>, h: nat)
    requires var s := Run(INIT, actions); h in s.under && DestroyDevice(h) !in s.log
    ensures var s := Run(INIT, actions);
            exists b :: b in s.bridges && s.bridges[b] == Bridge(Some(h), s.under[h])
                        && (Unused(s, b) ==>
                              && DestroyDevice(h) in Next(s, Deinit(b)).log
                              && (s.under[h].Some? ==> DestroyLuks(s.under[h].value) in Next(s, Deinit(b)).log))
  {
    InitInv();
    EveryRunKeeps(INIT, actions);
    EveryRunAccounts(INIT, actions);
    var s := Run(INIT, actions);
    HeldIsReleased(s, h);
  }

  lemma HeldIsReleased(s: State, h: nat)
    requires Inv(s) && Accounted(s) && h in s.under && DestroyDevice(h) !in s.log
    ensures exists b :: b in s.bridges && s.bridges[b] == Bridge(Some(h), s.under[h])
                        && (Unused(s, b) ==>
                              && DestroyDevice(h) in Next(s, Deinit(b)).log
                              && (s.under[h].Some? ==> DestroyLuks(s.under[h].value) in Next(s, Deinit(b)).log))
  {
    assert HoldsDevice(s, h);
    var b :| b in s.bridges && s.bridges[b].device == Some(h);
    HolderIsSound(s, b, h);
    hide Inv, Unused;
    if Unused(s, b) { DroppedIsDestroyed(s, b, h); }
  }

  lemma HolderIsSound(s: State, b: nat, h: nat)
    requires Inv(s) && b in s.bridges && s.bridges[b].device == Some(h) && h in s.under
    ensures s.bridges[b] == Bridge(Some(h), s.under[h])
  {
    hide OneOwner, Orderly, Distinct, OneOnTop;
    assert Sound(s, b);
  }

  lemma DroppedIsDestroyed(s: State, b: nat, h: nat)
    requires Unused(s, b) && b in s.bridges && s.bridges[b].device == Some(h)
    ensures var t, luks := Next(s, Deinit(b)), s.bridges[b].luks;
            DestroyDevice(h) in t.log && (luks.Some? ==> DestroyLuks(luks.value) in t.log)
  {
    hide Unused;
  }

  lemma InSlotIsUsed(s: State, b: nat)
    requires Inv(s) && b in s.bridges && InSlot(s, s.bridges[b])
    ensures !Unused(s, b)
  {
    hide Orderly, Distinct, OneOnTop, Sound, OneOwner;
  }

  /** With nothing running and nothing published, nothing is mounted. */
  lemma QuietSlot(s: State)
    requires Inv(s) && Accounted(s) && s.calls == map[] && s.published == None
    ensures s.slot == None
  {
    hide Inv;
    if s.slot.Some? {
      var b :| b in s.bridges && s.bridges[b].device == s.slot;
      InSlotIsUsed(s, b);
    }
  }

  // ---- What a load does to a mount ----

  /** The steps of one call. */
  function Steps(c: nat, os: seq<Outcome>): (r: seq<Action>)
    ensures |r| == |os| && forall k :: 0 <= k < |os| ==> r[k] == Step(c, os[k])
  {
    seq(|os|, k requires 0 <= k < |os| => Step(c, os[k]))
  }

  lemma RunSteps(s: State, c: nat, os: seq<Outcome>)
    requires os != []
    ensures Run(s, Steps(c, os)) == Run(Next(s, Step(c, os[0])), Steps(c, os[1..]))
  {
    hide Next;
    assert Steps(c, os)[1..] == Steps(c, os[1..]);
  }

  lemma RunLoad(s: State, c: nat, r: Resource, os: seq<Outcome>)
    ensures Run(s, [Load(c, r)] + Steps(c, os)) == Run(Next(s, Load(c, r)), Steps(c, os))
  {
    hide Next;
    assert ([Load(c, r)] + Steps(c, os))[1..] == Steps(c, os);
  }

  /** Bridge b is published and holds device h, and all that runs is a load that has not come to mount. */
  ghost predicate LoadsBeside(s: State, c: nat, b: nat, h: nat) {
    && s.published == Some(b) && b in s.bridges && s.bridges[b].device == Some(h)
    && forall d :: d in s.calls ==>
         d == c && (s.calls[d].Naming? || s.calls[d].Opening? || s.calls[d].Opened? || s.calls[d].Checking?
                    || s.calls[d].Probing?)
  }

  /** Such a load cannot: the core's slot is taken. */
  lemma BesideStep(s: State, c: nat, o: Outcome, b: nat, h: nat)
    requires Inv(s) && LoadsBeside(s, c, b, h) && c in s.calls
    ensures LoadsBeside(StepCall(s, c, o), c, b, h)
  {
    PublishedKnows(s, c, b);
    NextIsNobodys(s, c);
    OneMounted(s, b, b);
    hide Inv, CloseEvents;
  }

  lemma {:induction false} BesideRun(s: State, c: nat, os: seq<Outcome>, b: nat, h: nat)
    requires Inv(s) && LoadsBeside(s, c, b, h)
    ensures var t := Run(s, Steps(c, os)); Inv(t) && LoadsBeside(t, c, b, h)
    decreases |os|
  {
    hide Inv, LoadsBeside, StepCall;
    if os != [] {
      var u := Next(s, Step(c, os[0]));
      RunSteps(s, c, os);
      NextKeeps(s, Step(c, os[0]));
      if c in s.calls { BesideStep(s, c, os[0], b, h); }
      BesideRun(u, c, os[1..], b, h);
    }
  }

  lemma BesideIsMounted(s: State, c: nat, b: nat, h: nat)
    requires Inv(s) && LoadsBeside(s, c, b, h)
    ensures Mount(h) in s.log && Unmount(h) !in s.log
  {
    hide Handles;
  }

  /** The load takes what is published, */
  lemma ReloadTakes(s: State, c: nat, r: Resource, b: nat) returns (s1: State, s2: State)
    requires s.published == Some(b) && s.calls == map[] && Live(s, b)
    requires s.lastSeen.Some? && s.lastSeen.value.name == r.name
    ensures s1 == Next(Next(s, Load(c, r)), Step(c, Fine)) && s2 == Next(s1, Step(c, Fine))
    ensures c in s2.calls && s2.calls[c] == Unmounting(b, s.bridges[b].device.value, Some(r)) && s2.slot == s.slot
  {
    hide CloseBridge, NewDevice, LayerInVain;
    var s0 := Next(s, Load(c, r));
    assert s0 == s.(calls := map[c := Taking(Some(r))]);
    s1 := Next(s0, Step(c, Fine));
    assert s1.calls == map[c := Taken(b, Some(r))];
    s2 := Next(s1, Step(c, Fine));
  }

  lemma UnmountsIt(s: State, c: nat, b: nat, h: nat, reload: Option<Resource>)
    requires c in s.calls && s.calls[c] == Unmounting(b, h, reload) && s.slot == Some(h)
    ensures Unmount(h) in Next(s, Step(c, Fine)).log
  {}

  /** and unmounts it. */
  lemma ReloadCloses(s: State, c: nat, r: Resource, b: nat)
    requires Inv(s) && s.published == Some(b) && s.calls == map[] && Live(s, b)
    requires s.lastSeen.Some? && s.lastSeen.value.name == r.name
    ensures Unmount(s.bridges[b].device.value) in Run(s, [Load(c, r)] + Steps(c, THREE_FINE)).log
  {
    PublishedKnows(s, c, b);
    OneMounted(s, b, b);
    hide Inv, Next, Handles;
    var h := s.bridges[b].device.value;
    var s0 := Next(s, Load(c, r));
    var s1, s2 := ReloadTakes(s, c, r, b);
    UnmountsIt(s2, c, b, h, Some(r));
    RunLoad(s, c, r, THREE_FINE);
    ThreeSteps(s0, c);
  }

  const THREE_FINE: seq<Outcome> := [Fine, Fine, Fine]

  lemma ThreeSteps(s: State, c: nat)
    ensures Run(s, Steps(c, THREE_FINE)) == Next(Next(Next(s, Step(c, Fine)), Step(c, Fine)), Step(c, Fine))
  {
    hide Next;
    var a := Step(c, Fine);
    var os := THREE_FINE;
    RunSteps(s, c, os);
    RunSteps(Next(s, a), c, os[1..]);
    RunSteps(Next(Next(s, a), a), c, os[1..][1..]);
  }

  /** A load over a mount, nothing else running: it can unmount what is mounted exactly when `lastSeen` names the device
      being loaded, whichever device the mount is of; and otherwise the mount stays published and mounted however the
      load turns out. `loadResource` means to close a mount of the same device only. */
  lemma LoadClosesMountIff(s: State, c: nat, r: Resource, b: nat)
    requires Inv(s) && s.calls == map[] && s.published == Some(b) && Live(s, b)
    ensures var h := s.bridges[b].device.value;
            && (s.lastSeen.Some? && s.lastSeen.value.name == r.name
                <==> exists os :: Unmount(h) in Run(s, [Load(c, r)] + Steps(c, os)).log)
            && (!(s.lastSeen.Some? && s.lastSeen.value.name == r.name) ==>
                  forall os :: var t := Run(s, [Load(c, r)] + Steps(c, os));
                    t.published == Some(b) && Mount(h) in t.log && Unmount(h) !in t.log)
  {
    var h := s.bridges[b].device.value;
    if s.lastSeen.Some? && s.lastSeen.value.name == r.name {
      ReloadCloses(s, c, r, b);
    } else {
      var u := Next(s, Load(c, r));
      NextKeeps(s, Load(c, r));
      assert LoadsBeside(u, c, b, h);
      hide Inv, Next;
      forall os: seq<Outcome>
        ensures var t := Run(s, [Load(c, r)] + Steps(c, os));
                t.published == Some(b) && Mount(h) in t.log && Unmount(h) !in t.log
      {
        RunLoad(s, c, r, os);
        BesideRun(u, c, os, b, h);
        BesideIsMounted(Run(u, Steps(c, os)), c, b, h);
      }
    }
  }

  // ---- Every call ends ----

  /** How many bodies a call has before it at most. */
  function Left(c: Call): nat {
    match c
    case Examining(_) => 1
    case Naming(_) => 5
    case Opening(_, _) => 4
    case Opened(_, _) => 3
    case Checking(_) => 2
    case Probing(_) => 2
    case Mounted(_) => 1
    case Taking(reload) => if reload.Some? then 9 else 4
    case Taken(_, reload) => if reload.Some? then 8 else 3
    case Unmounting(_, _, reload) => if reload.Some? then 7 else 2
    case Closing(_, reload) => if reload.Some? then 6 else 1
  }

  lemma LoadingEnds(s: State, c: nat, o: Outcome)
    requires c in s.calls
    requires var x := s.calls[c];
             x.Examining? || x.Naming? || x.Opening? || x.Opened? || x.Checking? || x.Probing? || x.Mounted?
    ensures var t := StepCall(s, c, o); c in t.calls ==> Left(t.calls[c]) < Left(s.calls[c])
  {
    BuildingKeepsCalls();
    hide CloseBridge, NewDevice, LayerInVain, Logged;
  }

  lemma ClosingEnds(s: State, c: nat, o: Outcome)
    requires c in s.calls
    requires var x := s.calls[c]; x.Taking? || x.Taken? || x.Unmounting? || x.Closing?
    ensures var t := StepCall(s, c, o); c in t.calls ==> Left(t.calls[c]) < Left(s.calls[c])
  {
    BuildingKeepsCalls();
    hide CloseBridge, NewDevice, LayerInVain, Logged;
  }

  /** However its bodies turn out, and whatever other calls do in between. */
  lemma EveryCallEnds(s: State, c: nat, o: Outcome)
    requires c in s.calls
    ensures var t := StepCall(s, c, o); c in t.calls ==> Left(t.calls[c]) < Left(s.calls[c])
  {
    hide StepCall;
    match s.calls[c]
    case Taking(_) => ClosingEnds(s, c, o);
    case Taken(_, _) => ClosingEnds(s, c, o);
    case Unmounting(_, _, _) => ClosingEnds(s, c, o);
    case Closing(_, _) => ClosingEnds(s, c, o);
    case _ => LoadingEnds(s, c, o);
  }

  lemma BuildingKeepsCalls()
    ensures forall t: State, b: nat :: CloseBridge(t, b).calls == t.calls
    ensures forall t: State, b: nat, l: Option<nat> :: NewDevice(t, b, l).calls == t.calls
    ensures forall t: State :: LayerInVain(t).calls == t.calls
    ensures forall t: State, e: Event :: Logged(t, e).calls == t.calls
  {}

  // ---- And a load that succeeds has mounted ----

  lemma TakesAndUnmounts(s: State, c: nat, b: nat, reload: Option<Resource>) returns (t: State)
    requires s.calls == map[c := Taking(reload)] && s.published == Some(b) && Live(s, b) && InSlot(s, s.bridges[b])
    ensures t == Next(Next(Next(s, Step(c, Fine)), Step(c, Fine)), Step(c, Fine))
    ensures t == s.(published := None, calls := map[c := Closing(b, reload)], slot := None,
                    log := s.log + [Unmount(s.bridges[b].device.value)])
  {
    hide CloseBridge, NewDevice, LayerInVain;
    var h := s.bridges[b].device.value;
    var s1 := Next(s, Step(c, Fine));
    assert s1 == s.(published := None, calls := map[c := Taken(b, reload)]);
    var s2 := Next(s1, Step(c, Fine));
    assert s2 == s1.(calls := map[c := Unmounting(b, h, reload)]);
    t := Next(s2, Step(c, Fine));
    assert t.calls == map[c := Closing(b, reload)];
  }

  lemma ClosesAlone(s: State, c: nat, b: nat, reload: Option<Resource>)
    requires s.calls == map[c := Closing(b, reload)] && b in s.bridges && s.slot == None
    ensures Next(s, Step(c, Fine))
         == s.(bridges := s.bridges[b := Bridge(None, None)], log := s.log + CloseEvents(s.bridges[b], false),
               calls := if reload.Some? then map[c := Naming(reload.value)] else map[])
  {
    hide CloseEvents;
    assert Next(s, Step(c, Fine)).calls == if reload.Some? then map[c := Naming(reload.value)] else map[];
  }

  /** closeVolume, alone: what was published is unmounted, its device destroyed, then its cipher layer. */
  lemma TearsDown(s: State, c: nat, b: nat, reload: Option<Resource>) returns (t: State)
    requires s.calls == map[c := Taking(reload)] && s.published == Some(b) && Live(s, b) && InSlot(s, s.bridges[b])
    ensures t == Next(Next(Next(Next(s, Step(c, Fine)), Step(c, Fine)), Step(c, Fine)), Step(c, Fine))
    ensures t.published == None && t.slot == None && t.lastSeen == s.lastSeen && t.made == s.made && t.next == s.next
    ensures t.bridges == s.bridges[b := Bridge(None, None)]
    ensures t.log == s.log + [Unmount(s.bridges[b].device.value)] + CloseEvents(s.bridges[b], false)
    ensures t.calls == if reload.Some? then map[c := Naming(reload.value)] else map[]
  {
    hide Next, CloseEvents;
    var s3 := TakesAndUnmounts(s, c, b, reload);
    ClosesAlone(s3, c, b, reload);
    t := Next(s3, Step(c, Fine));
  }

  lemma MakesBridge(s: State, c: nat, r: Resource, check: bool) returns (t: State)
    requires s.calls == map[c := Opening(r, check)]
    ensures t == Next(s, Step(c, Fine))
    ensures t == s.(calls := map[c := Opened(s.next, check)], made := s.made[s.next := r],
                    bridges := s.bridges[s.next := Bridge(Some(s.next + 1), None)],
                    under := s.under[s.next + 1 := None], next := s.next + 2)
  {
    hide CloseBridge, LayerInVain;
    t := Next(s, Step(c, Fine));
    assert t.calls == map[c := Opened(s.next, check)];
  }

  /** The bridge's first device is kept, or destroyed for one on a cipher layer. */
  lemma WrapsOrNot(s: State, c: nat, b: nat, u: Outcome, check: bool) returns (t: State)
    requires s.calls == map[c := Opened(b, check)] && (u.Fine? || u.Unlock?) && s.slot == None
    requires b in s.bridges && s.bridges[b] == Bridge(Some(b + 1), None) && s.next == b + 2
    ensures t == Next(s, Step(c, u)) && t.calls == map[c := if check then Checking(b) else Probing(b)]
    ensures t.lastSeen == s.lastSeen && t.made == s.made && t.published == s.published && t.slot == None
    ensures u.Fine? ==> t.bridges == s.bridges && t.log == s.log
    ensures u.Unlock? ==> t.bridges == s.bridges[b := Bridge(Some(b + 3), Some(b + 2))]
                          && t.log == s.log + [DestroyDevice(b + 1)]
                          && b + 3 in t.under && t.under[b + 3] == Some(b + 2)
  {
    hide LayerInVain;
    t := Next(s, Step(c, u));
    assert t.calls == map[c := if check then Checking(b) else Probing(b)];
    if u.Unlock? { assert CloseEvents(s.bridges[b], false) == [DestroyDevice(b + 1)]; }
  }

  /** A bridge is made of r alone, and opened through its cipher layer if there is one. */
  lemma Opens(s: State, c: nat, r: Resource, u: Outcome, check: bool) returns (t: State)
    requires s.calls == map[c := Opening(r, check)] && (u.Fine? || u.Unlock?) && s.slot == None
    ensures t == Next(Next(s, Step(c, Fine)), Step(c, u))
    ensures t.calls == map[c := if check then Checking(s.next) else Probing(s.next)]
    ensures t.lastSeen == s.lastSeen && t.made == s.made[s.next := r] && t.published == s.published && t.slot == None
    ensures t.bridges == s.bridges[s.next := Made(s.next, u)]
    ensures t.log == s.log + Unwrapped(s.next, u)
    ensures u.Unlock? ==> s.next + 3 in t.under && t.under[s.next + 3] == Some(s.next + 2)
  {
    hide Next;
    var s1 := MakesBridge(s, c, r, check);
    t := WrapsOrNot(s1, c, s.next, u, check);
  }

  /** The handles it has then. */
  function Made(n: nat, u: Outcome): Bridge {
    if u.Fine? then Bridge(Some(n + 1), None) else Bridge(Some(n + 3), Some(n + 2))
  }

  /** The rest of a load, alone. */
  lemma NamesAndOpens(s: State, c: nat, r: Resource, u: Outcome) returns (t: State)
    requires s.calls == map[c := Naming(r)] && (u.Fine? || u.Unlock?) && s.slot == None
    ensures t == Next(Next(Next(s, Step(c, Fine)), Step(c, Fine)), Step(c, u))
    ensures t.calls == map[c := Probing(s.next)] && t.lastSeen == Some(r) && t.made == s.made[s.next := r]
    ensures t.published == s.published && t.slot == None
    ensures t.bridges == s.bridges[s.next := Made(s.next, u)]
    ensures t.log == s.log + Unwrapped(s.next, u)
  {
    var s1 := Next(s, Step(c, Fine));
    assert s1 == s.(lastSeen := Some(r), calls := map[c := Opening(r, false)]);
    hide Next;
    t := Opens(s1, c, r, u, false);
  }

  lemma MountsAndPublishes(s: State, c: nat, b: nat) returns (t: State)
    requires s.calls == map[c := Probing(b)] && Live(s, b) && s.slot == None
    ensures t == Next(Next(s, Step(c, Fine)), Step(c, Fine))
    ensures t.calls == map[] && t.published == Some(b) && t.slot == s.bridges[b].device
    ensures t.bridges == s.bridges && t.made == s.made && t.lastSeen == s.lastSeen && t.under == s.under
    ensures t.log == s.log + [Mount(s.bridges[b].device.value)]
  {
    hide CloseBridge, NewDevice, LayerInVain;
    var s1 := Next(s, Step(c, Fine));
    assert s1.calls == map[c := Mounted(b)];
    t := Next(s1, Step(c, Fine));
    assert t.calls == map[];
  }

  /** Bridge n is made of r, published and mounted; the log has gained these events, the last of them the mount. */
  ghost predicate Loaded(s: State, t: State, r: Resource, n: nat, events: seq<Event>) {
    && t.calls == map[] && t.published == Some(n) && n !in s.bridges && t.lastSeen == Some(r)
    && n in t.made && t.made[n] == r && Live(t, n) && t.slot == t.bridges[n].device
    && t.log == s.log + events + [Mount(t.bridges[n].device.value)]
    && forall a :: a in s.bridges && s.published != Some(a) ==> a in t.bridges && t.bridges[a] == s.bridges[a]
  }

  /** What the change to the cipher layer destroys: the device that addressed the container. */
  function Unwrapped(n: nat, u: Outcome): seq<Event> {
    if u.Unlock? then [DestroyDevice(n + 1)] else []
  }

  function LoadOutcomes(u: Outcome): seq<Outcome> {
    [Fine, Fine, u, Fine, Fine]
  }

  /** A load with nothing published, and nothing else running, that succeeds. */
  lemma LoadMounts(s: State, c: nat, r: Resource, u: Outcome)
    requires Inv(s) && Accounted(s) && s.calls == map[] && s.published == None && (u.Fine? || u.Unlock?)
    ensures Loaded(s, Run(s, [Load(c, r)] + Steps(c, LoadOutcomes(u))), r, s.next, Unwrapped(s.next, u))
  {
    QuietSlot(s);
    NextIsNobodys(s, c);
    FreshNext(s);
    var s0 := Next(s, Load(c, r));
    assert s0 == s.(calls := map[c := Naming(r)]);
    hide Inv, Next;
    var s3 := NamesAndOpens(s0, c, r, u);
    var s5 := MountsAndPublishes(s3, c, s.next);
    RunLoad(s, c, r, LoadOutcomes(u));
    FiveSteps(s0, c, u);
    hide Run, Steps, Unwrapped;
  }

  lemma ReloadRuns(s: State, c: nat, r: Resource, b: nat, u: Outcome) returns (t: State)
    requires s.calls == map[] && s.published == Some(b) && Live(s, b) && InSlot(s, s.bridges[b])
    requires u.Fine? || u.Unlock?
    requires s.lastSeen.Some? && s.lastSeen.value.name == r.name && s.next !in s.bridges
    ensures t == Run(s, [Load(c, r)] + Steps(c, [Fine, Fine, Fine, Fine] + LoadOutcomes(u)))
    ensures t.calls == map[] && t.published == Some(s.next) && t.lastSeen == Some(r) && t.made == s.made[s.next := r]
    ensures s.next in t.bridges && t.bridges[s.next].device.Some? && t.slot == t.bridges[s.next].device
    ensures forall a :: a in s.bridges && a != b ==> a in t.bridges && t.bridges[a] == s.bridges[a]
    ensures t.log == s.log + [Unmount(s.bridges[b].device.value)] + CloseEvents(s.bridges[b], false)
                     + Unwrapped(s.next, u) + [Mount(t.bridges[s.next].device.value)]
  {
    var s0 := Next(s, Load(c, r));
    assert s0 == s.(calls := map[c := Taking(Some(r))]);
    hide Next, CloseEvents, Unwrapped;
    var s4 := TearsDown(s0, c, b, Some(r));
    var s7 := NamesAndOpens(s4, c, r, u);
    t := MountsAndPublishes(s7, c, s.next);
    RunLoad(s, c, r, [Fine, Fine, Fine, Fine] + LoadOutcomes(u));
    NineSteps(s0, c, u);
    FiveSteps(s4, c, u);
    hide Run, Steps, LoadOutcomes;
  }

  /** A reload that succeeds: first what was mounted is unmounted and destroyed, and then the device is mounted anew. */
  lemma ReloadMounts(s: State, c: nat, r: Resource, b: nat, u: Outcome)
    requires Inv(s) && s.calls == map[] && s.published == Some(b) && Live(s, b) && (u.Fine? || u.Unlock?)
    requires s.lastSeen.Some? && s.lastSeen.value.name == r.name
    ensures Loaded(s, Run(s, [Load(c, r)] + Steps(c, [Fine, Fine, Fine, Fine] + LoadOutcomes(u))), r, s.next,
                   [Unmount(s.bridges[b].device.value)] + CloseEvents(s.bridges[b], false) + Unwrapped(s.next, u))
  {
    hide Run, Next, Steps, CloseEvents, Unwrapped, LoadOutcomes;
    PublishedKnows(s, c, b);
    OneMounted(s, b, b);
    FreshNext(s);
    hide Inv;
    var t := ReloadRuns(s, c, r, b, u);
    var d := [Unmount(s.bridges[b].device.value)] + CloseEvents(s.bridges[b], false) + Unwrapped(s.next, u);
    var m := [Mount(t.bridges[s.next].device.value)];
    Reassociate(s.log, [Unmount(s.bridges[b].device.value)], CloseEvents(s.bridges[b], false), Unwrapped(s.next, u), m);
    assert t.log == s.log + d + m;
  }

  lemma Reassociate(a: seq<Event>, b: seq<Event>, c: seq<Event>, d: seq<Event>, e: seq<Event>)
    ensures a + b + c + d + e == a + (b + c + d) + e
  {}

  lemma FreshNext(s: State)
    requires Inv(s)
    ensures s.next !in s.bridges
  {
    hide Stages, OneOwner;
  }

  lemma FiveSteps(s: State, c: nat, u: Outcome)
    ensures Run(s, Steps(c, LoadOutcomes(u)))
         == Next(Next(Next(Next(Next(s, Step(c, Fine)), Step(c, Fine)), Step(c, u)), Step(c, Fine)), Step(c, Fine))
  {
    hide Next;
    var a := Step(c, Fine);
    var os := LoadOutcomes(u);
    RunSteps(s, c, os);
    RunSteps(Next(s, a), c, os[1..]);
    RunSteps(Next(Next(s, a), a), c, os[1..][1..]);
    RunSteps(Next(Next(Next(s, a), a), Step(c, u)), c, os[1..][1..][1..]);
    RunSteps(Next(Next(Next(Next(s, a), a), Step(c, u)), a), c, os[1..][1..][1..][1..]);
  }

  lemma NineSteps(s: State, c: nat, u: Outcome)
    ensures Run(s, Steps(c, [Fine, Fine, Fine, Fine] + LoadOutcomes(u)))
         == Run(Next(Next(Next(Next(s, Step(c, Fine)), Step(c, Fine)), Step(c, Fine)), Step(c, Fine)),
                Steps(c, LoadOutcomes(u)))
  {
    hide Next;
    var a := Step(c, Fine);
    var os := [Fine, Fine, Fine, Fine] + LoadOutcomes(u);
    RunSteps(s, c, os);
    RunSteps(Next(s, a), c, os[1..]);
    RunSteps(Next(Next(s, a), a), c, os[1..][1..]);
    RunSteps(Next(Next(Next(s, a), a), a), c, os[1..][1..][1..]);
    assert os[1..][1..][1..][1..] == LoadOutcomes(u);
  }

  lemma ProbedState(s: State, x: Resource)
    requires s.calls == map[]
    ensures Next(Next(s, Probe(0, x)), Step(0, Fine)) == s.(lastSeen := Some(x))
  {
    hide CloseBridge, NewDevice, LayerInVain;
    var u := Next(s, Probe(0, x));
    assert u == s.(lastSeen := Some(x), calls := map[0 := Examining(x)]);
    assert Next(u, Step(0, Fine)).calls == map[];
  }

  /** Then x is probed and recognised. */
  lemma ProbedAfter(s: State, x: Resource)
    requires Inv(s) && s.calls == map[] && s.published == Some(0)
    ensures var t := Next(Next(s, Probe(0, x)), Step(0, Fine));
            Inv(t) && t == s.(lastSeen := Some(x)) && Live(t, 0)
  {
    NextKeeps(s, Probe(0, x));
    NextKeeps(Next(s, Probe(0, x)), Step(0, Fine));
    PublishedKnows(s, 0, 0);
    hide Inv, Next;
    ProbedState(s, x);
  }

  /** One call at a time: a is mounted, x is probed and recognised, x is loaded; a is unmounted, where another device's
      load should have been refused. */
  lemma LoadOfAnotherCloses(a: Resource, x: Resource)
    requires a.name != x.name
    ensures var s := Next(Next(Run(INIT, [Load(0, a)] + Steps(0, LoadOutcomes(Fine))), Probe(0, x)), Step(0, Fine));
            && s.published == Some(0) && 0 in s.made && s.made[0] == a && Live(s, 0)
            && exists os :: Unmount(s.bridges[0].device.value) in Run(s, [Load(0, x)] + Steps(0, os)).log
  {
    InitInv();
    hide Inv, Next, Run;
    LoadMounts(INIT, 0, a, Fine);
    EveryRunKeeps(INIT, [Load(0, a)] + Steps(0, LoadOutcomes(Fine)));
    ProbedAfter(Run(INIT, [Load(0, a)] + Steps(0, LoadOutcomes(Fine))), x);
    var s := Next(Next(Run(INIT, [Load(0, a)] + Steps(0, LoadOutcomes(Fine))), Probe(0, x)), Step(0, Fine));
    LoadClosesMountIff(s, 0, x, 0);
  }

  // ---- What the other calls do ----

  lemma RunFourSteps(s: State, a: Action, c: nat, u: Outcome)
    ensures Run(s, [a] + Steps(c, [Fine, u, Fine, Fine]))
         == Next(Next(Next(Next(Next(s, a), Step(c, Fine)), Step(c, u)), Step(c, Fine)), Step(c, Fine))
  {
    hide Next;
    var os: seq<Outcome> := [Fine, u, Fine, Fine];
    assert ([a] + Steps(c, os))[1..] == Steps(c, os);
    var s0, f := Next(s, a), Step(c, Fine);
    RunSteps(s0, c, os);
    RunSteps(Next(s0, f), c, os[1..]);
    RunSteps(Next(Next(s0, f), Step(c, u)), c, os[1..][1..]);
    RunSteps(Next(Next(Next(s0, f), Step(c, u)), f), c, os[1..][1..][1..]);
  }

  /** unmount, deactivate, unload or format: what is published is taken, unmounted and destroyed, device before cipher
      layer; and with nothing published nothing happens. */
  lemma CloseTakesDown(s: State, c: nat, b: nat)
    requires Inv(s) && s.calls == map[] && s.published == Some(b) && Live(s, b)
    ensures var t, h := Run(s, [Close(c)] + Steps(c, [Fine, Fine, Fine, Fine])), s.bridges[b].device.value;
            && t.published == None && t.slot == None && t.calls == map[] && t.lastSeen == s.lastSeen
            && t.bridges == s.bridges[b := Bridge(None, None)]
            && t.log == s.log + [Unmount(h)] + CloseEvents(s.bridges[b], false)
  {
    PublishedKnows(s, c, b);
    OneMounted(s, b, b);
    hide Inv;
    var s0 := Next(s, Close(c));
    assert s0 == s.(calls := map[c := Taking(None)]);
    hide Next, CloseEvents;
    var t := TearsDown(s0, c, b, None);
    RunFourSteps(s, Close(c), c, Fine);
    hide Run, Steps;
  }

  lemma CloseOfNothing(s: State, c: nat, o: Outcome)
    requires c !in s.calls && s.published == None
    ensures Next(Next(s, Close(c)), Step(c, o)) == s
  {
    hide CloseBridge, NewDevice, LayerInVain;
    var u := Next(s, Close(c));
    assert u.calls == s.calls[c := Taking(None)];
    assert s.calls[c := Taking(None)] - {c} == s.calls;
  }

  /** A reload that finds that another call has taken the mount, or closed its bridge, loads all the same. */
  lemma ReloadOfNothing(s: State, c: nat, o: Outcome, r: Resource)
    requires c in s.calls
    requires (s.calls[c] == Taking(Some(r)) && s.published == None)
          || (exists b :: s.calls[c] == Taken(b, Some(r)) && !Live(s, b))
    ensures Next(s, Step(c, o)) == s.(calls := s.calls[c := Naming(r)])
  {
    hide CloseBridge, NewDevice, LayerInVain;
  }

  /** What a check of r leaves: its bridge closed, its device opened, mounted, unmounted and destroyed. */
  ghost predicate Checked(s: State, t: State, r: Resource, u: Outcome) {
    var m := Made(s.next, u);
    && t.published == None && t.slot == None && t.calls == map[] && t.lastSeen == s.lastSeen
    && t.made == s.made[s.next := r] && t.bridges == s.bridges[s.next := Bridge(None, None)]
    && t.log == s.log + Unwrapped(s.next, u) + [Mount(m.device.value), Unmount(m.device.value)] + CloseEvents(m, false)
  }

  /** A check of a device that is not mounted, alone. */
  lemma CheckLeavesNothing(s: State, c: nat, r: Resource, u: Outcome)
    requires Inv(s) && Accounted(s) && s.calls == map[] && s.published == None && (u.Fine? || u.Unlock?)
    ensures Checked(s, Run(s, [Check(c, r)] + Steps(c, [Fine, u, Fine, Fine])), r, u)
  {
    QuietSlot(s);
    hide Inv;
    var s0 := Next(s, Check(c, r));
    assert s0 == s.(calls := map[c := Opening(r, true)]);
    hide Next, Checked;
    ChecksAlone(s, s0, c, r, u);
    RunFourSteps(s, Check(c, r), c, u);
  }

  lemma ChecksAlone(s: State, s0: State, c: nat, r: Resource, u: Outcome)
    requires s0 == s.(calls := map[c := Opening(r, true)]) && s.slot == None && s.published == None
    requires u.Fine? || u.Unlock?
    ensures var t := Next(Next(Next(Next(s0, Step(c, Fine)), Step(c, u)), Step(c, Fine)), Step(c, Fine));
            Checked(s, t, r, u)
  {
    hide Next, Unwrapped, CloseEvents;
    var s2 := Opens(s0, c, r, u, true);
    var s3 := ReplaysAlone(s2, c, s.next);
    ClosesAlone(s3, c, s.next, None);
    assert s2.bridges[s.next := Bridge(None, None)] == s.bridges[s.next := Bridge(None, None)];
  }

  lemma ReplaysAlone(s: State, c: nat, b: nat) returns (t: State)
    requires s.calls == map[c := Checking(b)] && Live(s, b) && s.slot == None
    ensures t == Next(s, Step(c, Fine))
    ensures t == s.(calls := map[c := Closing(b, None)],
                    log := s.log + [Mount(s.bridges[b].device.value), Unmount(s.bridges[b].device.value)])
  {
    hide CloseBridge, NewDevice, LayerInVain;
    t := Next(s, Step(c, Fine));
    assert t.calls == map[c := Closing(b, None)];
  }

  /** A device that is declined is forgotten, unless another has been seen since; one that is recognised is not. */
  lemma DeclinedIsForgotten(s: State, c: nat, d: nat, r: Resource, x: Resource, o: Outcome)
    requires c !in s.calls && d !in s.calls && c != d
    ensures Next(Next(s, Probe(c, r)), Step(c, o)) == s.(lastSeen := if o.Drop? then None else Some(r))
    ensures Next(Next(Next(s, Probe(c, r)), Probe(d, x)), Step(c, Drop)).lastSeen == if x == r then None else Some(x)
  {
    hide CloseBridge, NewDevice, LayerInVain;
    assert s.calls[c := Examining(r)] - {c} == s.calls;
    var u := Next(s, Probe(c, r));
    assert u.calls[c] == Examining(r) && Next(u, Probe(d, x)).calls[c] == Examining(r);
  }

  // ---- Every handle ----

  /** A number that has been handed out: a bridge's, a device's, a cipher layer's under a device, or that of a layer
      destroyed since. */
  ghost predicate Known(s: State, n: nat) {
    n in s.bridges || n in s.under || DestroyLuks(n) in s.log || exists h :: h in s.under && s.under[h] == Some(n)
  }

  ghost predicate AllKnown(s: State) {
    (forall n: nat :: n < s.next ==> Known(s, n)) && forall h :: h in s.under ==> h < s.next
  }

  /** Nothing known is forgotten. */
  ghost predicate Remembers(s: State, t: State) {
    && s.bridges.Keys <= t.bridges.Keys && s.log <= t.log && s.next <= t.next
    && forall h :: h in s.under ==> h in t.under && t.under[h] == s.under[h]
  }

  lemma KnownStays(s: State, t: State, n: nat)
    requires Remembers(s, t) && Known(s, n)
    ensures Known(t, n)
  {
    if h :| h in s.under && s.under[h] == Some(n) { assert t.under[h] == Some(n); }
  }

  lemma KnowsMore(s: State, t: State)
    requires AllKnown(s) && Remembers(s, t)
    requires forall n: nat :: s.next <= n < t.next ==> Known(t, n)
    requires forall h :: h in t.under ==> h in s.under || h < t.next
    ensures AllKnown(t)
  {
    forall n: nat | n < t.next ensures Known(t, n) {
      if n < s.next { KnownStays(s, t, n); }
    }
  }

  lemma CloseRemembers(s: State, b: nat)
    ensures var t := CloseBridge(s, b); Remembers(s, t) && t.next == s.next && t.under == s.under
  {
    hide CloseEvents;
  }

  lemma StepKnows(s: State, c: nat, o: Outcome)
    requires AllKnown(s) && c in s.calls
    ensures AllKnown(StepCall(s, c, o))
  {
    hide AllKnown, StepCall;
    match s.calls[c] {
      case Opening(_, _) => OpeningKnows(s, c, o);
      case Opened(b, _) => OpenedKnows(s, c, o, b);
      case Checking(b) => LoadingRemembers(s, c, o, b);
      case Probing(b) => LoadingRemembers(s, c, o, b);
      case Closing(b, _) => OtherRemembers(s, c, o, b);
      case _ => OtherRemembers(s, c, o, 0);
    }
    if !s.calls[c].Opening? && !s.calls[c].Opened? { KnowsTheSame(s, StepCall(s, c, o)); }
  }

  lemma LoadingRemembers(s: State, c: nat, o: Outcome, b: nat)
    requires c in s.calls && (s.calls[c] == Checking(b) || s.calls[c] == Probing(b))
    ensures var t := StepCall(s, c, o); Remembers(s, t) && t.next == s.next && t.under == s.under
  {
    CloseRemembers(s, b);
    hide CloseBridge, NewDevice, LayerInVain;
  }

  lemma OtherRemembers(s: State, c: nat, o: Outcome, b: nat)
    requires c in s.calls && (s.calls[c].Closing? ==> s.calls[c].b == b)
    requires var x := s.calls[c]; !x.Opening? && !x.Opened? && !x.Checking? && !x.Probing?
    ensures var t := StepCall(s, c, o); Remembers(s, t) && t.next == s.next && t.under == s.under
  {
    CloseRemembers(s, b);
    hide CloseBridge, NewDevice, LayerInVain;
  }

  lemma OpeningKnows(s: State, c: nat, o: Outcome)
    requires AllKnown(s) && c in s.calls && s.calls[c].Opening?
    ensures AllKnown(StepCall(s, c, o))
  {
    hide CloseBridge, LayerInVain;
    KnowsMore(s, StepCall(s, c, o));
  }

  lemma OpenedKnows(s: State, c: nat, o: Outcome, b: nat)
    requires AllKnown(s) && c in s.calls && s.calls[c].Opened? && s.calls[c].b == b
    ensures AllKnown(StepCall(s, c, o))
  {
    CloseRemembers(s, b);
    hide CloseBridge;
    var u, t := CloseBridge(s, b), StepCall(s, c, o);
    if o.Unlock? { assert t.under[s.next + 1] == Some(s.next); }
    KnowsMore(s, t);
  }

  /** In every run: a number that has been handed out to anything belongs to a bridge or a device, or to a cipher layer
      that is under a device or has been destroyed. */
  lemma {:induction false} EveryHandleIsKnown(s: State, actions: seq<Action>)
    requires AllKnown(s)
    ensures AllKnown(Run(s, actions))
    decreases |actions|
  {
    hide AllKnown, StepCall, CloseBridge;
    if actions != [] {
      var a := actions[0];
      match a {
        case Step(c, o) => if c in s.calls { StepKnows(s, c, o); }
        case Deinit(b) => CloseRemembers(s, b); KnowsTheSame(s, Next(s, a));
        case _ => KnowsTheSame(s, Next(s, a));
      }
      EveryHandleIsKnown(Next(s, a), actions[1..]);
    }
  }

  lemma KnowsTheSame(s: State, t: State)
    requires AllKnown(s) && Remembers(s, t) && t.next == s.next && t.under == s.under
    ensures AllKnown(t)
  {
    hide Known;
    KnowsMore(s, t);
  }

  /** No cipher layer is lost: at the end of every run, a layer that is not destroyed is under a device. */
  lemma NoLayerIsLost(actions: seq<Action>, l: nat)
    requires var s := Run(INIT, actions); l < s.next && l !in s.bridges && l !in s.under
    ensures var s := Run(INIT, actions);
            DestroyLuks(l) in s.log || exists h :: h in s.under && s.under[h] == Some(l)
  {
    EveryHandleIsKnown(INIT, actions);
    assert Known(Run(INIT, actions), l);
  }

  // ---- The code ----

  /** BlockDeviceBridge: its two handles, and what has been done with them. */
  class BlockDeviceBridge {
    var device: Option<nat>
    var luksDevice: Option<nat>
    var mounted: bool                  // the core's own flag, in the device
    var log: seq<Event>

    function View(): Bridge
      reads this
    {
      Bridge(device, luksDevice)
    }

    constructor (h: nat)
      ensures View() == Bridge(Some(h), None) && !mounted && log == []
    {
      device, luksDevice, mounted, log := Some(h), None, false, [];
    }

    /** `close`, under the teardown lock. */
    method Close()
      modifies this
      ensures View() == Bridge(None, None) && log == old(log) + CloseEvents(old(View()), old(mounted))
      ensures mounted == (old(mounted) && old(device).None?)
    {
      if device.Some? {
        if mounted {
          log := log + [LateUnmount(device.value)];
          mounted := false;
        }
        log := log + [DestroyDevice(device.value)];
        device := None;
      }
      if luksDevice.Some? {
        log := log + [DestroyLuks(luksDevice.value)];
        luksDevice := None;
      }
    }

    /** `openThroughLUKS`: `layer` is the cipher layer, if it opens, `made` the device on it, if one is made. */
    method OpenThroughLuks(layer: Option<nat>, payload: nat, blockSize: nat, made: Option<nat>) returns (ok: bool)
      modifies this
      ensures ok <==> old(View()) == Bridge(None, None) && layer.Some? && payload >= blockSize && made.Some?
      ensures View() == if ok then Bridge(made, layer) else old(View())
      ensures log == if old(View()) == Bridge(None, None) && layer.Some? && !ok
                     then old(log) + [DestroyLuks(layer.value)] else old(log)
    {
      if device.Some? || luksDevice.Some? {
        return false;
      }
      if layer.None? {
        return false;
      }
      luksDevice := layer;
      if payload < blockSize {
        Close();
        return false;
      }
      if made.None? {
        Close();
        return false;
      }
      device := made;
      return true;
    }
  }

  /** The mount state, and the bodies its lock makes atomic. */
  class MountState {
    var bridge: Option<nat>
    var lastSeen: Option<Resource>

    constructor ()
      ensures bridge == INIT.published && lastSeen == INIT.lastSeen
    {
      bridge, lastSeen := None, None;
    }

    /** The first critical section of `loadResource`. */
    method Look() returns (existing: Option<nat>)
      ensures existing.Some? <==> bridge.Some? && lastSeen.Some?
      ensures existing.Some? ==> existing.value == lastSeen.value.name
    {
      existing := None;
      if bridge.Some? && lastSeen.Some? {
        existing := Some(lastSeen.value.name);
      }
    }

    /** The device FSKit presented, to probe or to load. */
    method See(r: Resource)
      modifies this`lastSeen
      ensures lastSeen == Some(r)
    {
      lastSeen := Some(r);
    }

    /** A declined device is let go, unless another has been seen since. */
    method Decline(r: Resource)
      modifies this`lastSeen
      ensures lastSeen == if old(lastSeen) == Some(r) then None else old(lastSeen)
    {
      if lastSeen == Some(r) {
        lastSeen := None;
      }
    }

    /** The critical section of `closeVolume`: whoever comes second takes nothing. */
    method Take() returns (taken: Option<nat>)
      modifies this`bridge
      ensures taken == old(bridge) && bridge == None
    {
      taken := bridge;
      bridge := None;
    }

    /** The last critical section of `loadResource`. */
    method Publish(b: nat)
      modifies this`bridge
      ensures bridge == Some(b)
    {
      bridge := Some(b);
    }
  }
}

// The main loop of src/main.cpp as a state machine: connecting, dropping and hot-swapping the
// physical controller, the grace window, the standalone virtual device, the commands that
// change type, backend and name, and shutdown.  One `Input` is everything the environment
// decides during one iteration; each phase of the loop body is one function below, and
// Daemon.dfy holds the code proved to compute them.
module DaemonLoop {
  import opened Controller

  /** PHYSICAL_DISCONNECT_GRACE, in milliseconds. */
  const GRACE: nat := 300_000

  /** phy_fd >= 0, the name and bus of what it is, and the two g_phy_is_*_transport flags. */
  datatype Phy = Phy(open: bool, name: nat, bluetooth: bool, unbindTransport: bool, bpfTransport: bool)

  /** A virtual device this daemon created, by the number of its creation. */
  datatype Tracked = Absent | Present(id: nat)

  /** backend_type, uhid_fd and virtual_functionfs.device_open; on the kernel's side how many
      devices were created so far and which of them still exist; and the FunctionFS devices whose
      threads were started and not joined. */
  datatype Virtual = Virtual(backend: Backend, uhid: Tracked, ffs: Tracked, created: nat, existing: set<nat>, threads: set<nat>)

  datatype Settings = Settings(
    targetType: ControllerType,
    pendingType: ControllerType,
    typeRequested: bool,
    pendingBackend: Backend,
    backendRequested: bool,
    nameRequested: bool,
    backendDs4: Backend,
    backendDualSense: Backend,
    hideMethod: HideMethod,
    sentinel: bool)                // /run/ds4-translator.none exists

  /** suppressed_bt_hid_id; and on the kernel's side the Bluetooth HID devices present, and
      those whose driver the hot-swap took away. */
  datatype Bluetooth = Bluetooth(suppressed: Tracked, present: set<nat>, unbound: set<nat>)

  /** A device destroyed because its grace window ran out, and how many drops there had been. */
  datatype Expiry = Expiry(id: nat, at: nat, since: nat, after: nat)

  datatype Grace = Grace(pendingDestroy: bool, dropTime: nat, drops: seq<nat>, expired: seq<Expiry>)

  datatype State = State(
    phy: Phy,
    virt: Virtual,
    conf: Settings,
    bt: Bluetooth,
    grace: Grace,
    deviceOpen: bool,              // what UHID_OPEN and UHID_CLOSE last said
    standalone: bool,
    ignorePhysical: bool,
    clock: nat)

  // ------------------------------------------------------------------- the environment

  /** What an attempt to create a virtual device meets. */
  datatype Creation = Creation(ffsWorks: bool, uhidOpens: bool, uhidWrites: bool)

  datatype Found = Nothing | Pad(name: nat, bluetooth: bool, opens: bool)

  /** What the HID bus scan of the unbind method and the hidraw scan come back with. */
  datatype Scan = Scan(hidBus: Found, hidraw: Found)

  datatype Upgrade = Upgrade(usbFound: bool, resolves: bool, unbindWorks: bool, configured: bool)

  datatype Poll = Interrupted | Ready(hangUp: bool)

  datatype Command =
    | Other                               // none, or one that leaves these variables alone
    | CreateVirtual(ds4: bool)
    | DestroyVirtual
    | ReleasePhysical
    | ResumePhysical
    | SetType(t: ControllerType)
    | SetBackend(ds4: bool, b: Backend)
    | SetName(ds4: bool, changed: bool)
    | SetHideMethod(m: HideMethod, monitorWorks: bool)

  datatype UhidEvent = Quiet | Dropped | ReadFailed | Opened | Closed

  /** One iteration's worth of environment.  `configured` fields are the FunctionFS thread's
      flag at the moment it is read. */
  datatype Input = Input(
    now: nat,
    later: nat,
    present: set<nat>,
    scan: Scan,
    scanCreation: Creation,
    upgrade: Upgrade,
    poll: Poll,
    command: Command,
    commandConfigured: bool,
    commandCreation: Creation,
    renameConfigured: bool,
    renameCreation: Creation,
    dropConfigured: bool,
    uhidEvent: UhidEvent)

  // --------------------------------------------------------------------------- helpers

  /** vdev_configured() */
  predicate Configured(v: Virtual, deviceOpen: bool, ffsFlag: bool) {
    if v.backend.FunctionFs? then v.ffs.Present? && ffsFlag else deviceOpen
  }

  function Ids(d: Tracked): set<nat> {
    if d.Present? then {d.id} else {}
  }

  /** The virtual device the daemon knows of. */
  function Live(v: Virtual): Tracked {
    if v.uhid.Present? then v.uhid else v.ffs
  }

  /** create_virtual_device: FunctionFS takes down the gadget it finds, but not its threads, and
      falls back to UHID for good. */
  function Create(v: Virtual, c: Creation): Virtual {
    if v.backend.FunctionFs? && c.ffsWorks then
      v.(ffs := Present(v.created), created := v.created + 1, existing := v.existing - Ids(v.ffs) + {v.created},
         threads := v.threads + {v.created})
    else
      var u := if v.backend.FunctionFs? then v.(ffs := Absent, backend := Uhid, existing := v.existing - Ids(v.ffs)) else v;
      if !c.uhidOpens then u
      else if !c.uhidWrites then u.(uhid := Absent)
      else u.(uhid := Present(u.created), created := u.created + 1, existing := u.existing + {u.created})
  }

  predicate Creates(v: Virtual, c: Creation) {
    (v.backend.FunctionFs? && c.ffsWorks) || (c.uhidOpens && c.uhidWrites)
  }

  /** destroy_virtual_device */
  function Destroy(v: Virtual): Virtual {
    if v.backend.FunctionFs? then v.(ffs := Absent, existing := v.existing - Ids(v.ffs), threads := v.threads - Ids(v.ffs))
    else CloseUhid(v)
  }

  function CloseUhid(v: Virtual): Virtual {
    v.(uhid := Absent, existing := v.existing - Ids(v.uhid))
  }

  /** release_physical_connection and the assignments that follow every call: only one of the
      two flags is looked at. */
  function Release(p: Phy): Phy {
    Phy(false, 0, p.bluetooth, false, p.bpfTransport && p.unbindTransport)
  }

  /** restore_suppressed_bluetooth */
  function Restore(b: Bluetooth): Bluetooth {
    b.(suppressed := Absent, unbound := b.unbound - Ids(b.suppressed))
  }

  /** The bookkeeping of a drop: keep the device for the grace window if it is in use. */
  function BeginGrace(g: Grace, inUse: bool, at: nat): Grace {
    if inUse then Grace(true, at, g.drops + [at], g.expired) else g.(drops := g.drops + [at])
  }

  // ------------------------------------------------------------------------- the phases

  /** Devices come and go by themselves; what is gone has no driver to miss. */
  function Kernel(s: State, i: Input): State {
    s.(bt := s.bt.(present := i.present, unbound := s.bt.unbound * i.present), clock := i.later)
  }

  predicate UsesUnbind(conf: Settings, scan: Scan) {
    conf.hideMethod.Unbind? && HidesPhysical(conf.targetType) && scan.hidBus.Pad?
  }

  /** The scan's candidate and the attempt to open it, the unbind method first. */
  function OpenFound(p: Phy, unbind: bool, scan: Scan): Phy
    requires unbind ==> scan.hidBus.Pad?
  {
    if unbind && scan.hidBus.opens then
      var f := scan.hidBus;
      Phy(true, f.name, f.bluetooth, p.unbindTransport || !f.bluetooth, p.bpfTransport || f.bluetooth)
    else if scan.hidraw.Pad? then
      var f := scan.hidraw;
      p.(open := f.opens, name := if f.opens then f.name else 0, bluetooth := f.bluetooth)
    else if unbind then
      p.(name := 0, bluetooth := scan.hidBus.bluetooth)
    else
      p
  }

  function AutoScan(s: State, scan: Scan, c: Creation): State {
    var p := OpenFound(s.phy, UsesUnbind(s.conf, scan), scan);
    if !p.open then s.(phy := p)
    else if !Emulates(s.conf.targetType) then s.(phy := p, deviceOpen := false)
    else if s.grace.pendingDestroy then s.(phy := p, grace := s.grace.(pendingDestroy := false))
    else if Creates(s.virt, c) then s.(phy := p, virt := Create(s.virt, c), deviceOpen := false)
    else s.(phy := Release(p), virt := Create(s.virt, c))
  }

  /** A USB connection showed up while Bluetooth is active: Bluetooth has to let go first. */
  function HotSwap(s: State, u: Upgrade, now: nat): State {
    if !u.usbFound || !(s.phy.bpfTransport || u.resolves) then s
    else
      var x := s.phy.name;
      var b := Bluetooth(Present(x), s.bt.present,
                         if u.unbindWorks && x in s.bt.present then s.bt.unbound + {x} else s.bt.unbound);
      if s.phy.bpfTransport then
        s.(phy := Release(s.phy), bt := b,
           grace := BeginGrace(s.grace, Emulates(s.conf.targetType) && Configured(s.virt, s.deviceOpen, u.configured), now))
      else
        s.(bt := b)
  }

  function Head(s: State, i: Input): State {
    var k := Kernel(s, i);
    if k.standalone || k.ignorePhysical then k
    else if !k.phy.open then AutoScan(k, i.scan, i.scanCreation)
    else if k.phy.bluetooth then HotSwap(k, i.upgrade, i.now)
    else k
  }

  function Kind(ds4: bool): ControllerType {
    if ds4 then Ds4 else DualSense
  }

  /** The commands that only change settings. */
  function SettingsAfter(conf: Settings, command: Command): Settings {
    match command
    case SetType(t) =>
      if t == conf.targetType then conf
      else if Emulates(t) then
        conf.(pendingType := t, typeRequested := true, backendRequested := true,
             pendingBackend := if t.Ds4? then conf.backendDs4 else conf.backendDualSense)
      else
        conf.(pendingType := t, typeRequested := true)
    case SetBackend(ds4, b) =>
      if b == (if ds4 then conf.backendDs4 else conf.backendDualSense) then conf
      else
        var n := if ds4 then conf.(backendDs4 := b) else conf.(backendDualSense := b);
        if conf.targetType == Kind(ds4) then n.(pendingBackend := b, backendRequested := true) else n
    case SetName(ds4, changed) =>
      if changed && conf.targetType == Kind(ds4) then conf.(nameRequested := true) else conf
    case SetHideMethod(m, monitorWorks) =>
      if m.Legacy? || monitorWorks then conf.(hideMethod := m) else conf
    case _ => conf
  }

  function Commanded(s: State, i: Input): State {
    match i.command
    case CreateVirtual(ds4) =>
      if s.phy.open || s.standalone || Configured(s.virt, s.deviceOpen, i.commandConfigured) then s
      else if Creates(s.virt, i.commandCreation) then
        s.(virt := Create(s.virt, i.commandCreation), standalone := true,
           conf := s.conf.(targetType := Kind(ds4)), deviceOpen := false)
      else
        s.(virt := Create(s.virt, i.commandCreation))
    case DestroyVirtual =>
      if !s.standalone then s
      else s.(virt := Destroy(s.virt), grace := s.grace.(pendingDestroy := false), standalone := false, deviceOpen := false)
    case ReleasePhysical =>
      if !s.phy.open then s.(ignorePhysical := true)
      else s.(virt := Destroy(s.virt), phy := Release(s.phy), bt := Restore(s.bt),
              grace := s.grace.(pendingDestroy := false), deviceOpen := false, ignorePhysical := true)
    case ResumePhysical => s.(ignorePhysical := false)
    case _ => s.(conf := SettingsAfter(s.conf, i.command))
  }

  /** The block that applies a type or backend change.  The old device goes under the old
      backend; a standalone device comes back under the new one. */
  function Reconfigured(s: State, c: Creation): State {
    if !s.conf.typeRequested && !s.conf.backendRequested then s
    else
      var t := s.conf.pendingType;
      var v := Destroy(s.virt).(backend := s.conf.pendingBackend);
      var recreate := Emulates(t) && !s.phy.open && s.standalone;
      s.(conf := s.conf.(targetType := t, typeRequested := false, backendRequested := false, sentinel := t.Passthrough?),
         virt := if recreate then Create(v, c) else v,
         deviceOpen := s.deviceOpen && !(recreate && Creates(v, c)),
         grace := s.grace.(pendingDestroy := false),
         phy := if s.phy.open then Release(s.phy) else s.phy,
         bt := Restore(s.bt),
         standalone := s.standalone && Emulates(t))
  }

  /** The block that applies a name change. */
  function Renamed(s: State, configured: bool, c: Creation): State {
    if !s.conf.nameRequested then s
    else
      var n := s.(conf := s.conf.(nameRequested := false));
      if !Configured(s.virt, s.deviceOpen, configured) then n
      else n.(virt := Create(Destroy(s.virt), c), deviceOpen := s.deviceOpen && !Creates(Destroy(s.virt), c))
  }

  function PhysicalDropped(s: State, configured: bool, at: nat): State {
    s.(phy := Release(s.phy),
       bt := if s.phy.bluetooth then s.bt else Restore(s.bt),
       grace := BeginGrace(s.grace, Emulates(s.conf.targetType) && Configured(s.virt, s.deviceOpen, configured), at))
  }

  function GraceChecked(s: State, now: nat): State {
    if s.grace.pendingDestroy && now >= s.grace.dropTime + GRACE then
      var d := Live(s.virt);
      var log := if d.Present? then s.grace.expired + [Expiry(d.id, now, s.grace.dropTime, |s.grace.drops|)] else s.grace.expired;
      s.(virt := Destroy(s.virt), deviceOpen := false, grace := s.grace.(pendingDestroy := false, expired := log))
    else s
  }

  /** Events of the UHID descriptor that was polled; by now it may be gone. */
  function UhidHandled(s: State, e: UhidEvent): State {
    match e
    case Quiet => s
    case Dropped => s.(virt := CloseUhid(s.virt), standalone := false)
    case ReadFailed => s.(virt := CloseUhid(s.virt))
    case Opened => if s.virt.uhid.Present? then s.(deviceOpen := true) else s
    case Closed => if s.virt.uhid.Present? then s.(deviceOpen := false) else s
  }

  /** What follows the IPC socket in the loop body; the flags say what was polled. */
  function Tail(s: State, i: Input, phyPolled: bool, uhidPolled: bool): State {
    var r := Renamed(Reconfigured(s, i.commandCreation), i.renameConfigured, i.renameCreation);
    if phyPolled && i.poll.Ready? && i.poll.hangUp then
      PhysicalDropped(r, i.dropConfigured, i.later)
    else
      var g := GraceChecked(r, i.later);
      if uhidPolled then UhidHandled(g, i.uhidEvent) else g
  }

  predicate UhidPolled(v: Virtual) {
    v.backend.Uhid? && v.uhid.Present?
  }

  function Iterate(s: State, i: Input): State {
    var h := Head(s, i);
    if i.poll.Interrupted? then h else Tail(Commanded(h, i), i, h.phy.open, UhidPolled(h.virt))
  }

  predicate Timely(s: State, i: Input) {
    s.clock <= i.now <= i.later
  }

  predicate CanRun(s: State, inputs: seq<Input>)
    decreases |inputs|
  {
    inputs == [] || (Timely(s, inputs[0]) && CanRun(Iterate(s, inputs[0]), inputs[1..]))
  }

  function Run(s: State, inputs: seq<Input>): State
    decreases |inputs|
  {
    if inputs == [] then s else Run(Iterate(s, inputs[0]), inputs[1..])
  }

  /** What is left when main() returns. */
  function Shutdown(s: State): State {
    s.(virt := Destroy(s.virt), phy := if s.phy.open then Release(s.phy) else s.phy, bt := Restore(s.bt))
  }

  /** The state when the loop is first entered. */
  function Start(t: ControllerType, ds4: Backend, dualSense: Backend, m: HideMethod, now: nat): State {
    var b := if t.Ds4? then ds4 else dualSense;
    State(Phy(false, 0, false, false, false),
          Virtual(b, Absent, Absent, 0, {}, {}),
          Settings(t, t, false, b, false, false, ds4, dualSense, m, t.Passthrough?),
          Bluetooth(Absent, {}, {}),
          Grace(false, 0, [], []),
          false, false, false, now)
  }

  /** create-virtual that goes through. */
  predicate CreatesVirtual(h: State, i: Input) {
    && i.command.CreateVirtual? && !h.phy.open && !h.standalone
    && !Configured(h.virt, h.deviceOpen, i.commandConfigured) && Creates(h.virt, i.commandCreation)
  }

  /** An iteration in which nothing happens, for the examples. */
  const QUIET := Input(0, 0, {}, Scan(Nothing, Nothing), Creation(true, true, true), Upgrade(false, false, false, false),
                       Ready(false), Other, false, Creation(true, true, true), false, Creation(true, true, true), false, Quiet)

  /** A controller shows up over USB. */
  const USB := QUIET.(scan := Scan(Nothing, Pad(1, false, true)))

  // ---------------------------------------------------------------------- the invariant

  ghost predicate OneTransport(p: Phy) {
    !(p.unbindTransport && p.bpfTransport) && (p.unbindTransport || p.bpfTransport ==> p.open)
  }

  ghost predicate Consistent(v: Virtual) {
    && (v.uhid.Present? ==> v.backend.Uhid?)
    && (v.ffs.Present? ==> v.backend.FunctionFs?)
    && Ids(Live(v)) <= v.existing && Ids(v.ffs) <= v.threads
    && (forall d :: d in v.existing ==> d < v.created)
    && (forall d :: d in v.threads ==> d < v.created)
  }

  /** What holds between any two phases ... */
  ghost predicate Mid(s: State) {
    var t := s.conf.targetType;
    && OneTransport(s.phy) && Consistent(s.virt)
    && (s.standalone ==> !s.phy.open && Emulates(t))
    && (s.grace.pendingDestroy ==> !s.phy.open && Emulates(t))
    && (Live(s.virt).Present? ==> Emulates(t))
    && (t.Passthrough? ==> s.conf.sentinel)
    && (s.conf.nameRequested ==> Emulates(t) && !s.conf.typeRequested && !s.conf.backendRequested)
  }

  /** ... and at the head of the loop. */
  ghost predicate Inv(s: State) {
    Mid(s) && !s.conf.typeRequested && !s.conf.backendRequested && !s.conf.nameRequested
  }

  lemma ConsistentOf(s: State)
    requires Mid(s)
    ensures Consistent(s.virt)
  {
  }

  lemma CreateKeeps(v: Virtual, c: Creation)
    requires Consistent(v)
    ensures Consistent(Create(v, c))
    ensures Live(Create(v, c)).Present? ==> Live(v).Present? || Creates(v, c)
  {
  }

  lemma DestroyKeeps(v: Virtual)
    requires Consistent(v)
    ensures Consistent(Destroy(v)) && Live(Destroy(v)).Absent?
  {
  }

  lemma ScanKeepsInv(s: State, scan: Scan, c: Creation)
    requires Inv(s) && !s.phy.open && !s.standalone
    ensures Inv(AutoScan(s, scan, c))
  {
    hide Consistent, Create, Creates, Live;
    CreateKeeps(s.virt, c);
  }

  lemma HeadKeepsInv(s: State, i: Input)
    requires Inv(s)
    ensures Inv(Head(s, i))
  {
    hide AutoScan, Consistent, Live;
    var k := Kernel(s, i);
    if !k.standalone && !k.phy.open {
      ScanKeepsInv(k, i.scan, i.scanCreation);
    }
  }

  lemma CommandKeepsMid(s: State, i: Input)
    requires Inv(s)
    ensures Mid(Commanded(s, i))
  {
    hide Consistent, Create, Creates, Destroy, Live;
    CreateKeeps(s.virt, i.commandCreation);
    DestroyKeeps(s.virt);
  }

  lemma ReconfiguredKeepsMid(s: State, c: Creation)
    requires Mid(s)
    ensures Mid(Reconfigured(s, c))
    ensures !Reconfigured(s, c).conf.typeRequested && !Reconfigured(s, c).conf.backendRequested
  {
    hide Consistent, Create, Creates, Destroy, Live;
    DestroyKeeps(s.virt);
    var v := Destroy(s.virt).(backend := s.conf.pendingBackend);
    EmptyIsConsistent(Destroy(s.virt), s.conf.pendingBackend);
    CreateKeeps(v, c);
  }

  lemma EmptyIsConsistent(v: Virtual, b: Backend)
    requires Consistent(v) && Live(v).Absent?
    ensures Consistent(v.(backend := b)) && Live(v.(backend := b)).Absent?
  {
  }

  lemma RenamedKeepsMid(s: State, configured: bool, c: Creation)
    requires Mid(s) && !s.conf.typeRequested && !s.conf.backendRequested
    ensures Inv(Renamed(s, configured, c))
  {
    hide Consistent, Create, Creates, Destroy, Live;
    DestroyKeeps(s.virt);
    CreateKeeps(Destroy(s.virt), c);
  }

  lemma CloseUhidKeeps(v: Virtual)
    requires Consistent(v)
    ensures Consistent(CloseUhid(v)) && (Live(CloseUhid(v)).Present? ==> Live(v).Present?)
  {
  }

  lemma TailKeepsInv(s: State, i: Input, phyPolled: bool, uhidPolled: bool)
    requires Mid(s)
    ensures Inv(Tail(s, i, phyPolled, uhidPolled))
  {
    hide Reconfigured, Renamed, PhysicalDropped, GraceChecked, UhidHandled, Mid;
    ReconfiguredKeepsMid(s, i.commandCreation);
    RenamedKeepsMid(Reconfigured(s, i.commandCreation), i.renameConfigured, i.renameCreation);
    var r := Renamed(Reconfigured(s, i.commandCreation), i.renameConfigured, i.renameCreation);
    LastPhasesKeepInv(r, i);
    LastPhasesKeepInv(GraceChecked(r, i.later), i);
  }

  lemma LastPhasesKeepInv(s: State, i: Input)
    requires Inv(s)
    ensures Inv(PhysicalDropped(s, i.dropConfigured, i.later))
    ensures Inv(GraceChecked(s, i.later))
    ensures Inv(UhidHandled(s, i.uhidEvent))
  {
    hide Consistent, Destroy, CloseUhid, Live;
    DestroyKeeps(s.virt);
    CloseUhidKeeps(s.virt);
  }

  lemma InvHolds(s: State, i: Input)
    requires Inv(s)
    ensures Inv(Iterate(s, i))
  {
    hide Head, Commanded, Tail, Mid;
    HeadKeepsInv(s, i);
    var h := Head(s, i);
    CommandKeepsMid(h, i);
    TailKeepsInv(Commanded(h, i), i, h.phy.open, UhidPolled(h.virt));
  }

  lemma {:induction false} InvHoldsAlways(s: State, inputs: seq<Input>)
    requires Inv(s)
    ensures Inv(Run(s, inputs))
    decreases |inputs|
  {
    hide Inv, Iterate;
    if inputs != [] {
      InvHolds(s, inputs[0]);
      InvHoldsAlways(Iterate(s, inputs[0]), inputs[1..]);
    }
  }

  /** Whatever the configuration and whatever happens, at every head of the loop. */
  lemma StatesAreConsistent(t: ControllerType, ds4: Backend, dualSense: Backend, m: HideMethod, now: nat, inputs: seq<Input>)
    ensures Inv(Run(Start(t, ds4, dualSense, m, now), inputs))
  {
    InvHoldsAlways(Start(t, ds4, dualSense, m, now), inputs);
  }

  // ------------------------------------------------------------------- for the examples

  predicate NoRequest(conf: Settings) {
    !conf.typeRequested && !conf.backendRequested && !conf.nameRequested
  }

  /** With no command, hang-up, UHID event or expiry, an iteration is its head. */
  lemma HeadOnly(s: State, i: Input)
    requires i.poll == Ready(false) && i.command.Other? && i.uhidEvent.Quiet?
    requires var h := Head(s, i); NoRequest(h.conf) && !(h.grace.pendingDestroy && i.later >= h.grace.dropTime + GRACE)
    ensures Iterate(s, i) == Head(s, i)
  {
    hide Head;
  }

  /** While nothing is scanned for and no swap is due, the head changes nothing but the clock. */
  lemma TailOnly(s: State, i: Input)
    requires s.standalone || s.ignorePhysical || (s.phy.open && !s.phy.bluetooth)
    ensures Head(s, i) == Kernel(s, i)
  {
  }

  lemma NothingFound(s: State, i: Input)
    requires i.scan == Scan(Nothing, Nothing) && !s.phy.open
    ensures Head(s, i) == Kernel(s, i)
  {
  }
}

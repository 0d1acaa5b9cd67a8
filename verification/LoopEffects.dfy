// What one iteration of the daemon loop does to each of its variables, from the head of the loop
// to the next: exactly which events change it.  Each statement runs across all phases of the loop
// body, so it says as well which phases leave the variable alone.
module LoopEffects {
  import opened Controller
  import opened DaemonLoop
  import opened VirtualDevices
  import opened GraceWindow

  // ------------------------------------------------------------------------- the events

  /** A controller is found, opened, and kept: a device is there for it, or none is wanted. */
  predicate Connects(s: State, i: Input) {
    ScanOpens(s, i) && (!Emulates(s.conf.targetType) || s.grace.pendingDestroy || Creates(s.virt, i.scanCreation))
  }

  /** A hot-swap to USB begins. */
  predicate SwapGoes(s: State, i: Input) {
    && s.phy.open && s.phy.bluetooth && !s.standalone && !s.ignorePhysical
    && i.upgrade.usbFound && (s.phy.bpfTransport || i.upgrade.resolves)
  }

  /** A controller is connected when poll() is called. */
  predicate Polled(s: State, i: Input) {
    i.poll.Ready? && ((s.phy.open && !SwapDrops(s, i)) || Connects(s, i))
  }

  predicate HangsUp(s: State, i: Input) {
    Polled(s, i) && i.poll.hangUp
  }

  /** release-physical with a controller connected. */
  predicate LetsGo(s: State, i: Input) {
    Polled(s, i) && i.command.ReleasePhysical?
  }

  predicate AsksForType(s: State, i: Input) {
    i.poll.Ready? && i.command.SetType? && i.command.t != s.conf.targetType
  }

  /** set-backend for the type in use, asking for a backend it does not have yet. */
  predicate AsksForBackend(s: State, i: Input) {
    && i.poll.Ready? && i.command.SetBackend? && s.conf.targetType == (if i.command.ds4 then Ds4 else DualSense)
    && i.command.b != (if i.command.ds4 then s.conf.backendDs4 else s.conf.backendDualSense)
  }

  predicate Changes(s: State, i: Input) {
    AsksForType(s, i) || AsksForBackend(s, i)
  }

  /** create-virtual goes through. */
  predicate MakesVirtual(s: State, i: Input) {
    i.poll.Ready? && CreatesVirtual(Head(s, i), i)
  }

  predicate EndsVirtual(s: State, i: Input) {
    i.poll.Ready? && i.command.DestroyVirtual? && s.standalone
  }

  // --------------------------------------------------------------- the physical controller

  /** Whether the connection found goes through the unbind method. */
  predicate ViaUnbind(s: State, i: Input) {
    s.conf.hideMethod.Unbind? && !s.conf.targetType.Passthrough? && i.scan.hidBus.Pad? && i.scan.hidBus.opens
  }

  /** The connection a scan makes. */
  function FoundPhy(s: State, i: Input): Phy {
    if ViaUnbind(s, i) then
      var b := i.scan.hidBus.bluetooth; Phy(true, i.scan.hidBus.name, b, !b, b)
    else if i.scan.hidraw.Pad? then Phy(true, i.scan.hidraw.name, i.scan.hidraw.bluetooth, false, false)
    else s.phy
  }

  /** Without a connection nothing of one is left. */
  ghost predicate Blank(p: Phy) {
    !p.open ==> p.name == 0 && !p.unbindTransport && !p.bpfTransport
  }

  // ------------------------------------------------------------------------ phase by phase

  lemma HeadEffects(s: State, i: Input)
    requires Inv(s) && Blank(s.phy)
    ensures var h := Head(s, i);
      && (h.phy.open <==> ((s.phy.open && !SwapDrops(s, i)) || Connects(s, i)))
      && (h.phy.open ==> h.phy == if s.phy.open then s.phy else FoundPhy(s, i))
      && Blank(h.phy)
      && h.standalone == s.standalone && h.ignorePhysical == s.ignorePhysical && h.conf == s.conf
      && (h.deviceOpen <==> s.deviceOpen && !(Connects(s, i) && !(Emulates(s.conf.targetType) && s.grace.pendingDestroy)))
  {
    hide Create, Creates, Configured, Consistent, Live, BeginGrace;
  }

  lemma HeadWindow(s: State, i: Input)
    requires Inv(s)
    ensures var g, n := s.grace, Head(s, i).grace;
      n == if SwapDrops(s, i) then BeginGrace(g, Emulates(s.conf.targetType) && Configured(s.virt, s.deviceOpen, i.upgrade.configured), i.now)
           else if ScanOpens(s, i) then g.(pendingDestroy := false) else g
  {
    hide Create, Creates, Configured, Consistent, Live, BeginGrace, OpenFound, UsesUnbind;
  }

  /** The parts of the state that the later phases treat alike. */
  lemma CommandEffects(s: State, i: Input)
    ensures var c, lets, ends := Commanded(s, i), i.command.ReleasePhysical? && s.phy.open, i.command.DestroyVirtual? && s.standalone;
      && c.phy == (if lets then Release(s.phy) else s.phy)
      && (c.standalone <==> CreatesVirtual(s, i) || (s.standalone && !ends))
      && (c.ignorePhysical <==> i.command.ReleasePhysical? || (s.ignorePhysical && !i.command.ResumePhysical?))
      && (c.deviceOpen <==> s.deviceOpen && !CreatesVirtual(s, i) && !ends && !lets)
      && c.grace == (if ends || lets then s.grace.(pendingDestroy := false) else s.grace)
      && c.conf == (if CreatesVirtual(s, i) then s.conf.(targetType := Kind(i.command.ds4)) else SettingsAfter(s.conf, i.command))
  {
    hide Create, Creates, Configured, Destroy, Release, Restore, Live;
  }

  predicate Requested(conf: Settings) {
    conf.typeRequested || conf.backendRequested
  }

  lemma ChangeEffects(s: State, c: Creation)
    ensures var r, wanted := Reconfigured(s, c), Requested(s.conf);
      && r.phy == (if wanted && s.phy.open then Release(s.phy) else s.phy)
      && (r.standalone <==> s.standalone && !(wanted && !Emulates(s.conf.pendingType)))
      && r.ignorePhysical == s.ignorePhysical
      && (r.deviceOpen <==> s.deviceOpen && !(Recreates(s) && Creates(Emptied(s), c)))
      && r.grace == (if wanted then s.grace.(pendingDestroy := false) else s.grace)
      && r.conf == (if wanted then
           s.conf.(targetType := s.conf.pendingType, typeRequested := false, backendRequested := false, sentinel := s.conf.pendingType.Passthrough?)
         else s.conf)
  {
    hide Create, Creates, Configured, Destroy, Release, Restore, Live;
  }

  lemma RenameEffects(s: State, configured: bool, c: Creation)
    ensures var n := Renamed(s, configured, c);
      && n.phy == s.phy && n.standalone == s.standalone && n.ignorePhysical == s.ignorePhysical && n.grace == s.grace
      && (n.deviceOpen <==> s.deviceOpen && !(Renames(s, configured) && Creates(Destroy(s.virt), c)))
      && n.conf == s.conf.(nameRequested := false)
  {
    hide Create, Creates, Configured, Destroy, Live;
  }

  lemma DropEffects(s: State, configured: bool, at: nat)
    ensures var n := PhysicalDropped(s, configured, at);
      && n.phy == Release(s.phy) && n.standalone == s.standalone && n.ignorePhysical == s.ignorePhysical
      && n.deviceOpen == s.deviceOpen && n.conf == s.conf && n.virt == s.virt
      && n.grace == BeginGrace(s.grace, Emulates(s.conf.targetType) && Configured(s.virt, s.deviceOpen, configured), at)
  {
    hide Release, Restore, Configured, BeginGrace;
  }

  lemma LastEffects(s: State, i: Input, uhidPolled: bool)
    ensures var g := GraceChecked(s, i.later); var n := if uhidPolled then UhidHandled(g, i.uhidEvent) else g;
      && n.phy == s.phy && n.ignorePhysical == s.ignorePhysical && n.conf == s.conf
      && n.grace.pendingDestroy == (s.grace.pendingDestroy && !Expires(s, i.later))
      && n.grace.drops == s.grace.drops && n.grace.dropTime == s.grace.dropTime
      && (n.standalone <==> s.standalone && !(uhidPolled && i.uhidEvent.Dropped?))
      && (n.deviceOpen <==>
            if uhidPolled && g.virt.uhid.Present? && i.uhidEvent.Opened? then true
            else s.deviceOpen && !Expires(s, i.later) && !(uhidPolled && g.virt.uhid.Present? && i.uhidEvent.Closed?))
  {
    hide Destroy, CloseUhid, Live;
  }

  /** The states between the phases. */
  lemma Between(s: State, i: Input) returns (h: State, c: State, r: State, n: State)
    requires Inv(s) && Blank(s.phy)
    ensures h == Head(s, i) && c == Commanded(h, i) && r == Reconfigured(c, i.commandCreation)
    ensures n == Renamed(r, i.renameConfigured, i.renameCreation)
    ensures Inv(h) && Mid(c) && Mid(r) && Inv(n) && Blank(h.phy)
    ensures h.conf == s.conf && h.standalone == s.standalone && h.ignorePhysical == s.ignorePhysical
    ensures h.phy.open <==> ((s.phy.open && !SwapDrops(s, i)) || Connects(s, i))
    ensures Iterate(s, i) == if !i.poll.Ready? then h
                             else if h.phy.open && i.poll.hangUp then PhysicalDropped(n, i.dropConfigured, i.later)
                             else var g := GraceChecked(n, i.later); if UhidPolled(h.virt) then UhidHandled(g, i.uhidEvent) else g
  {
    hide Head, Commanded, Reconfigured, Renamed, PhysicalDropped, GraceChecked, UhidHandled, Mid, Blank;
    HeadEffects(s, i);
    HeadKeepsInv(s, i);
    h := Head(s, i);
    CommandKeepsMid(h, i);
    c := Commanded(h, i);
    var a, b := LastPhases(c, i, h.phy.open, UhidPolled(h.virt));
    r, n := a, b;
  }

  lemma RequestsIff(conf: Settings, command: Command)
    requires NoRequest(conf)
    ensures var n := SettingsAfter(conf, command);
      && (Requested(n) <==>
            || (command.SetType? && command.t != conf.targetType)
            || (command.SetBackend? && conf.targetType == (if command.ds4 then Ds4 else DualSense)
                && command.b != (if command.ds4 then conf.backendDs4 else conf.backendDualSense)))
      && n.targetType == conf.targetType && n.sentinel == conf.sentinel
      && n.pendingType == (if command.SetType? && command.t != conf.targetType then command.t else conf.pendingType)
  {
  }

  lemma SettingsEffects(conf: Settings, c: Command)
    ensures var n := SettingsAfter(conf, c);
      && n.backendDs4 == (if c.SetBackend? && c.ds4 then c.b else conf.backendDs4)
      && n.backendDualSense == (if c.SetBackend? && !c.ds4 then c.b else conf.backendDualSense)
      && n.hideMethod == (if c.SetHideMethod? && (c.m == HideMethod.Legacy || c.monitorWorks) then c.m else conf.hideMethod)
      && n.pendingBackend ==
           (if c.SetBackend? && conf.targetType == (if c.ds4 then Ds4 else DualSense)
               && c.b != (if c.ds4 then conf.backendDs4 else conf.backendDualSense) then c.b
            else if c.SetType? && c.t != conf.targetType && c.t == Ds4 then conf.backendDs4
            else if c.SetType? && c.t != conf.targetType && c.t == DualSense then conf.backendDualSense
            else conf.pendingBackend)
      && (n.nameRequested <==> conf.nameRequested || (c.SetName? && c.changed && conf.targetType == (if c.ds4 then Ds4 else DualSense)))
  {
  }

  lemma RequestedIff(s: State, i: Input)
    requires Inv(s) && Blank(s.phy) && i.poll.Ready?
    ensures Requested(Commanded(Head(s, i), i).conf) <==> Changes(s, i)
  {
    hide Head, Commanded, SettingsAfter, Mid;
    var h, c, r, n := Between(s, i);
    CommandEffects(h, i);
    RequestsIff(s.conf, i.command);
  }

  // ------------------------------------------------------------------------ the connection

  lemma ReleasedIsBlank(p: Phy)
    requires OneTransport(p)
    ensures Blank(Release(p)) && !Release(p).open
  {
  }

  /** A controller is connected after an iteration exactly if it was, or a scan connected one, and
      neither a hot-swap took it nor did it hang up, nor was it released, nor was the type or the
      backend changed.  While it is connected nothing about it changes, and without a connection
      nothing is left of one. */
  lemma ConnectionIff(s: State, i: Input)
    requires Inv(s) && Blank(s.phy)
    ensures var n := Iterate(s, i);
      && (n.phy.open <==>
            && ((s.phy.open && !SwapDrops(s, i)) || Connects(s, i))
            && !(i.poll.Ready? && (i.poll.hangUp || i.command.ReleasePhysical? || Changes(s, i))))
      && (n.phy.open ==> n.phy == if s.phy.open then s.phy else FoundPhy(s, i))
      && Blank(n.phy)
  {
    hide Head, Commanded, Reconfigured, Renamed, PhysicalDropped, GraceChecked, UhidHandled, Release, Iterate, Consistent, Blank;
    hide SwapDrops, Connects, Changes, FoundPhy, Requested, Live;
    HeadEffects(s, i);
    var h, c, r, n := Between(s, i);
    CommandEffects(h, i);
    ChangeEffects(c, i.commandCreation);
    RenameEffects(r, i.renameConfigured, i.renameCreation);
    DropEffects(n, i.dropConfigured, i.later);
    LastEffects(n, i, UhidPolled(h.virt));
    ReleasedIsBlank(h.phy);
    ReleasedIsBlank(c.phy);
    ReleasedIsBlank(n.phy);
    if i.poll.Ready? {
      RequestedIff(s, i);
    }
  }

  // -------------------------------------------------------------------------- the settings

  /** The type is that of the last create-virtual or set-type that went through; a set-backend
      takes the pending type along. */
  lemma TypeIs(s: State, i: Input)
    requires Inv(s) && Blank(s.phy)
    ensures var n := Iterate(s, i);
      && n.conf.targetType == (if MakesVirtual(s, i) then (if i.command.ds4 then Ds4 else DualSense)
                               else if AsksForType(s, i) then i.command.t
                               else if AsksForBackend(s, i) then s.conf.pendingType else s.conf.targetType)
      && n.conf.pendingType == (if AsksForType(s, i) then i.command.t else s.conf.pendingType)
      && (n.conf.sentinel <==> if Changes(s, i) then n.conf.targetType == Passthrough else s.conf.sentinel)
  {
    hide Head, Commanded, Reconfigured, Renamed, PhysicalDropped, GraceChecked, UhidHandled, Iterate, Mid, SettingsAfter, Live;
    var h, c, r, n := Between(s, i);
    CommandEffects(h, i);
    RequestsIff(s.conf, i.command);
    ChangeEffects(c, i.commandCreation);
    RenameEffects(r, i.renameConfigured, i.renameCreation);
    DropEffects(n, i.dropConfigured, i.later);
    LastEffects(n, i, UhidPolled(h.virt));
  }

  /** The other settings change by their own command only. */
  lemma SettingsAre(s: State, i: Input)
    requires Inv(s) && Blank(s.phy)
    ensures var n, c, ready := Iterate(s, i), i.command, i.poll.Ready?;
      && n.conf.backendDs4 == (if ready && c.SetBackend? && c.ds4 then c.b else s.conf.backendDs4)
      && n.conf.backendDualSense == (if ready && c.SetBackend? && !c.ds4 then c.b else s.conf.backendDualSense)
      && n.conf.hideMethod == (if ready && c.SetHideMethod? && (c.m == HideMethod.Legacy || c.monitorWorks) then c.m else s.conf.hideMethod)
      && n.conf.pendingBackend == (if AsksForBackend(s, i) then c.b
                                   else if AsksForType(s, i) && c.t == Ds4 then s.conf.backendDs4
                                   else if AsksForType(s, i) && c.t == DualSense then s.conf.backendDualSense
                                   else s.conf.pendingBackend)
  {
    hide Head, Commanded, Reconfigured, Renamed, PhysicalDropped, GraceChecked, UhidHandled, Iterate, Mid, SettingsAfter, Live;
    hide Creates, Configured, SwapDrops, Connects;
    var h, c, r, n := Between(s, i);
    CommandEffects(h, i);
    SettingsEffects(s.conf, i.command);
    ChangeEffects(c, i.commandCreation);
    RenameEffects(r, i.renameConfigured, i.renameCreation);
    DropEffects(n, i.dropConfigured, i.later);
    LastEffects(n, i, UhidPolled(h.virt));
  }

  // ----------------------------------------------------------------------------- the modes

  /** The UHID descriptor polled is lost. */
  predicate UhidDrops(s: State, i: Input) {
    i.poll.Ready? && !HangsUp(s, i) && UhidPolled(Head(s, i).virt) && i.uhidEvent.Dropped?
  }

  /** The virtual device stands alone exactly if create-virtual made it so and since then it was
      not destroyed, the type did not become one without a device, and UHID was not lost.
      Physical controllers are ignored from release-physical to resume-physical. */
  lemma ModesAre(s: State, i: Input)
    requires Inv(s) && Blank(s.phy)
    ensures var n := Iterate(s, i);
      && (n.standalone <==>
            && (s.standalone || MakesVirtual(s, i)) && !EndsVirtual(s, i)
            && !(Changes(s, i) && !Emulates(n.conf.targetType)) && !UhidDrops(s, i))
      && (n.ignorePhysical <==>
            if i.poll.Ready? && i.command.ReleasePhysical? then true
            else s.ignorePhysical && !(i.poll.Ready? && i.command.ResumePhysical?))
  {
    hide Head, Commanded, Reconfigured, Renamed, PhysicalDropped, GraceChecked, UhidHandled, Iterate, Mid, SettingsAfter, Live;
    hide SwapDrops, Connects, Create, Creates, UhidPolled, Emulates;
    TypeIs(s, i);
    var h, c, r, n := Between(s, i);
    CommandEffects(h, i);
    RequestsIff(s.conf, i.command);
    ChangeEffects(c, i.commandCreation);
    RenameEffects(r, i.renameConfigured, i.renameCreation);
    DropEffects(n, i.dropConfigured, i.later);
    LastEffects(n, i, UhidPolled(h.virt));
  }

  // ------------------------------------------------------------------------ the flag of UHID

  /** device_open is what UHID_OPEN and UHID_CLOSE last said, and false from the creation or the
      destruction of a device by command, connection or timer on. */
  lemma DeviceOpenIff(s: State, i: Input)
    requires Inv(s) && Blank(s.phy)
    ensures var h := Head(s, i);
      var c := Commanded(h, i);
      var r := Reconfigured(c, i.commandCreation);
      var n := Settled(s, i);
      var heard := !HangsUp(s, i) && UhidPolled(h.virt) && GraceChecked(n, i.later).virt.uhid.Present?;
      Iterate(s, i).deviceOpen <==>
        if i.poll.Ready? && heard && i.uhidEvent.Opened? then true
        else
          && s.deviceOpen && !(Connects(s, i) && !(Emulates(s.conf.targetType) && s.grace.pendingDestroy))
          && (i.poll.Ready? ==>
                && !MakesVirtual(s, i) && !EndsVirtual(s, i) && !LetsGo(s, i)
                && !(Recreates(c) && Creates(Emptied(c), i.commandCreation))
                && !(Renames(r, i.renameConfigured) && Creates(Destroy(r.virt), i.renameCreation))
                && (HangsUp(s, i) || !Expires(n, i.later)) && !(heard && i.uhidEvent.Closed?))
  {
    hide Head, Commanded, Reconfigured, Renamed, PhysicalDropped, GraceChecked, UhidHandled, Iterate, Mid, SettingsAfter, Live;
    hide SwapDrops, Connects, Create, Creates, CreatesVirtual, UhidPolled, Emulates, Recreates, Renames, Expires, Emptied, Destroy;
    HeadEffects(s, i);
    var h, c, r, n := Between(s, i);
    CommandEffects(h, i);
    ChangeEffects(c, i.commandCreation);
    RenameEffects(r, i.renameConfigured, i.renameCreation);
    DropEffects(n, i.dropConfigured, i.later);
    LastEffects(n, i, UhidPolled(h.virt));
  }

  // ----------------------------------------------------------------------- the grace window

  /** A host is using the emulated device. */
  predicate InUse(s: State, configured: bool) {
    && (s.conf.targetType == Ds4 || s.conf.targetType == DualSense)
    && if s.virt.backend == FunctionFs then s.virt.ffs.Present? && configured else s.deviceOpen
  }

  lemma InUseIs(s: State, configured: bool)
    ensures InUse(s, configured) <==> Emulates(s.conf.targetType) && Configured(s.virt, s.deviceOpen, configured)
  {
  }

  /** A window begins when the controller goes while its device is in use, and only then; it ends
      when a controller is opened, by destroy-virtual, release-physical or a change of type or
      backend, and when 300 s have passed.  Every loss of the controller is on record. */
  lemma WindowIff(s: State, i: Input)
    requires Inv(s) && Blank(s.phy)
    ensures var n, begins := Iterate(s, i), SwapDrops(s, i) && InUse(s, i.upgrade.configured);
      var from := if begins then i.now else s.grace.dropTime;
      && n.grace.drops == s.grace.drops + (if SwapDrops(s, i) then [i.now] else []) + (if HangsUp(s, i) then [i.later] else [])
      && n.grace.dropTime == (if HangsUp(s, i) && InUse(Settled(s, i), i.dropConfigured) then i.later else from)
      && (n.grace.pendingDestroy <==>
            if HangsUp(s, i) then InUse(Settled(s, i), i.dropConfigured)
            else
              && (begins || (s.grace.pendingDestroy && !ScanOpens(s, i)))
              && (i.poll.Ready? ==> !EndsVirtual(s, i) && !LetsGo(s, i) && !Changes(s, i) && i.later < from + 300_000))
  {
    hide Head, Commanded, Reconfigured, Renamed, PhysicalDropped, GraceChecked, UhidHandled, Iterate, SettingsAfter, Live, Consistent;
    hide Create, Creates, CreatesVirtual, UhidPolled, Recreates, Renames, Emptied, Destroy, Changes, ScanOpens, InUse, Configured;
    InUseIs(s, i.upgrade.configured);
    InUseIs(Settled(s, i), i.dropConfigured);
    HeadWindow(s, i);
    ScanOpensFirst(s, i);
    var h, c, r, n := Between(s, i);
    CommandEffects(h, i);
    ChangeEffects(c, i.commandCreation);
    RenameEffects(r, i.renameConfigured, i.renameCreation);
    DropEffects(n, i.dropConfigured, i.later);
    LastEffects(n, i, UhidPolled(h.virt));
    if i.poll.Ready? {
      RequestedIff(s, i);
    }
  }

  lemma ScanOpensFirst(s: State, i: Input)
    ensures ScanOpens(s, i) ==> !s.phy.open
    ensures Connects(s, i) ==> ScanOpens(s, i)
  {
  }

  // --------------------------------------------------------------------- the virtual device

  /** set-name for the type in use, with a new name, while the device is in use. */
  predicate RenamesDevice(s: State, i: Input) {
    var h := Head(s, i);
    && i.poll.Ready? && i.command.SetName? && i.command.changed
    && s.conf.targetType == (if i.command.ds4 then Ds4 else DualSense)
    && Configured(h.virt, h.deviceOpen, i.renameConfigured)
  }

  lemma RenamesIff(s: State, i: Input)
    requires Inv(s) && Blank(s.phy) && i.poll.Ready?
    ensures Renames(Reconfigured(Commanded(Head(s, i), i), i.commandCreation), i.renameConfigured) <==> RenamesDevice(s, i)
  {
    hide Head, Consistent, Live, Create, Creates, Destroy, Configured;
    var h, c, r, n := Between(s, i);
    SettingsEffects(h.conf, i.command);
  }

  predicate Has(v: Virtual) {
    Live(v).Present?
  }

  /** There is a device after a creation was attempted. */
  predicate Gives(v: Virtual, c: Creation) {
    Creates(v, c) || (Has(v) && !TakesDown(v, c))
  }

  lemma HeadVirt(s: State, i: Input)
    requires Inv(s)
    ensures Head(s, i).virt == if ScanNeedsDevice(s, i) then Create(s.virt, i.scanCreation) else s.virt
  {
    hide Create, Creates, Configured, Consistent, Live, BeginGrace, OpenFound, UsesUnbind, Release;
  }

  lemma CommandVirt(s: State, i: Input)
    ensures Commanded(s, i).virt ==
      if VirtualWanted(s, i) then Create(s.virt, i.commandCreation)
      else if (i.command.DestroyVirtual? && s.standalone) || (i.command.ReleasePhysical? && s.phy.open) then Destroy(s.virt)
      else s.virt
  {
    hide Create, Creates, Configured, Destroy, Release, Restore, Live, SettingsAfter;
  }

  lemma ChangeVirt(s: State, c: Creation)
    ensures Reconfigured(s, c).virt ==
      if !Requested(s.conf) then s.virt else if Recreates(s) then Create(Emptied(s), c) else Emptied(s)
  {
    hide Create, Creates, Destroy, Release, Restore, Live;
  }

  lemma RenameVirt(s: State, configured: bool, c: Creation)
    ensures Renamed(s, configured, c).virt == if Renames(s, configured) then Create(Destroy(s.virt), c) else s.virt
  {
    hide Create, Creates, Configured, Destroy, Live;
  }

  lemma LastVirt(s: State, i: Input, uhidPolled: bool)
    requires Consistent(s.virt)
    ensures var g := GraceChecked(s, i.later); var n := if uhidPolled then UhidHandled(g, i.uhidEvent) else g;
      && (Has(n.virt) <==> Has(s.virt) && !Expires(s, i.later) && !(uhidPolled && UhidLost(i.uhidEvent) && s.virt.uhid.Present?))
      && forall d :: InPlace(n.virt, d) <==>
           InPlace(s.virt, d) && !Expires(s, i.later) && !(uhidPolled && UhidLost(i.uhidEvent) && s.virt.uhid.Present?)
  {
  }

  lemma GivesIff(v: Virtual, c: Creation)
    requires Consistent(v)
    ensures Has(Create(v, c)) <==> Gives(v, c)
  {
    LiveAfterCreate(v, c);
    TakesDownCreatesNot(v, c);
  }

  lemma GivesFromNothing(v: Virtual, b: Backend, c: Creation)
    requires Consistent(v)
    ensures !Has(Destroy(v)) && !Has(Destroy(v).(backend := b))
    ensures Has(Create(Destroy(v), c)) <==> Creates(Destroy(v), c)
    ensures var e := Destroy(v).(backend := b); Has(Create(e, c)) <==> Creates(e, c)
  {
    DestroyKeeps(v);
    EmptyIsConsistent(Destroy(v), b);
    GivesIff(Destroy(v), c);
    GivesIff(Destroy(v).(backend := b), c);
  }

  /** Whether there is a virtual device after an iteration, event by event. */
  lemma DeviceThereIff(s: State, i: Input)
    requires Inv(s) && Blank(s.phy)
    ensures var h, n := Head(s, i), Settled(s, i);
      var c := Commanded(h, i);
      var scanned := if ScanNeedsDevice(s, i) then Gives(s.virt, i.scanCreation) else Has(s.virt);
      var commanded := if VirtualWanted(h, i) then Gives(h.virt, i.commandCreation)
                       else scanned && !EndsVirtual(s, i) && !LetsGo(s, i);
      var changed := if Changes(s, i) then Recreates(c) && Creates(Emptied(c), i.commandCreation) else commanded;
      var settled := if RenamesDevice(s, i) then Creates(Destroy(h.virt), i.renameCreation) else changed;
      Has(Iterate(s, i).virt) <==>
        if !i.poll.Ready? then scanned
        else if HangsUp(s, i) then settled
        else settled && !Expires(n, i.later) && !(UhidPolled(h.virt) && UhidLost(i.uhidEvent) && n.virt.uhid.Present?)
  {
    hide Head, Commanded, Reconfigured, Renamed, PhysicalDropped, GraceChecked, UhidHandled, Iterate, SettingsAfter, Live, Mid;
    hide Create, Creates, Gives, Has, UhidPolled, Recreates, Renames, Destroy, Changes, SwapDrops, Connects, Expires, UhidLost;
    hide ScanNeedsDevice, VirtualWanted, Requested, RenamesDevice;
    var h, c, r, n := Between(s, i);
    HeadVirt(s, i);
    ConsistentOf(s);
    GivesIff(s.virt, i.scanCreation);
    if i.poll.Ready? {
      CommandVirt(h, i);
      ConsistentOf(h);
      GivesIff(h.virt, i.commandCreation);
      GivesFromNothing(h.virt, h.virt.backend, i.renameCreation);
      RequestedIff(s, i);
      ConsistentOf(c);
      ChangeVirt(c, i.commandCreation);
      GivesFromNothing(c.virt, c.conf.pendingBackend, i.commandCreation);
      RenamesIff(s, i);
      RenameVirt(r, i.renameConfigured, i.renameCreation);
      ConsistentOf(r);
      GivesFromNothing(r.virt, r.virt.backend, i.renameCreation);
      if RenamesDevice(s, i) {
        OnlyTheName(s, i);
      }
      ConsistentOf(n);
      DropEffects(n, i.dropConfigured, i.later);
      LastVirt(n, i, UhidPolled(h.virt));
    }
  }

  /** A change of name comes alone. */
  lemma OnlyTheName(s: State, i: Input)
    requires Inv(s) && RenamesDevice(s, i)
    ensures var h := Head(s, i); Reconfigured(Commanded(h, i), i.commandCreation).virt == h.virt
  {
    hide Head, Consistent, Live, Create, Creates, Destroy, Configured;
    HeadKeepsInv(s, i);
    var h := Head(s, i);
    SettingsEffects(h.conf, i.command);
  }

  /** A creation is attempted that takes the place of whatever device there is. */
  predicate Touches(v: Virtual, c: Creation) {
    v.backend.FunctionFs? || c.uhidOpens
  }

  lemma LiveIsNumbered(v: Virtual, d: nat)
    requires Consistent(v) && InPlace(v, d)
    ensures d < v.created
  {
  }

  lemma NothingIsLeft(v: Virtual, b: Backend, c: Creation, d: nat)
    requires Consistent(v) && d < v.created
    ensures !InPlace(Destroy(v), d) && !InPlace(Create(Destroy(v), c), d) && d < Destroy(v).created
    ensures var e := Destroy(v).(backend := b); !InPlace(e, d) && !InPlace(Create(e, c), d) && d < e.created
  {
    DestroyEmpties(v, c, d);
    DestroyKeeps(v);
    EmptyIsConsistent(Destroy(v), b);
    CreateReplacesIff(Destroy(v).(backend := b), c, d);
  }

  /** The backend in use: the one asked for last, or UHID once a FunctionFS creation failed. */
  lemma CreateBackend(v: Virtual, c: Creation)
    ensures Create(v, c).backend == if c.ffsWorks then v.backend else Uhid
    ensures Destroy(v).backend == v.backend && CloseUhid(v).backend == v.backend
  {
  }

  lemma BackendIs(s: State, i: Input)
    requires Inv(s) && Blank(s.phy)
    ensures var h := Head(s, i);
      var n, c := Iterate(s, i), Commanded(h, i);
      var falls := (ScanNeedsDevice(s, i) && !i.scanCreation.ffsWorks) || (i.poll.Ready? && VirtualWanted(h, i) && !i.commandCreation.ffsWorks);
      var recreateFails := Changes(s, i) && Recreates(c) && !i.commandCreation.ffsWorks;
      n.virt.backend ==
        if recreateFails || (RenamesDevice(s, i) && !i.renameCreation.ffsWorks) then Uhid
        else if Changes(s, i) then n.conf.pendingBackend
        else if falls then Uhid else s.virt.backend
  {
    hide Head, Commanded, Reconfigured, Renamed, PhysicalDropped, GraceChecked, UhidHandled, Iterate, SettingsAfter, Live, Mid;
    hide Create, Creates, UhidPolled, Recreates, Renames, Destroy, Changes, SwapDrops, Connects, Expires, CloseUhid;
    hide ScanNeedsDevice, VirtualWanted, Requested, RenamesDevice, Configured;
    var h, c, r, n := Between(s, i);
    HeadVirt(s, i);
    OnlyWhenPolled(s, i);
    CreateBackend(s.virt, i.scanCreation);
    if i.poll.Ready? {
      CommandVirt(h, i);
      CreateBackend(h.virt, i.commandCreation);
      RequestedIff(s, i);
      ChangeVirt(c, i.commandCreation);
      ChangeEffects(c, i.commandCreation);
      CreateBackend(c.virt, i.commandCreation);
      CreateBackend(Emptied(c), i.commandCreation);
      RenamesIff(s, i);
      RenameVirt(r, i.renameConfigured, i.renameCreation);
      RenameEffects(r, i.renameConfigured, i.renameCreation);
      CreateBackend(r.virt, i.renameCreation);
      CreateBackend(Destroy(r.virt), i.renameCreation);
      DropEffects(n, i.dropConfigured, i.later);
      LastEffects(n, i, UhidPolled(h.virt));
      LastBackend(n, i);
    }
  }

  lemma LastBackend(s: State, i: Input)
    ensures GraceChecked(s, i.later).virt.backend == s.virt.backend
    ensures UhidHandled(GraceChecked(s, i.later), i.uhidEvent).virt.backend == s.virt.backend
  {
  }

  lemma OnlyWhenPolled(s: State, i: Input)
    ensures Changes(s, i) || RenamesDevice(s, i) ==> i.poll.Ready?
  {
  }

  /** A device stays in place through an iteration exactly if no creation takes its place, it is
      not destroyed by command, by a change of type, backend or name or by the timer, and UHID is
      not lost. */
  lemma DeviceStaysIff(s: State, i: Input, d: nat)
    requires Inv(s) && Blank(s.phy) && InPlace(s.virt, d)
    ensures var h, n := Head(s, i), Settled(s, i);
      InPlace(Iterate(s, i).virt, d) <==>
        && !(ScanNeedsDevice(s, i) && Touches(s.virt, i.scanCreation))
        && (i.poll.Ready? ==>
              && !(VirtualWanted(h, i) && Touches(h.virt, i.commandCreation))
              && !EndsVirtual(s, i) && !LetsGo(s, i) && !Changes(s, i) && !RenamesDevice(s, i)
              && (HangsUp(s, i) || (!Expires(n, i.later) && !(UhidPolled(h.virt) && UhidLost(i.uhidEvent)))))
  {
    hide Head, Commanded, Reconfigured, Renamed, PhysicalDropped, GraceChecked, UhidHandled, Iterate, SettingsAfter, Live, Mid;
    hide Create, Creates, InPlace, UhidPolled, Recreates, Renames, Destroy, Changes, SwapDrops, Connects, Expires, UhidLost;
    hide ScanNeedsDevice, VirtualWanted, Requested, RenamesDevice, Touches;
    var h, c, r, n := Between(s, i);
    HeadVirt(s, i);
    ConsistentOf(s);
    LiveIsNumbered(s.virt, d);
    StepKeepsOut(s.virt, i.scanCreation, d);
    HeadKeepsIds(s, i, d);
    if i.poll.Ready? {
      CommandVirt(h, i);
      ConsistentOf(h);
      StepKeepsOut(h.virt, i.commandCreation, d);
      NothingIsLeft(h.virt, h.virt.backend, i.renameCreation, d);
      RequestedIff(s, i);
      ConsistentOf(c);
      ChangeVirt(c, i.commandCreation);
      CommandKeepsIds(h, i, d);
      NothingIsLeft(c.virt, c.conf.pendingBackend, i.commandCreation, d);
      RenamesIff(s, i);
      RenameVirt(r, i.renameConfigured, i.renameCreation);
      ConsistentOf(r);
      ChangeKeepsIds(c, i, d);
      NothingIsLeft(r.virt, r.virt.backend, i.renameCreation, d);
      ConsistentOf(n);
      DropEffects(n, i.dropConfigured, i.later);
      LastVirt(n, i, UhidPolled(h.virt));
      PolledIsThere(h.virt);
      WantedByCommand(h, i);
    }
  }

  /** Whether `d` is in place after a creation, be it before or not. */
  lemma StepKeepsOut(v: Virtual, c: Creation, d: nat)
    requires Consistent(v) && d < v.created
    ensures InPlace(Create(v, c), d) <==> InPlace(v, d) && !Touches(v, c)
    ensures d < Create(v, c).created && (!Touches(v, c) ==> Create(v, c) == v)
  {
    CreateReplacesIff(v, c, d);
  }

  lemma HeadKeepsIds(s: State, i: Input, d: nat)
    requires Inv(s) && d < s.virt.created
    ensures d < Head(s, i).virt.created
  {
    hide Create;
    HeadVirt(s, i);
    ConsistentOf(s);
    StepKeepsOut(s.virt, i.scanCreation, d);
  }

  lemma CommandKeepsIds(h: State, i: Input, d: nat)
    requires Inv(h) && d < h.virt.created
    ensures d < Commanded(h, i).virt.created
  {
    hide Create, Destroy;
    CommandVirt(h, i);
    ConsistentOf(h);
    StepKeepsOut(h.virt, i.commandCreation, d);
    NothingIsLeft(h.virt, h.virt.backend, i.commandCreation, d);
  }

  lemma ChangeKeepsIds(c: State, i: Input, d: nat)
    requires Mid(c) && d < c.virt.created
    ensures d < Reconfigured(c, i.commandCreation).virt.created
  {
    hide Create, Destroy;
    ChangeVirt(c, i.commandCreation);
    ConsistentOf(c);
    NothingIsLeft(c.virt, c.conf.pendingBackend, i.commandCreation, d);
    DestroyKeeps(c.virt);
    EmptyIsConsistent(Destroy(c.virt), c.conf.pendingBackend);
    StepKeepsOut(Emptied(c), i.commandCreation, d);
  }

  lemma WantedByCommand(h: State, i: Input)
    ensures VirtualWanted(h, i) ==> i.command.CreateVirtual?
  {
  }

  lemma PolledIsThere(v: Virtual)
    ensures UhidPolled(v) ==> v.uhid.Present?
  {
  }

  // ---------------------------------------------------------------------- start and shutdown

  /** The first controller gets a device of the configured type under that type's backend, or
      under UHID if FunctionFS fails; hidden from others unless the type is none. */
  lemma FirstDevice(t: ControllerType, ds4: Backend, dualSense: Backend, m: HideMethod, now: nat, i: Input)
    requires Connects(Start(t, ds4, dualSense, m, now), i) && i.scanCreation.uhidOpens && i.scanCreation.uhidWrites
    ensures var n := Head(Start(t, ds4, dualSense, m, now), i);
      && n.phy.open && n.conf.targetType == t && (n.conf.sentinel <==> t == Passthrough)
      && n.conf.backendDs4 == ds4 && n.conf.backendDualSense == dualSense && n.conf.hideMethod == m
      && (n.phy.unbindTransport || n.phy.bpfTransport ==> m == HideMethod.Unbind && t != Passthrough)
      && var emulated, gadget := t == Ds4 || t == DualSense, (if t == Ds4 then ds4 else dualSense) == FunctionFs && i.scanCreation.ffsWorks;
         n.virt.uhid.Present? == (emulated && !gadget) && n.virt.ffs.Present? == (emulated && gadget)
  {
  }

  /** And if create-virtual comes first, its device is under that backend too, whatever the type. */
  lemma FirstVirtual(t: ControllerType, ds4: Backend, dualSense: Backend, m: HideMethod, now: nat, i: Input)
    requires !ScanOpens(Start(t, ds4, dualSense, m, now), i) && i.command.CreateVirtual?
    requires i.commandCreation.uhidOpens && i.commandCreation.uhidWrites
    ensures var n := Commanded(Head(Start(t, ds4, dualSense, m, now), i), i);
      var gadget := (if t == Ds4 then ds4 else dualSense) == FunctionFs && i.commandCreation.ffsWorks;
      && n.standalone && n.conf.targetType == (if i.command.ds4 then Ds4 else DualSense)
      && n.virt.uhid.Present? == !gadget && n.virt.ffs.Present? == gadget
  {
  }

  /** At shutdown the daemon takes down every device it knows of, with its threads, lets the
      controller go and hands back what it remembers. */
  lemma ShutdownLeaves(s: State)
    requires Inv(s)
    ensures var e := Shutdown(s);
      && !e.phy.open && !Has(e.virt) && e.bt.suppressed == Absent && e.bt.unbound == s.bt.unbound - Ids(s.bt.suppressed)
      && e.virt.existing == Orphans(s.virt) && e.virt.threads == s.virt.threads - Ids(s.virt.ffs)
  {
  }
}

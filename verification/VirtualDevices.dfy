// How many virtual devices there are.  The daemon keeps track of one; creating a device over a
// UHID one loses track of that one, and from then on two can exist at once.
module VirtualDevices {
  import opened Controller
  import opened DaemonLoop

  /** The devices the daemon no longer knows of. */
  function Orphans(v: Virtual): set<nat> {
    v.existing - Ids(Live(v))
  }

  /** There is at most one virtual device. */
  ghost predicate AtMostOne(v: Virtual) {
    forall a, b :: a in v.existing && b in v.existing ==> a == b
  }

  lemma AtMostOneIsACount(v: Virtual)
    ensures AtMostOne(v) <==> |v.existing| <= 1
  {
    if a :| a in v.existing {
      if |v.existing| > 1 {
        assert |v.existing - {a}| > 0;
        var b :| b in v.existing - {a};
      } else {
        assert |v.existing - {a}| == 0;
        assert v.existing == {a};
      }
    }
  }

  // --------------------------------------------------------------- when a device is created

  /** The scan opens a controller that needs a device. */
  predicate ScanNeedsDevice(s: State, i: Input) {
    && !s.standalone && !s.ignorePhysical && !s.phy.open
    && OpenFound(s.phy, UsesUnbind(s.conf, i.scan), i.scan).open
    && Emulates(s.conf.targetType) && !s.grace.pendingDestroy
  }

  /** create-virtual is not refused. */
  predicate VirtualWanted(h: State, i: Input) {
    i.command.CreateVirtual? && !h.phy.open && !h.standalone && !Configured(h.virt, h.deviceOpen, i.commandConfigured)
  }

  /** A type or backend change brings the standalone device back. */
  predicate Recreates(s: State) {
    (s.conf.typeRequested || s.conf.backendRequested) && Emulates(s.conf.pendingType) && !s.phy.open && s.standalone
  }

  /** A name change replaces the device. */
  predicate Renames(s: State, configured: bool) {
    s.conf.nameRequested && Configured(s.virt, s.deviceOpen, configured)
  }

  function Emptied(s: State): Virtual {
    Destroy(s.virt).(backend := s.conf.pendingBackend)
  }

  // ------------------------------------------------------------------------------- orphans

  lemma OrphansAfterCreate(v: Virtual, c: Creation)
    requires Consistent(v)
    ensures Orphans(Create(v, c)) == Orphans(v) + if c.uhidOpens then Ids(v.uhid) else {}
  {
  }

  lemma OrphansAfterDestroy(v: Virtual, b: Backend)
    requires Consistent(v)
    ensures Orphans(Destroy(v)) == Orphans(v) && Orphans(Destroy(v).(backend := b)) == Orphans(v)
    ensures Orphans(CloseUhid(v)) == Orphans(v)
  {
  }

  lemma HeadOrphans(s: State, i: Input)
    requires Inv(s)
    ensures Orphans(Head(s, i).virt) ==
      Orphans(s.virt) + if ScanNeedsDevice(s, i) && i.scanCreation.uhidOpens then Ids(s.virt.uhid) else {}
  {
    hide Create, Creates, OpenFound, Release, Configured, Consistent, Orphans;
    OrphansAfterCreate(s.virt, i.scanCreation);
  }

  lemma CommandOrphans(s: State, i: Input)
    requires Inv(s)
    ensures Orphans(Commanded(s, i).virt) ==
      Orphans(s.virt) + if VirtualWanted(s, i) && i.commandCreation.uhidOpens then Ids(s.virt.uhid) else {}
  {
    hide Create, Creates, Destroy, Configured, Consistent, Orphans, SettingsAfter;
    OrphansAfterCreate(s.virt, i.commandCreation);
    OrphansAfterDestroy(s.virt, Uhid);
  }

  lemma RecreateOrphans(v: Virtual, b: Backend, c: Creation)
    requires Consistent(v)
    ensures Orphans(Create(Destroy(v).(backend := b), c)) == Orphans(v)
    ensures Orphans(Create(Destroy(v), c)) == Orphans(v)
  {
    hide Create, Orphans;
    DestroyKeeps(v);
    OrphansAfterDestroy(v, b);
    EmptyIsConsistent(Destroy(v), b);
    OrphansAfterCreate(Destroy(v).(backend := b), c);
    OrphansAfterCreate(Destroy(v), c);
  }

  lemma ChangeOrphans(s: State, i: Input)
    requires Mid(s)
    ensures Orphans(Reconfigured(s, i.commandCreation).virt) == Orphans(s.virt)
    ensures Orphans(Renamed(s, i.renameConfigured, i.renameCreation).virt) == Orphans(s.virt)
  {
    hide Create, Creates, Destroy, Consistent, Live, Orphans, Configured;
    OrphansAfterDestroy(s.virt, s.conf.pendingBackend);
    RecreateOrphans(s.virt, s.conf.pendingBackend, i.commandCreation);
    RecreateOrphans(s.virt, s.conf.pendingBackend, i.renameCreation);
  }

  /** The last phases only take devices away, and never an orphan. */
  lemma LastPhases(s: State, i: Input, phyPolled: bool, uhidPolled: bool) returns (r: State, n: State)
    requires Mid(s)
    ensures r == Reconfigured(s, i.commandCreation) && n == Renamed(r, i.renameConfigured, i.renameCreation)
    ensures Mid(r) && Inv(n)
    ensures var e := Tail(s, i, phyPolled, uhidPolled);
      Orphans(r.virt) == Orphans(n.virt) == Orphans(s.virt) && Orphans(e.virt) == Orphans(s.virt) && e.virt.existing <= n.virt.existing
  {
    hide Reconfigured, Renamed, Consistent, Destroy, CloseUhid, Live, Configured, Orphans;
    r := Reconfigured(s, i.commandCreation);
    n := Renamed(r, i.renameConfigured, i.renameCreation);
    ReconfiguredKeepsMid(s, i.commandCreation);
    ChangeOrphans(s, i);
    RenamedKeepsMid(r, i.renameConfigured, i.renameCreation);
    ChangeOrphans(r, i);
    DestroyKeeps(n.virt);
    OrphansAfterDestroy(n.virt, Uhid);
    OrphansAfterDestroy(GraceChecked(n, i.later).virt, Uhid);
    DestroyShrinks(n.virt);
    DestroyShrinks(GraceChecked(n, i.later).virt);
  }

  lemma DestroyShrinks(v: Virtual)
    ensures Destroy(v).existing <= v.existing && CloseUhid(v).existing <= v.existing
  {
  }

  /** A creation is attempted over a UHID device, which is opened anew. */
  predicate OrphansDevice(s: State, i: Input) {
    var h := Head(s, i);
    || (ScanNeedsDevice(s, i) && i.scanCreation.uhidOpens && s.virt.uhid.Present?)
    || (i.poll.Ready? && VirtualWanted(h, i) && i.commandCreation.uhidOpens && h.virt.uhid.Present?)
  }

  /** An iteration loses track of a device exactly when it opens /dev/uhid for a new one -- for a
      returning controller whose device nobody waited with, or for create-virtual -- over a UHID
      device that is still there.  An orphan is never found again. */
  lemma OrphanLeftIff(s: State, i: Input)
    requires Inv(s)
    ensures Orphans(Iterate(s, i).virt) == {} <==> Orphans(s.virt) == {} && !OrphansDevice(s, i)
    ensures Orphans(s.virt) <= Orphans(Iterate(s, i).virt)
  {
    hide Head, Commanded, Tail, Orphans, Mid, ScanNeedsDevice, VirtualWanted;
    HeadOrphans(s, i);
    HeadKeepsInv(s, i);
    var h := Head(s, i);
    CommandOrphans(h, i);
    CommandKeepsMid(h, i);
    var r, n := LastPhases(Commanded(h, i), i, h.phy.open, UhidPolled(h.virt));
  }

  ghost predicate NeverOrphans(s: State, inputs: seq<Input>)
    decreases |inputs|
  {
    inputs == [] || (!OrphansDevice(s, inputs[0]) && NeverOrphans(Iterate(s, inputs[0]), inputs[1..]))
  }

  /** Over a whole run: the daemon knows of every device there is, hence of the only one, if and
      only if no iteration orphaned one. */
  lemma {:induction false} EveryDeviceIsKnownIff(s: State, inputs: seq<Input>)
    requires Inv(s)
    ensures Orphans(Run(s, inputs).virt) == {} <==> Orphans(s.virt) == {} && NeverOrphans(s, inputs)
    decreases |inputs|
  {
    hide Inv, Iterate, Orphans, OrphansDevice;
    if inputs != [] {
      OrphanLeftIff(s, inputs[0]);
      InvHolds(s, inputs[0]);
      EveryDeviceIsKnownIff(Iterate(s, inputs[0]), inputs[1..]);
    }
  }

  // --------------------------------------------------------------------------- two at once

  /** A creation succeeds while something exists that it does not take down itself. */
  predicate CreatesBeside(v: Virtual, c: Creation) {
    Creates(v, c) && v.existing - Ids(v.ffs) != {}
  }

  lemma CreateCrowdsIff(v: Virtual, c: Creation)
    requires Consistent(v) && AtMostOne(v)
    ensures !AtMostOne(Create(v, c)) <==> CreatesBeside(v, c)
  {
    var e := Create(v, c);
    if CreatesBeside(v, c) {
      var x :| x in v.existing - Ids(v.ffs);
      assert x in e.existing && v.created in e.existing && x < v.created;
    }
  }

  lemma SubsetIsNoCrowd(v: Virtual, w: Virtual)
    requires AtMostOne(v) && w.existing <= v.existing
    ensures AtMostOne(w)
  {
  }

  /** The four places where a device is created, each beside another. */
  predicate Crowds(s: State, i: Input) {
    var h := Head(s, i);
    var c := Commanded(h, i);
    var r := Reconfigured(c, i.commandCreation);
    || (ScanNeedsDevice(s, i) && CreatesBeside(s.virt, i.scanCreation))
    || (i.poll.Ready? && VirtualWanted(h, i) && CreatesBeside(h.virt, i.commandCreation))
    || (i.poll.Ready? && Recreates(c) && CreatesBeside(Emptied(c), i.commandCreation))
    || (i.poll.Ready? && Renames(r, i.renameConfigured) && CreatesBeside(Destroy(r.virt), i.renameCreation))
  }

  /** At some point of the iteration two devices exist. */
  ghost predicate TwoAtOnce(s: State, i: Input) {
    var h := Head(s, i);
    var c := Commanded(h, i);
    var r := Reconfigured(c, i.commandCreation);
    var n := Renamed(r, i.renameConfigured, i.renameCreation);
    || !AtMostOne(h.virt)
    || (i.poll.Ready? && !(AtMostOne(c.virt) && AtMostOne(r.virt) && AtMostOne(n.virt) && AtMostOne(Iterate(s, i).virt)))
  }

  lemma HeadCrowdsIff(s: State, i: Input)
    requires Inv(s) && AtMostOne(s.virt)
    ensures !AtMostOne(Head(s, i).virt) <==> ScanNeedsDevice(s, i) && CreatesBeside(s.virt, i.scanCreation)
    ensures !AtMostOne(Head(s, i).virt) ==> Head(s, i).phy.open
  {
    hide Create, OpenFound, Release, Configured, Consistent, AtMostOne;
    CreateCrowdsIff(s.virt, i.scanCreation);
  }

  lemma CommandCrowdsIff(s: State, i: Input)
    requires Inv(s) && AtMostOne(s.virt)
    ensures !AtMostOne(Commanded(s, i).virt) <==> VirtualWanted(s, i) && CreatesBeside(s.virt, i.commandCreation)
  {
    hide Create, Destroy, Configured, Consistent, AtMostOne, SettingsAfter;
    CreateCrowdsIff(s.virt, i.commandCreation);
    DestroyShrinks(s.virt);
    SubsetIsNoCrowd(s.virt, Destroy(s.virt));
  }

  lemma ReconfiguredCrowdsIff(s: State, c: Creation)
    requires Mid(s) && AtMostOne(s.virt)
    ensures !AtMostOne(Reconfigured(s, c).virt) <==> Recreates(s) && CreatesBeside(Emptied(s), c)
  {
    hide Create, Creates, Destroy, Consistent, AtMostOne, Live, CreatesBeside;
    DestroyKeeps(s.virt);
    DestroyShrinks(s.virt);
    EmptyIsConsistent(Destroy(s.virt), s.conf.pendingBackend);
    SubsetIsNoCrowd(s.virt, Emptied(s));
    CreateCrowdsIff(Emptied(s), c);
  }

  lemma RenamedCrowdsIff(s: State, configured: bool, c: Creation)
    requires Mid(s) && AtMostOne(s.virt)
    ensures !AtMostOne(Renamed(s, configured, c).virt) <==> Renames(s, configured) && CreatesBeside(Destroy(s.virt), c)
  {
    hide Create, Creates, Destroy, Consistent, AtMostOne, Live, Configured, CreatesBeside;
    DestroyKeeps(s.virt);
    DestroyShrinks(s.virt);
    SubsetIsNoCrowd(s.virt, Destroy(s.virt));
    CreateCrowdsIff(Destroy(s.virt), c);
  }

  /** From at most one device, an iteration has two at some point exactly when a creation -- for
      the scan, for create-virtual, for a type or backend change, for a name change -- succeeds
      while something other than what it replaces still exists. */
  lemma TwoAtOnceIff(s: State, i: Input)
    requires Inv(s) && AtMostOne(s.virt)
    ensures TwoAtOnce(s, i) <==> Crowds(s, i)
  {
    hide Head, Commanded, Reconfigured, Renamed, Tail, AtMostOne, Mid, CreatesBeside, ScanNeedsDevice, VirtualWanted, Recreates, Renames;
    HeadCrowdsIff(s, i);
    HeadKeepsInv(s, i);
    var h := Head(s, i);
    var c := Commanded(h, i);
    CommandKeepsMid(h, i);
    var r, n := LastPhases(c, i, h.phy.open, UhidPolled(h.virt));
    if AtMostOne(h.virt) {
      CommandCrowdsIff(h, i);
      if AtMostOne(c.virt) {
        ReconfiguredCrowdsIff(c, i.commandCreation);
        if AtMostOne(r.virt) {
          RenamedCrowdsIff(r, i.renameConfigured, i.renameCreation);
          if AtMostOne(n.virt) && i.poll.Ready? {
            SubsetIsNoCrowd(n.virt, Iterate(s, i).virt);
          }
        }
      }
    }
  }

  /** One orphan at most: a second creation over a live device needs the first one to have
      succeeded, and then the controller is connected. */
  lemma OrphansAreFew(s: State, i: Input)
    requires Inv(s) && AtMostOne(s.virt)
    ensures var h := Head(s, i);
      forall a, b :: a in Orphans(Commanded(h, i).virt) && b in Orphans(Commanded(h, i).virt) ==> a == b
  {
    hide Commanded, Head, Configured, OpenFound, ScanNeedsDevice, VirtualWanted;
    HeadOrphans(s, i);
    HeadKeepsInv(s, i);
    var h := Head(s, i);
    CommandOrphans(h, i);
    KnownOrOrphan(s.virt);
    assert VirtualWanted(h, i) ==> !h.phy.open by { WantedIsDisconnected(h, i); }
    if !h.phy.open {
      UnopenedHead(s, i);
    }
  }

  lemma WantedIsDisconnected(h: State, i: Input)
    ensures VirtualWanted(h, i) ==> !h.phy.open
  {
  }

  /** A scan that leaves no controller connected leaves no new device either. */
  lemma UnopenedHead(s: State, i: Input)
    requires !Head(s, i).phy.open
    ensures var u := Head(s, i).virt.uhid;
      u.Absent? || (u == s.virt.uhid && !(ScanNeedsDevice(s, i) && i.scanCreation.uhidOpens))
  {
    hide Configured, OpenFound;
  }

  lemma KnownOrOrphan(v: Virtual)
    requires Consistent(v)
    ensures v.existing == Orphans(v) + Ids(Live(v))
  {
  }

  lemma CrowdIff(v: Virtual)
    requires Consistent(v) && forall a, b :: a in Orphans(v) && b in Orphans(v) ==> a == b
    ensures !AtMostOne(v) <==> Orphans(v) != {} && Live(v).Present?
  {
    KnownOrOrphan(v);
    if Orphans(v) != {} && Live(v).Present? {
      var x :| x in Orphans(v);
      assert x in v.existing && Live(v).id in v.existing && x != Live(v).id;
    }
  }

  /** ... and two are left at its end exactly if, besides, the one created is not taken down again
      before the iteration ends. */
  lemma TwoRemainIff(s: State, i: Input)
    requires Inv(s) && AtMostOne(s.virt)
    ensures var n := Iterate(s, i);
      |n.virt.existing| >= 2 <==> Crowds(s, i) && Live(n.virt).Present?
  {
    hide Head, Commanded, Reconfigured, Renamed, Tail, AtMostOne, Mid, Crowds, Orphans, Live;
    TwoAtOnceIff(s, i);
    HeadKeepsInv(s, i);
    var h := Head(s, i);
    var c := Commanded(h, i);
    CommandKeepsMid(h, i);
    HeadOrphans(s, i);
    CommandOrphans(h, i);
    OrphansAreFew(s, i);
    var r, n := LastPhases(c, i, h.phy.open, UhidPolled(h.virt));
    var e := Iterate(s, i);
    InvHolds(s, i);
    ConsistentOf(h);
    ConsistentOf(c);
    ConsistentOf(r);
    ConsistentOf(n);
    ConsistentOf(e);
    CrowdIff(e.virt);
    AtMostOneIsACount(e.virt);
    OnlyCrowdsHaveOrphans(h.virt);
    OnlyCrowdsHaveOrphans(c.virt);
    OnlyCrowdsHaveOrphans(r.virt);
    OnlyCrowdsHaveOrphans(n.virt);
    if !AtMostOne(e.virt) && i.poll.Interrupted? {
      assert e == h;
    }
  }

  lemma OnlyCrowdsHaveOrphans(v: Virtual)
    requires Consistent(v)
    ensures !AtMostOne(v) ==> Orphans(v) != {}
  {
    KnownOrOrphan(v);
  }

  ghost predicate NeverTwo(s: State, inputs: seq<Input>)
    decreases |inputs|
  {
    AtMostOne(s.virt) && (inputs == [] || (!TwoAtOnce(s, inputs[0]) && NeverTwo(Iterate(s, inputs[0]), inputs[1..])))
  }

  ghost predicate NeverCrowds(s: State, inputs: seq<Input>)
    decreases |inputs|
  {
    inputs == [] || (!Crowds(s, inputs[0]) && NeverCrowds(Iterate(s, inputs[0]), inputs[1..]))
  }

  /** Over a whole run, inside its iterations included: there is never more than one virtual
      device if and only if no creation succeeds beside another device. */
  lemma {:induction false} NeverTwoIff(s: State, inputs: seq<Input>)
    requires Inv(s) && AtMostOne(s.virt)
    ensures NeverTwo(s, inputs) <==> NeverCrowds(s, inputs)
    decreases |inputs|
  {
    hide Inv, Iterate, AtMostOne, Crowds, TwoAtOnce;
    if inputs != [] {
      TwoAtOnceIff(s, inputs[0]);
      InvHolds(s, inputs[0]);
      if !TwoAtOnce(s, inputs[0]) {
        OneAtTheEnd(s, inputs[0]);
        NeverTwoIff(Iterate(s, inputs[0]), inputs[1..]);
      }
    }
  }

  lemma OneAtTheEnd(s: State, i: Input)
    requires !TwoAtOnce(s, i)
    ensures AtMostOne(Iterate(s, i).virt)
  {
    hide Head, Commanded, Tail, AtMostOne;
  }

  /** From the start there is no device, so this is the exact condition for the daemon. */
  lemma DaemonNeverHasTwoIff(t: ControllerType, ds4: Backend, dualSense: Backend, m: HideMethod, now: nat, inputs: seq<Input>)
    ensures var s := Start(t, ds4, dualSense, m, now); NeverTwo(s, inputs) <==> NeverCrowds(s, inputs)
  {
    NeverTwoIff(Start(t, ds4, dualSense, m, now), inputs);
  }

  // ------------------------------------------------------------------------------ examples

  const FRESH := Start(DualSense, Uhid, Uhid, Legacy, 0)

  const CONNECTED := State(
    Phy(true, 1, false, false, false), Virtual(Uhid, Present(0), Absent, 1, {0}, {}),
    FRESH.conf, FRESH.bt, FRESH.grace, false, false, false, 0)

  lemma ConnectedIsReached()
    ensures Iterate(FRESH, USB) == CONNECTED
  {
    hide Iterate;
    assert Head(FRESH, USB) == AutoScan(Kernel(FRESH, USB), USB.scan, USB.scanCreation);
    assert Create(FRESH.virt, USB.scanCreation) == CONNECTED.virt;
    HeadOnly(FRESH, USB);
  }

  /** A controller was connected, and gone again before the host had opened its device. */
  const GONE := CONNECTED.(phy := FRESH.phy, grace := Grace(false, 0, [0], []))

  lemma DropsUnopened()
    ensures Iterate(CONNECTED, QUIET.(poll := Ready(true))) == GONE
  {
    hide Head;
    TailOnly(CONNECTED, QUIET.(poll := Ready(true)));
  }

  lemma GoneIsReached()
    ensures Iterate(Iterate(FRESH, USB), QUIET.(poll := Ready(true))) == GONE
  {
    hide Iterate;
    ConnectedIsReached();
    DropsUnopened();
  }

  lemma ReturnsAfterAll(late: bool, c: Creation)
    requires c.uhidOpens
    ensures Iterate(GONE.(deviceOpen := late), USB.(scanCreation := c)).virt ==
              if c.uhidWrites then Virtual(Uhid, Present(1), Absent, 2, {0, 1}, {}) else Virtual(Uhid, Absent, Absent, 1, {0}, {})
  {
    hide Iterate;
    var s, i := GONE.(deviceOpen := late), USB.(scanCreation := c);
    assert Head(s, i) == AutoScan(Kernel(s, i), i.scan, c);
    HeadOnly(s, i);
  }

  /** When it returns there are two devices. */
  lemma TwoDevicesRun()
    ensures var gone := Iterate(Iterate(FRESH, USB), QUIET.(poll := Ready(true)));
      Iterate(gone, USB).virt.existing == {0, 1}
  {
    hide Iterate;
    GoneIsReached();
    ReturnsAfterAll(false, USB.scanCreation);
    assert GONE.(deviceOpen := false) == GONE && USB.(scanCreation := USB.scanCreation) == USB;
  }

  lemma OpenedLate()
    ensures Iterate(GONE, QUIET.(uhidEvent := Opened)) == GONE.(deviceOpen := true)
  {
  }

  /** The same if the host opens the first one while the controller is away. */
  lemma HostOpensLateRun()
    ensures var gone := Iterate(Iterate(FRESH, USB), QUIET.(poll := Ready(true)));
      var late := Iterate(gone, QUIET.(uhidEvent := Opened));
      late.deviceOpen && Iterate(late, USB).virt.existing == {0, 1}
  {
    hide Iterate;
    GoneIsReached();
    OpenedLate();
    ReturnsAfterAll(true, USB.scanCreation);
    assert USB.(scanCreation := USB.scanCreation) == USB;
  }

  /** An orphan need not mean two devices: here the second creation fails at the write. */
  lemma OrphanAloneRun()
    ensures var gone := Iterate(Iterate(FRESH, USB), QUIET.(poll := Ready(true)));
      var failed := Iterate(gone, USB.(scanCreation := Creation(true, true, false)));
      failed.virt.existing == {0} == Orphans(failed.virt)
  {
    hide Iterate;
    GoneIsReached();
    ReturnsAfterAll(false, Creation(true, true, false));
    assert GONE.(deviceOpen := false) == GONE;
  }
}

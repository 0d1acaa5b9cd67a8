// The hot-swap of the daemon loop takes the driver away from the Bluetooth connection; this is
// the account of which devices still wait to get it back.
module HotSwapLedger {
  import opened Controller
  import opened DaemonLoop

  /** Only the remembered device is without its driver, and while the daemon is connected over
      Bluetooth only that connection's own device can be. */
  ghost predicate Ledger(s: State) {
    && s.bt.unbound <= Ids(s.bt.suppressed)
    && (s.phy.open && s.phy.bluetooth ==> s.bt.unbound <= {s.phy.name})
    && s.bt.unbound <= s.bt.present
  }

  /** A Bluetooth device can be opened only while it is there and has its driver: without one
      it has no hidraw node. */
  ghost predicate HasNode(f: Found, b: Bluetooth) {
    f.Pad? && f.bluetooth && f.opens ==> f.name in b.present && f.name !in b.unbound
  }

  /** At most one Bluetooth pad is around. */
  ghost predicate OnePad(present: set<nat>) {
    forall a, b :: a in present && b in present ==> a == b
  }

  ghost predicate Plausible(s: State, i: Input) {
    var b := Kernel(s, i).bt;
    OnePad(i.present) && HasNode(i.scan.hidBus, b) && HasNode(i.scan.hidraw, b)
  }

  ghost predicate PlausibleRun(s: State, inputs: seq<Input>)
    decreases |inputs|
  {
    inputs == [] || (Plausible(s, inputs[0]) && PlausibleRun(Iterate(s, inputs[0]), inputs[1..]))
  }

  lemma ScanKeepsLedger(s: State, scan: Scan, c: Creation)
    requires Ledger(s) && !s.phy.open && OnePad(s.bt.present) && HasNode(scan.hidBus, s.bt) && HasNode(scan.hidraw, s.bt)
    ensures Ledger(AutoScan(s, scan, c))
  {
    hide Create, Creates;
  }

  lemma HotSwapKeepsLedger(s: State, u: Upgrade, now: nat)
    requires Ledger(s) && s.phy.open && s.phy.bluetooth
    ensures Ledger(HotSwap(s, u, now))
  {
    hide Configured;
  }

  lemma HeadKeepsLedger(s: State, i: Input)
    requires Ledger(s) && Plausible(s, i)
    ensures Ledger(Head(s, i))
  {
    hide AutoScan, HotSwap, OnePad;
    var k := Kernel(s, i);
    assert Ledger(k);
    if !k.standalone && !k.ignorePhysical {
      if !k.phy.open {
        ScanKeepsLedger(k, i.scan, i.scanCreation);
      } else if k.phy.bluetooth {
        HotSwapKeepsLedger(k, i.upgrade, i.now);
      }
    }
  }

  /** After the head of the loop, the ledger only ever shrinks by restoring. */
  ghost predicate Settles(s: State, n: State) {
    (n.bt == s.bt || n.bt == Restore(s.bt)) && (n.phy == s.phy || !n.phy.open)
  }

  lemma SettlesKeepsLedger(s: State, n: State)
    requires Ledger(s) && Settles(s, n)
    ensures Ledger(n)
  {
  }

  lemma PhasesSettle(s: State, i: Input, configured: bool, c: Creation)
    ensures Settles(s, Commanded(s, i))
    ensures Settles(s, Reconfigured(s, c))
    ensures Renamed(s, configured, c).bt == s.bt && Renamed(s, configured, c).phy == s.phy
    ensures Settles(s, PhysicalDropped(s, configured, i.later))
    ensures GraceChecked(s, i.later).bt == s.bt && GraceChecked(s, i.later).phy == s.phy
    ensures UhidHandled(s, i.uhidEvent).bt == s.bt && UhidHandled(s, i.uhidEvent).phy == s.phy
  {
    hide Create, Destroy, Creates, Configured, Restore, SettingsAfter, Live;
  }

  lemma TailKeepsLedger(s: State, i: Input, phyPolled: bool, uhidPolled: bool)
    requires Ledger(s)
    ensures Ledger(Tail(s, i, phyPolled, uhidPolled))
  {
    hide Reconfigured, Renamed, PhysicalDropped, GraceChecked, UhidHandled;
    var c := Reconfigured(s, i.commandCreation);
    PhasesSettle(s, i, i.renameConfigured, i.commandCreation);
    SettlesKeepsLedger(s, c);
    PhasesSettle(c, i, i.renameConfigured, i.renameCreation);
    var r := Renamed(c, i.renameConfigured, i.renameCreation);
    PhasesSettle(r, i, i.dropConfigured, i.renameCreation);
    PhasesSettle(GraceChecked(r, i.later), i, i.dropConfigured, i.renameCreation);
    SettlesKeepsLedger(r, PhysicalDropped(r, i.dropConfigured, i.later));
  }

  lemma {:induction false} LedgerHolds(s: State, inputs: seq<Input>)
    requires Ledger(s) && PlausibleRun(s, inputs)
    ensures Ledger(Run(s, inputs))
    decreases |inputs|
  {
    hide Ledger, Head, Tail, Commanded, Plausible;
    if inputs != [] {
      var i := inputs[0];
      HeadKeepsLedger(s, i);
      var h := Head(s, i);
      PhasesSettle(h, i, i.renameConfigured, i.commandCreation);
      SettlesKeepsLedger(h, Commanded(h, i));
      TailKeepsLedger(Commanded(h, i), i, h.phy.open, UhidPolled(h.virt));
      LedgerHolds(Iterate(s, i), inputs[1..]);
    }
  }

  /** With at most one Bluetooth pad around at a time: at every head of the loop nothing but
      the remembered device waits for its driver, and after shutdown nothing does. */
  lemma NothingStaysUnbound(t: ControllerType, ds4: Backend, dualSense: Backend, m: HideMethod, now: nat, inputs: seq<Input>)
    requires PlausibleRun(Start(t, ds4, dualSense, m, now), inputs)
    ensures var s := Run(Start(t, ds4, dualSense, m, now), inputs);
      s.bt.unbound <= Ids(s.bt.suppressed) && Shutdown(s).bt.unbound == {}
  {
    LedgerHolds(Start(t, ds4, dualSense, m, now), inputs);
  }

  /** The limit: the daemon remembers one device only, so a hot-swap keeps its account right
      exactly when nothing but the connection it takes over is still waiting. */
  lemma HotSwapForgetsIff(s: State, u: Upgrade, now: nat)
    requires s.bt.unbound <= Ids(s.bt.suppressed) && s.phy.open
    requires u.usbFound && (s.phy.bpfTransport || u.resolves)
    ensures var b := HotSwap(s, u, now).bt;
      b.unbound <= Ids(b.suppressed) <==> s.bt.unbound <= {s.phy.name}
  {
    hide Configured;
  }

  /** Nothing but the remembered device is without its driver. */
  ghost predicate Accounted(s: State) {
    s.bt.unbound <= Ids(s.bt.suppressed)
  }

  /** The hot-swap at the head of the loop goes through while another device is waiting. */
  ghost predicate Forgets(s: State, i: Input) {
    var k := Kernel(s, i);
    && !k.standalone && !k.ignorePhysical && k.phy.open && k.phy.bluetooth
    && i.upgrade.usbFound && (k.phy.bpfTransport || i.upgrade.resolves)
    && !(k.bt.unbound <= {k.phy.name})
  }

  lemma HeadAccountsIff(s: State, i: Input)
    requires Accounted(s)
    ensures Accounted(Head(s, i)) <==> !Forgets(s, i)
  {
    hide AutoScan, HotSwap;
    var k := Kernel(s, i);
    if !k.standalone && !k.ignorePhysical {
      if !k.phy.open {
        ScanLeavesBluetooth(k, i.scan, i.scanCreation);
      } else if k.phy.bluetooth {
        if i.upgrade.usbFound && (k.phy.bpfTransport || i.upgrade.resolves) {
          HotSwapForgetsIff(k, i.upgrade, i.now);
        } else {
          NoSwap(k, i.upgrade, i.now);
        }
      }
    }
  }

  lemma ScanLeavesBluetooth(s: State, scan: Scan, c: Creation)
    ensures AutoScan(s, scan, c).bt == s.bt
  {
    hide Create, Creates, OpenFound, Release;
  }

  lemma NoSwap(s: State, u: Upgrade, now: nat)
    requires !u.usbFound || !(s.phy.bpfTransport || u.resolves)
    ensures HotSwap(s, u, now) == s
  {
  }

  /** Restoring takes the remembered device off both sides of the account, so it neither loses
      a device nor finds a lost one again. */
  lemma SettlesAccountsIff(s: State, n: State)
    requires Settles(s, n)
    ensures Accounted(n) <==> Accounted(s)
  {
  }

  lemma TailAccountsIff(s: State, i: Input, phyPolled: bool, uhidPolled: bool)
    ensures Accounted(Tail(s, i, phyPolled, uhidPolled)) <==> Accounted(s)
  {
    hide Reconfigured, Renamed, PhysicalDropped, GraceChecked, UhidHandled, Accounted;
    var c := Reconfigured(s, i.commandCreation);
    PhasesSettle(s, i, i.renameConfigured, i.commandCreation);
    SettlesAccountsIff(s, c);
    PhasesSettle(c, i, i.renameConfigured, i.renameCreation);
    var r := Renamed(c, i.renameConfigured, i.renameCreation);
    SettlesAccountsIff(c, r);
    PhasesSettle(r, i, i.dropConfigured, i.renameCreation);
    var g := GraceChecked(r, i.later);
    PhasesSettle(g, i, i.dropConfigured, i.renameCreation);
    SettlesAccountsIff(r, PhysicalDropped(r, i.dropConfigured, i.later));
    SettlesAccountsIff(r, g);
    SettlesAccountsIff(g, UhidHandled(g, i.uhidEvent));
  }

  lemma IterationAccountsIff(s: State, i: Input)
    requires Accounted(s)
    ensures Accounted(Iterate(s, i)) <==> !Forgets(s, i)
  {
    hide Head, Commanded, Tail, Accounted, Forgets;
    HeadAccountsIff(s, i);
    var h := Head(s, i);
    PhasesSettle(h, i, i.renameConfigured, i.commandCreation);
    SettlesAccountsIff(h, Commanded(h, i));
    TailAccountsIff(Commanded(h, i), i, h.phy.open, UhidPolled(h.virt));
  }

  ghost predicate AlwaysAccounted(s: State, inputs: seq<Input>)
    decreases |inputs|
  {
    Accounted(s) && (inputs == [] || AlwaysAccounted(Iterate(s, inputs[0]), inputs[1..]))
  }

  ghost predicate NeverForgets(s: State, inputs: seq<Input>)
    decreases |inputs|
  {
    inputs == [] || (!Forgets(s, inputs[0]) && NeverForgets(Iterate(s, inputs[0]), inputs[1..]))
  }

  lemma {:induction false} AccountedIff(s: State, inputs: seq<Input>)
    requires Accounted(s)
    ensures AlwaysAccounted(s, inputs) <==> NeverForgets(s, inputs)
    decreases |inputs|
  {
    hide Accounted, Forgets, Iterate;
    if inputs != [] {
      IterationAccountsIff(s, inputs[0]);
      if !Forgets(s, inputs[0]) {
        AccountedIff(Iterate(s, inputs[0]), inputs[1..]);
      }
    }
  }

  /** With any number of pads: shutting down at any point of a run leaves no device without its
      driver if and only if no hot-swap met another device still waiting. */
  lemma NothingIsForgottenIff(t: ControllerType, ds4: Backend, dualSense: Backend, m: HideMethod, now: nat, inputs: seq<Input>)
    ensures var s := Start(t, ds4, dualSense, m, now);
      NeverForgets(s, inputs) <==> forall k :: 0 <= k <= |inputs| ==> Shutdown(Run(s, inputs[..k])).bt.unbound == {}
  {
    var s := Start(t, ds4, dualSense, m, now);
    AccountedIff(s, inputs);
    AtEveryPoint(s, inputs);
  }

  lemma {:induction false} AtEveryPoint(s: State, inputs: seq<Input>)
    ensures AlwaysAccounted(s, inputs) <==> forall k :: 0 <= k <= |inputs| ==> Shutdown(Run(s, inputs[..k])).bt.unbound == {}
    decreases |inputs|
  {
    hide Iterate, Accounted, Shutdown;
    ShutdownRestoresIff(s);
    assert Run(s, inputs[..0]) == s;
    if inputs != [] {
      var n, rest := Iterate(s, inputs[0]), inputs[1..];
      AtEveryPoint(n, rest);
      forall k | 0 < k <= |inputs|
        ensures Run(s, inputs[..k]) == Run(n, rest[..k - 1])
      {
        assert inputs[..k][1..] == rest[..k - 1];
      }
      assert forall k :: 0 <= k <= |rest| ==> Run(n, rest[..k]) == Run(s, inputs[..k + 1]);
    }
  }

  lemma ShutdownRestoresIff(s: State)
    ensures Shutdown(s).bt.unbound == {} <==> Accounted(s)
  {
    hide Destroy, Release;
  }
}

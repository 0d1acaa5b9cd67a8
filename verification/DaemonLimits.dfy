// Where the daemon loop does less than one would expect of it, and exactly when.
module DaemonLimits {
  import opened Controller
  import opened DaemonLoop

  // ------------------------------------------------------- which type a backend change gives

  lemma HeadKeepsSettings(s: State, i: Input)
    ensures Head(s, i).conf == s.conf
  {
    hide Create, Creates, Configured, OpenFound, Release, UsesUnbind, BeginGrace;
  }

  lemma TailSettings(s: State, i: Input, phyPolled: bool, uhidPolled: bool)
    ensures var n, pending := Tail(s, i, phyPolled, uhidPolled), s.conf.typeRequested || s.conf.backendRequested;
      && n.conf.targetType == (if pending then s.conf.pendingType else s.conf.targetType)
      && n.conf.pendingType == s.conf.pendingType
  {
    hide Create, Destroy, Creates, Configured, Restore, Release, CloseUhid, BeginGrace, Live;
  }

  /** set-backend for the type in use, asking for a backend it does not have yet. */
  predicate ChangesBackend(conf: Settings, c: Command) {
    c.SetBackend? && conf.targetType == Kind(c.ds4) && c.b != if c.ds4 then conf.backendDs4 else conf.backendDualSense
  }

  lemma IterateSettings(s: State, i: Input)
    requires Inv(s) && i.poll.Ready?
    ensures var n, c := Iterate(s, i), Commanded(Head(s, i), i);
      && n.conf.targetType == (if c.conf.typeRequested || c.conf.backendRequested then c.conf.pendingType else c.conf.targetType)
      && n.conf.pendingType == c.conf.pendingType
  {
    hide Head, Commanded, Tail, Inv;
    var h := Head(s, i);
    TailSettings(Commanded(h, i), i, h.phy.open, UhidPolled(h.virt));
  }

  /** A set-backend command changes the emulated type as well exactly when it takes effect while
      pending_type_change is stale. */
  lemma SetBackendChangesTypeIff(s: State, i: Input)
    requires Inv(s) && i.poll.Ready? && i.command.SetBackend?
    ensures Iterate(s, i).conf.targetType != s.conf.targetType <==>
              ChangesBackend(s.conf, i.command) && s.conf.pendingType != s.conf.targetType
  {
    hide Head, Iterate, Mid;
    HeadKeepsSettings(s, i);
    IterateSettings(s, i);
  }

  /** ... and it goes stale in exactly one way: create-virtual for another type. */
  lemma PendingTypeGoesStaleIff(s: State, i: Input)
    requires Inv(s) && s.conf.pendingType == s.conf.targetType
    ensures Iterate(s, i).conf.pendingType != Iterate(s, i).conf.targetType <==>
              i.poll.Ready? && CreatesVirtual(Head(s, i), i) && Kind(i.command.ds4) != s.conf.targetType
  {
    hide Head, Commanded, Tail, Mid, CreatesVirtual;
    HeadKeepsSettings(s, i);
    if i.poll.Ready? {
      IterateSettings(s, i);
      CommandedTypes(Head(s, i), i);
    }
  }

  lemma CommandedTypes(h: State, i: Input)
    requires NoRequest(h.conf) && h.conf.pendingType == h.conf.targetType
    ensures var c := Commanded(h, i).conf;
      !c.typeRequested && !c.backendRequested && c.pendingType != c.targetType <==>
        CreatesVirtual(h, i) && Kind(i.command.ds4) != h.conf.targetType
  {
    hide Create, Creates, Configured, Destroy, Release, Restore;
  }

  const FOR_DS4 := Start(Ds4, FunctionFs, Uhid, Legacy, 0)

  const AS_DUALSENSE := FOR_DS4.(
    conf := FOR_DS4.conf.(targetType := DualSense), virt := Virtual(FunctionFs, Absent, Present(0), 1, {0}, {0}), standalone := true)

  lemma VirtualTakesType()
    ensures Iterate(FOR_DS4, QUIET.(command := CreateVirtual(false))) == AS_DUALSENSE
  {
    hide Head;
    NothingFound(FOR_DS4, QUIET.(command := CreateVirtual(false)));
  }

  /** For instance: a daemon set to DS4, a standalone DualSense, its backend changed. */
  lemma StaleTypeRun()
    ensures var created := Iterate(FOR_DS4, QUIET.(command := CreateVirtual(false)));
      var changed := Iterate(created, QUIET.(command := SetBackend(false, FunctionFs)));
      created.conf.targetType == DualSense && changed.conf.targetType == Ds4
  {
    hide Iterate;
    VirtualTakesType();
    var i := QUIET.(command := SetBackend(false, FunctionFs));
    assert Inv(AS_DUALSENSE);
    HeadKeepsSettings(AS_DUALSENSE, i);
    IterateSettings(AS_DUALSENSE, i);
  }

  // --------------------------------------------------------------------- two Bluetooth pads

  const HOTSWAP := QUIET.(present := {1, 2}, upgrade := Upgrade(true, true, true, false))

  function Connect(n: nat): Input {
    QUIET.(present := {1, 2}, scan := Scan(Nothing, Pad(n, true, true)))
  }

  /** With two Bluetooth pads around, a second hot-swap before USB comes up forgets the first
      pad: it stays without its driver after shutdown. */
  lemma TwoPadsRun()
    ensures var a := Iterate(Start(Hidden, FunctionFs, Uhid, Legacy, 0), Connect(1));
      var b := Iterate(a, HOTSWAP.(poll := Ready(true)));
      var c := Iterate(b, Connect(2));
      var d := Iterate(c, HOTSWAP.(poll := Ready(true)));
      d.bt.suppressed == Present(2) && Shutdown(d).bt.unbound == {1}
  {
    var a := Iterate(Start(Hidden, FunctionFs, Uhid, Legacy, 0), Connect(1));
    assert a.phy == Phy(true, 1, true, false, false) && a.bt == Bluetooth(Absent, {1, 2}, {});
    var b := Iterate(a, HOTSWAP.(poll := Ready(true)));
    assert !b.phy.open && b.bt == Bluetooth(Present(1), {1, 2}, {1});
    var c := Iterate(b, Connect(2));
    assert c.phy == Phy(true, 2, true, false, false) && c.bt == Bluetooth(Present(1), {1, 2}, {1});
    var d := Iterate(c, HOTSWAP.(poll := Ready(true)));
    assert d.bt == Bluetooth(Present(2), {1, 2}, {1, 2});
  }
}

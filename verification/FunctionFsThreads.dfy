// Whose in_loop a FunctionFS device has.  functionfs_close joins the threads of the device it
// closes; functionfs_init joins nothing, so a creation over a live FunctionFS device leaves
// that device's threads behind, on a mailbox set up anew under them.  FunctionFsMailbox is
// about devices with an in_loop of their own: those that exist while nothing was left behind.
module FunctionFsThreads {
  import opened Controller
  import opened DaemonLoop
  import VirtualDevices

  /** The FunctionFS devices whose threads nobody is going to join. */
  function Strays(v: Virtual): set<nat> {
    v.threads - Ids(v.ffs)
  }

  /** A creation leaves threads behind exactly when it is attempted over a live FunctionFS
      device, whether it succeeds, falls back to UHID or fails. */
  lemma StraysAfterCreate(v: Virtual, c: Creation)
    requires Consistent(v)
    ensures Strays(Create(v, c)) == Strays(v) + Ids(v.ffs)
  {
  }

  lemma StraysAfterDestroy(v: Virtual, b: Backend)
    requires Consistent(v)
    ensures Strays(Destroy(v)) == Strays(v) && Strays(Destroy(v).(backend := b)) == Strays(v)
    ensures Strays(CloseUhid(v)) == Strays(v)
  {
  }

  lemma NothingToLeave(v: Virtual, b: Backend, c: Creation)
    requires Consistent(v)
    ensures Strays(Create(Destroy(v).(backend := b), c)) == Strays(v)
    ensures Strays(Create(Destroy(v), c)) == Strays(v)
  {
    hide Create, Strays;
    DestroyKeeps(v);
    StraysAfterDestroy(v, b);
    EmptyIsConsistent(Destroy(v), b);
    StraysAfterCreate(Destroy(v).(backend := b), c);
    StraysAfterCreate(Destroy(v), c);
  }

  lemma HeadStrays(s: State, i: Input)
    requires Inv(s)
    ensures Strays(Head(s, i).virt) ==
      Strays(s.virt) + if VirtualDevices.ScanNeedsDevice(s, i) then Ids(s.virt.ffs) else {}
  {
    hide Create, Creates, OpenFound, Release, Configured, Consistent, Strays;
    StraysAfterCreate(s.virt, i.scanCreation);
  }

  lemma CommandStrays(s: State, i: Input)
    requires Inv(s)
    ensures Strays(Commanded(s, i).virt) ==
      Strays(s.virt) + if VirtualDevices.VirtualWanted(s, i) then Ids(s.virt.ffs) else {}
  {
    hide Create, Creates, Destroy, Configured, Consistent, Strays, SettingsAfter;
    StraysAfterCreate(s.virt, i.commandCreation);
    StraysAfterDestroy(s.virt, Uhid);
  }

  lemma ChangeStrays(s: State, i: Input)
    requires Mid(s)
    ensures Strays(Reconfigured(s, i.commandCreation).virt) == Strays(s.virt)
    ensures Strays(Renamed(s, i.renameConfigured, i.renameCreation).virt) == Strays(s.virt)
  {
    hide Create, Creates, Destroy, Consistent, Live, Strays, Configured;
    StraysAfterDestroy(s.virt, s.conf.pendingBackend);
    NothingToLeave(s.virt, s.conf.pendingBackend, i.commandCreation);
    NothingToLeave(s.virt, s.conf.pendingBackend, i.renameCreation);
  }

  lemma TailStrays(s: State, i: Input, phyPolled: bool, uhidPolled: bool)
    requires Mid(s)
    ensures Strays(Tail(s, i, phyPolled, uhidPolled).virt) == Strays(s.virt)
  {
    hide Reconfigured, Renamed, Consistent, Destroy, CloseUhid, Live, Configured, Strays;
    var r := Reconfigured(s, i.commandCreation);
    var n := Renamed(r, i.renameConfigured, i.renameCreation);
    ReconfiguredKeepsMid(s, i.commandCreation);
    ChangeStrays(s, i);
    RenamedKeepsMid(r, i.renameConfigured, i.renameCreation);
    ChangeStrays(r, i);
    DestroyKeeps(n.virt);
    StraysAfterDestroy(n.virt, Uhid);
    StraysAfterDestroy(GraceChecked(n, i.later).virt, Uhid);
  }

  /** A creation is attempted over a FunctionFS device that is still there. */
  predicate LeavesThreads(s: State, i: Input) {
    var h := Head(s, i);
    || (VirtualDevices.ScanNeedsDevice(s, i) && s.virt.ffs.Present?)
    || (i.poll.Ready? && VirtualDevices.VirtualWanted(h, i) && h.virt.ffs.Present?)
  }

  /** An iteration leaves threads behind exactly when a returning controller whose device nobody
      waited with, or create-virtual before the host has configured the gadget, creates over a
      live FunctionFS device.  They are never joined. */
  lemma StrayLeftIff(s: State, i: Input)
    requires Inv(s)
    ensures Strays(Iterate(s, i).virt) == {} <==> Strays(s.virt) == {} && !LeavesThreads(s, i)
    ensures Strays(s.virt) <= Strays(Iterate(s, i).virt)
  {
    hide Head, Commanded, Tail, Strays, Mid, VirtualDevices.ScanNeedsDevice, VirtualDevices.VirtualWanted;
    HeadStrays(s, i);
    HeadKeepsInv(s, i);
    var h := Head(s, i);
    CommandStrays(h, i);
    CommandKeepsMid(h, i);
    TailStrays(Commanded(h, i), i, h.phy.open, UhidPolled(h.virt));
  }

  ghost predicate NeverLeavesThreads(s: State, inputs: seq<Input>)
    decreases |inputs|
  {
    inputs == [] || (!LeavesThreads(s, inputs[0]) && NeverLeavesThreads(Iterate(s, inputs[0]), inputs[1..]))
  }

  lemma {:induction false} NoStraysIff(s: State, inputs: seq<Input>)
    requires Inv(s)
    ensures Strays(Run(s, inputs).virt) == {} <==> Strays(s.virt) == {} && NeverLeavesThreads(s, inputs)
    decreases |inputs|
  {
    hide Inv, Iterate, Strays, LeavesThreads;
    if inputs != [] {
      StrayLeftIff(s, inputs[0]);
      InvHolds(s, inputs[0]);
      NoStraysIff(Iterate(s, inputs[0]), inputs[1..]);
    }
  }

  /** From the start, for every configuration: the only threads not joined are those of the device
      in use -- so its mailbox has one in_loop -- if and only if no iteration left any behind. */
  lemma OneInLoopIff(t: ControllerType, ds4: Backend, dualSense: Backend, m: HideMethod, now: nat, inputs: seq<Input>)
    ensures var s := Start(t, ds4, dualSense, m, now);
      Run(s, inputs).virt.threads == Ids(Run(s, inputs).virt.ffs) <==> NeverLeavesThreads(s, inputs)
  {
    var s := Start(t, ds4, dualSense, m, now);
    NoStraysIff(s, inputs);
    InvHoldsAlways(s, inputs);
    assert Consistent(Run(s, inputs).virt);
  }

  // ------------------------------------------------------------------------------ examples

  const FRESH := Start(Ds4, FunctionFs, Uhid, Legacy, 0)

  const CONNECTED := State(
    Phy(true, 1, false, false, false), Virtual(FunctionFs, Absent, Present(0), 1, {0}, {0}),
    FRESH.conf, FRESH.bt, FRESH.grace, false, false, false, 0)

  const GONE := CONNECTED.(phy := FRESH.phy, grace := Grace(false, 0, [0], []))

  lemma ConnectedIsReached()
    ensures Iterate(FRESH, USB) == CONNECTED
  {
    hide Iterate;
    assert Head(FRESH, USB) == AutoScan(Kernel(FRESH, USB), USB.scan, USB.scanCreation);
    assert Create(FRESH.virt, USB.scanCreation) == CONNECTED.virt;
    HeadOnly(FRESH, USB);
  }

  lemma DropsUnconfigured()
    ensures Iterate(CONNECTED, QUIET.(poll := Ready(true))) == GONE
  {
    hide Head;
    TailOnly(CONNECTED, QUIET.(poll := Ready(true)));
  }

  lemma ReturnsOver(c: Creation)
    requires c.uhidOpens && c.uhidWrites
    ensures Iterate(GONE, USB.(scanCreation := c)).virt ==
      if c.ffsWorks then Virtual(FunctionFs, Absent, Present(1), 2, {1}, {0, 1}) else Virtual(Uhid, Present(1), Absent, 2, {1}, {0})
  {
    hide Iterate;
    var i := USB.(scanCreation := c);
    assert Head(GONE, i) == AutoScan(Kernel(GONE, i), i.scan, c);
    HeadOnly(GONE, i);
  }

  /** A controller drops before the host has configured its device, and returns: two sets of
      threads, or one without a device if FunctionFS fails this time. */
  lemma TwoInLoopsRun(works: bool)
    ensures var gone := Iterate(Iterate(FRESH, USB), QUIET.(poll := Ready(true)));
      var back := Iterate(gone, USB.(scanCreation := Creation(works, true, true)));
      && back.virt.threads == (if works then {0, 1} else {0})
      && back.virt.ffs == (if works then Present(1) else Absent)
  {
    hide Iterate;
    ConnectedIsReached();
    DropsUnconfigured();
    ReturnsOver(Creation(works, true, true));
  }
}

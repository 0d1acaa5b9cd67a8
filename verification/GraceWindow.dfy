// The grace window from the virtual device's side: which device waits for the controller to come
// back, when there is none to wait for, and which one the timer takes in the end.
module GraceWindow {
  import opened Controller
  import opened DaemonLoop
  import opened VirtualDevices
  import Runs = DaemonRuns

  // ------------------------------------------------------------------- nothing to wait with

  /** A device is kept for the controller's return, but there is none. */
  predicate AwaitsNothing(s: State) {
    s.grace.pendingDestroy && Live(s.virt).Absent?
  }

  /** device_open has outlived the UHID device it was about. */
  predicate StaleFlag(s: State) {
    Emulates(s.conf.targetType) && s.virt.backend.Uhid? && s.virt.uhid.Absent? && s.deviceOpen
  }

  predicate ScanOpens(s: State, i: Input) {
    && !s.standalone && !s.ignorePhysical && !s.phy.open
    && OpenFound(s.phy, UsesUnbind(s.conf, i.scan), i.scan).open
  }

  /** The hot-swap drops a connection itself only under the BPF transport. */
  predicate SwapDrops(s: State, i: Input) {
    s.phy.open && s.phy.bluetooth && !s.standalone && !s.ignorePhysical && i.upgrade.usbFound && s.phy.bpfTransport
  }

  predicate Expires(s: State, now: nat) {
    s.grace.pendingDestroy && now >= s.grace.dropTime + GRACE
  }

  predicate UhidLost(e: UhidEvent) {
    e.Dropped? || e.ReadFailed?
  }

  /** A creation that fails after taking down the device there was. */
  predicate TakesDown(v: Virtual, c: Creation) {
    !Creates(v, c) && (v.backend.FunctionFs? || c.uhidOpens)
  }

  /** Dropping the controller on a hang-up. */
  lemma DropAwaitsNothingIff(s: State, configured: bool, at: nat)
    requires Mid(s) && !s.grace.pendingDestroy
    ensures AwaitsNothing(PhysicalDropped(s, configured, at)) <==> StaleFlag(s)
  {
  }

  lemma HeadAwaitsNothingIff(s: State, i: Input)
    requires Inv(s)
    ensures AwaitsNothing(Head(s, i)) <==> (AwaitsNothing(s) && !ScanOpens(s, i)) || (SwapDrops(s, i) && StaleFlag(s))
  {
    hide Create, Creates, OpenFound, UsesUnbind;
  }

  lemma LiveAfterCreate(v: Virtual, c: Creation)
    requires Consistent(v)
    ensures Live(Create(v, c)).Absent? <==> TakesDown(v, c) || (Live(v).Absent? && !Creates(v, c))
  {
  }

  lemma CommandAwaitsNothingIff(s: State, i: Input)
    requires Inv(s)
    ensures AwaitsNothing(Commanded(s, i)) <==>
      if VirtualWanted(s, i) then
        s.grace.pendingDestroy && (TakesDown(s.virt, i.commandCreation) || (Live(s.virt).Absent? && !Creates(s.virt, i.commandCreation)))
      else
        AwaitsNothing(s) && !(i.command.DestroyVirtual? && s.standalone)
  {
    hide Create, Creates, Destroy, Configured, Live, Consistent, SettingsAfter, TakesDown;
    LiveAfterCreate(s.virt, i.commandCreation);
  }

  lemma ChangeAwaitsNothingIff(s: State, i: Input)
    requires Mid(s)
    ensures AwaitsNothing(Reconfigured(s, i.commandCreation)) <==>
      AwaitsNothing(s) && !s.conf.typeRequested && !s.conf.backendRequested
    ensures AwaitsNothing(Renamed(s, i.renameConfigured, i.renameCreation)) <==>
      if Renames(s, i.renameConfigured) then s.grace.pendingDestroy && !Creates(Destroy(s.virt), i.renameCreation)
      else AwaitsNothing(s)
  {
    hide Create, Creates, Destroy, Configured, Live, Consistent, TakesDown;
    DestroyKeeps(s.virt);
    LiveAfterCreate(Destroy(s.virt), i.renameCreation);
    TakesDownCreatesNot(Destroy(s.virt), i.renameCreation);
  }

  lemma TakesDownCreatesNot(v: Virtual, c: Creation)
    ensures TakesDown(v, c) ==> !Creates(v, c)
  {
  }

  lemma LastAwaitsNothingIff(s: State, i: Input)
    requires Inv(s)
    ensures var g := GraceChecked(s, i.later);
      && (AwaitsNothing(g) <==> AwaitsNothing(s) && !Expires(s, i.later))
      && (AwaitsNothing(UhidHandled(g, i.uhidEvent)) <==>
            !Expires(s, i.later) && (AwaitsNothing(s) || (s.grace.pendingDestroy && UhidLost(i.uhidEvent) && s.virt.uhid.Present?)))
  {
    hide Destroy;
  }

  /** The ways there, of which only the first two begin the window. */
  predicate LosesWhatItAwaits(s: State, i: Input) {
    var h := Head(s, i);
    var c := Commanded(h, i);
    var r := Reconfigured(c, i.commandCreation);
    var n := Renamed(r, i.renameConfigured, i.renameCreation);
    var swap := SwapDrops(s, i) && StaleFlag(s);
    if i.poll.Interrupted? then swap
    else if h.phy.open && i.poll.hangUp then
      StaleFlag(n)
    else
      && !Expires(n, i.later)
      && (|| (UhidPolled(h.virt) && UhidLost(i.uhidEvent) && n.grace.pendingDestroy && n.virt.uhid.Present?)
          || (if Renames(r, i.renameConfigured) then r.grace.pendingDestroy && !Creates(Destroy(r.virt), i.renameCreation)
              else
                && !c.conf.typeRequested && !c.conf.backendRequested
                && (swap || (VirtualWanted(h, i) && h.grace.pendingDestroy && TakesDown(h.virt, i.commandCreation)))))
  }

  /** An iteration ends up waiting with no device exactly when a hang-up or a hot-swap meets a
      stale device_open, or, inside the window, the UHID device is lost, or a name change or a
      create-virtual takes the device down and fails to create another -- and the same iteration
      does not end the window. */
  lemma AwaitsNothingIff(s: State, i: Input)
    requires Inv(s) && !AwaitsNothing(s)
    ensures AwaitsNothing(Iterate(s, i)) <==> LosesWhatItAwaits(s, i)
  {
    hide Head, Commanded, Reconfigured, Renamed, PhysicalDropped, GraceChecked, UhidHandled, Mid, Live;
    hide StaleFlag, SwapDrops, VirtualWanted, Renames, TakesDown, Creates, Destroy, Expires, UhidPolled, UhidLost;
    HeadAwaitsNothingIff(s, i);
    HeadKeepsInv(s, i);
    var h := Head(s, i);
    if SwapDrops(s, i) && StaleFlag(s) {
      SwapRefusesVirtual(s, i);
    }
    CommandAwaitsNothingIff(h, i);
    CommandKeepsMid(h, i);
    var c := Commanded(h, i);
    ChangeAwaitsNothingIff(c, i);
    var r, n := LastPhases(c, i, h.phy.open, UhidPolled(h.virt));
    ChangeAwaitsNothingIff(r, i);
    LastAwaitsNothingIff(n, i);
    CommandsOnlyEndWindows(h, i);
    ChangesOnlyEndWindows(c, i);
    ChangesOnlyEndWindows(r, i);
    if h.phy.open {
      ConnectedIsNotPending(h);
      DropAwaitsNothingIff(n, i.dropConfigured, i.later);
    }
  }

  lemma ConnectedIsNotPending(s: State)
    requires Mid(s) && s.phy.open
    ensures !s.grace.pendingDestroy
  {
  }

  lemma CommandsOnlyEndWindows(s: State, i: Input)
    ensures Commanded(s, i).grace.pendingDestroy ==> s.grace.pendingDestroy
  {
    hide Create, Destroy, Creates, Configured, SettingsAfter;
  }

  lemma ChangesOnlyEndWindows(s: State, i: Input)
    ensures Reconfigured(s, i.commandCreation).grace.pendingDestroy ==> s.grace.pendingDestroy
    ensures Renamed(s, i.renameConfigured, i.renameCreation).grace.pendingDestroy == s.grace.pendingDestroy
  {
    hide Create, Destroy, Creates, Configured;
  }

  /** After a hot-swap met a stale flag, create-virtual is refused and nothing is standalone. */
  lemma SwapRefusesVirtual(s: State, i: Input)
    requires Inv(s) && SwapDrops(s, i) && StaleFlag(s)
    ensures var h := Head(s, i); !VirtualWanted(h, i) && !h.standalone
  {
    hide OpenFound, UsesUnbind;
  }

  /** A controller that is opened under an emulating type gets no device exactly when the window
      was waiting with none; every other connection keeps one or creates one. */
  lemma ConnectsWithoutDeviceIff(s: State, scan: Scan, c: Creation)
    requires Inv(s) && !s.phy.open && Emulates(s.conf.targetType)
    requires AutoScan(s, scan, c).phy.open
    ensures Live(AutoScan(s, scan, c).virt).Absent? <==> AwaitsNothing(s)
  {
  }

  // ------------------------------------------------------------ whose device the timer takes

  /** create-virtual replaces or takes down the device that is waiting, or a name change does. */
  predicate Replaces(s: State, i: Input) {
    var h := Head(s, i);
    var r := Reconfigured(Commanded(h, i), i.commandCreation);
    i.poll.Ready? && ((VirtualWanted(h, i) && (h.virt.backend.FunctionFs? || i.commandCreation.uhidOpens))
                      || Renames(r, i.renameConfigured))
  }

  predicate LosesUhid(s: State, i: Input) {
    i.poll.Ready? && UhidPolled(Head(s, i).virt) && UhidLost(i.uhidEvent)
  }

  /** Whether `d` is the device in place; ids are never given twice. */
  predicate InPlace(v: Virtual, d: nat) {
    Live(v) == Present(d)
  }

  lemma CreateReplacesIff(v: Virtual, c: Creation, d: nat)
    requires Consistent(v) && d < v.created
    ensures InPlace(Create(v, c), d) <==> InPlace(v, d) && !(v.backend.FunctionFs? || c.uhidOpens)
    ensures d < Create(v, c).created && (!(v.backend.FunctionFs? || c.uhidOpens) ==> Create(v, c) == v)
  {
  }

  lemma DestroyEmpties(v: Virtual, c: Creation, d: nat)
    requires Consistent(v) && d < v.created
    ensures !InPlace(Destroy(v), d) && !InPlace(Create(Destroy(v), c), d)
    ensures Destroy(v).created == v.created && d < Create(Destroy(v), c).created
  {
  }

  lemma HeadInWindow(s: State, i: Input)
    requires Inv(s) && s.grace.pendingDestroy && Head(s, i).grace.pendingDestroy
    ensures var h := Head(s, i); h.virt == s.virt && h.grace == s.grace
  {
    hide Create, Creates, Configured, OpenFound, UsesUnbind, Consistent;
  }

  lemma CommandInWindow(s: State, i: Input, d: nat)
    requires Inv(s) && s.grace.pendingDestroy && d < s.virt.created
    requires Commanded(s, i).grace.pendingDestroy
    ensures var c := Commanded(s, i);
      && (InPlace(c.virt, d) <==>
            InPlace(s.virt, d) && !(VirtualWanted(s, i) && (s.virt.backend.FunctionFs? || i.commandCreation.uhidOpens)))
      && d < c.virt.created && c.grace == s.grace && (InPlace(c.virt, d) ==> c.virt == s.virt)
  {
    hide Create, Creates, Destroy, Configured, Consistent, SettingsAfter, InPlace;
    ConnectedOrPending(s);
    CreateReplacesIff(s.virt, i.commandCreation, d);
  }

  lemma ConnectedOrPending(s: State)
    requires Mid(s) && s.grace.pendingDestroy
    ensures !s.phy.open
  {
  }

  lemma ChangesInWindow(s: State, i: Input, d: nat)
    requires Mid(s) && d < s.virt.created
    ensures var r := Reconfigured(s, i.commandCreation); r.grace.pendingDestroy ==> r == s
    ensures var n := Renamed(s, i.renameConfigured, i.renameCreation);
      && (InPlace(n.virt, d) <==> InPlace(s.virt, d) && !Renames(s, i.renameConfigured))
      && d < n.virt.created && n.grace == s.grace && (InPlace(n.virt, d) ==> n.virt == s.virt)
  {
    hide Create, Creates, Destroy, Configured, Consistent, InPlace;
    DestroyEmpties(s.virt, i.renameCreation, d);
  }

  /** The state before the last phases. */
  function Settled(s: State, i: Input): State {
    Renamed(Reconfigured(Commanded(Head(s, i), i), i.commandCreation), i.renameConfigured, i.renameCreation)
  }

  /** Up to there, the device in place stays exactly if nothing replaces it. */
  lemma WaitingStaysIff(s: State, i: Input, d: nat)
    requires Inv(s) && s.grace.pendingDestroy && d < s.virt.created && i.poll.Ready?
    requires Settled(s, i).grace.pendingDestroy
    ensures var n := Settled(s, i);
      && Inv(n) && n.grace == s.grace && d < n.virt.created && Head(s, i).virt == s.virt
      && (InPlace(n.virt, d) <==> InPlace(s.virt, d) && !Replaces(s, i)) && (InPlace(n.virt, d) ==> n.virt == s.virt)
  {
    hide Head, Commanded, Reconfigured, Renamed, InPlace, Mid, VirtualWanted, Renames;
    var h := Head(s, i);
    var c := Commanded(h, i);
    HeadKeepsInv(s, i);
    CommandKeepsMid(h, i);
    var r, n := LastPhases(c, i, false, false);
    ChangesOnlyEndWindows(r, i);
    ChangesOnlyEndWindows(c, i);
    CommandsOnlyEndWindows(h, i);
    HeadInWindow(s, i);
    CommandInWindow(h, i, d);
    ChangesInWindow(c, i, d);
    ChangesInWindow(r, i, d);
  }

  lemma NothingExpiresEarly(s: State, i: Input)
    ensures Head(s, i).grace.expired == Settled(s, i).grace.expired == s.grace.expired
    ensures |s.grace.drops| <= |Settled(s, i).grace.drops|
  {
    hide Head, Commanded, Reconfigured, Renamed;
    var h := Head(s, i);
    var c := Commanded(h, i);
    var r := Reconfigured(c, i.commandCreation);
    Runs.HeadExpired(s, i);
    Runs.CommandedGrace(h, i);
    Runs.PhasesKeepGrace(c, i, i.renameConfigured, i.commandCreation);
    Runs.PhasesKeepGrace(r, i, i.renameConfigured, i.renameCreation);
  }

  /** What an iteration inside a window comes to. */
  lemma InsideWindow(s: State, i: Input)
    requires i.poll.Ready? && Iterate(s, i).grace.pendingDestroy && Iterate(s, i).grace.drops == s.grace.drops
    ensures var n := Settled(s, i);
      && n.grace.pendingDestroy
      && Iterate(s, i) == if UhidPolled(Head(s, i).virt) then UhidHandled(n, i.uhidEvent) else n
  {
    hide Head, Commanded, Reconfigured, Renamed, Destroy, Configured, Release, Restore;
    NothingExpiresEarly(s, i);
  }

  /** One iteration inside a window: the device that waits is still the same one exactly if
      nothing replaced it and UHID was not lost. */
  lemma StillWaitingIff(s: State, i: Input, d: nat)
    requires Inv(s) && s.grace.pendingDestroy && d < s.virt.created
    requires Iterate(s, i).grace.pendingDestroy && Iterate(s, i).grace.drops == s.grace.drops
    ensures InPlace(Iterate(s, i).virt, d) <==> InPlace(s.virt, d) && !Replaces(s, i) && !LosesUhid(s, i)
    ensures d < Iterate(s, i).virt.created
  {
    hide Head, Settled, Tail, Commanded, Mid, Replaces, InPlace, UhidHandled, UhidPolled, UhidLost;
    if i.poll.Interrupted? {
      HeadInWindow(s, i);
      assert !Replaces(s, i) by { OnlyWhenReady(s, i); }
    } else {
      InsideWindow(s, i);
      WaitingStaysIff(s, i, d);
      ConsistentOf(s);
      ConsistentOf(Settled(s, i));
      UhidGoesIff(s.virt, Settled(s, i), i.uhidEvent, d);
    }
  }

  lemma UhidGoesIff(polled: Virtual, n: State, e: UhidEvent, d: nat)
    requires Consistent(polled) && Consistent(n.virt) && d < n.virt.created && (InPlace(n.virt, d) ==> n.virt == polled)
    ensures var u := UhidHandled(n, e);
      UhidPolled(polled) ==> (InPlace(u.virt, d) <==> InPlace(n.virt, d) && !UhidLost(e))
    ensures d < UhidHandled(n, e).virt.created
  {
  }

  lemma OnlyWhenReady(s: State, i: Input)
    ensures Replaces(s, i) ==> i.poll.Ready?
  {
  }

  /** The timer runs out in this iteration. */
  predicate TimerTakes(s: State, i: Input) {
    |Iterate(s, i).grace.expired| > |s.grace.expired|
  }

  lemma TakenNowIff(s: State, i: Input, d: nat)
    requires Inv(s) && s.grace.pendingDestroy && d < s.virt.created && TimerTakes(s, i)
    ensures var all := Iterate(s, i).grace.expired;
      all[|all| - 1].id == d <==> InPlace(s.virt, d) && !Replaces(s, i)
  {
    hide Head, Commanded, Reconfigured, Renamed, Mid, Replaces, Destroy, Configured, Release, Restore;
    NothingExpiresEarly(s, i);
    if Settled(s, i).grace.pendingDestroy && i.poll.Ready? {
      WaitingStaysIff(s, i, d);
    }
  }

  /** The window that began in `s` lasts through all of these iterations. */
  ghost predicate Lasts(s: State, inputs: seq<Input>)
    decreases |inputs|
  {
    inputs == [] ||
    var n := Iterate(s, inputs[0]);
    n.grace.pendingDestroy && n.grace.drops == s.grace.drops && Lasts(n, inputs[1..])
  }

  ghost predicate Undisturbed(s: State, inputs: seq<Input>)
    decreases |inputs|
  {
    inputs == [] || (!Replaces(s, inputs[0]) && !LosesUhid(s, inputs[0]) && Undisturbed(Iterate(s, inputs[0]), inputs[1..]))
  }

  /** A window begun with device `d` runs out: the device the timer takes is `d` if and only if,
      all through the window, no create-virtual and no name change replaced it and UHID held. */
  lemma {:induction false} TimerTakesWaitingIff(s: State, inputs: seq<Input>, last: Input, d: nat)
    requires Inv(s) && s.grace.pendingDestroy && d < s.virt.created
    requires Lasts(s, inputs) && TimerTakes(Run(s, inputs), last)
    ensures var all := Iterate(Run(s, inputs), last).grace.expired;
      all[|all| - 1].id == d <==> InPlace(s.virt, d) && Undisturbed(s, inputs) && !Replaces(Run(s, inputs), last)
    decreases |inputs|
  {
    hide Iterate, Replaces, LosesUhid, InPlace, Inv;
    if inputs == [] {
      TakenNowIff(s, last, d);
    } else {
      var n := Iterate(s, inputs[0]);
      InvHolds(s, inputs[0]);
      StillWaitingIff(s, inputs[0], d);
      TimerTakesWaitingIff(n, inputs[1..], last, d);
    }
  }

  // ------------------------------------------------------------------------------ examples

  /** A controller is connected over USB and the host has opened its device ... */
  const DRIVEN := CONNECTED.(deviceOpen := true)

  lemma HostOpens()
    ensures Iterate(CONNECTED, QUIET.(uhidEvent := Opened)) == DRIVEN
  {
    hide Head;
    TailOnly(CONNECTED, QUIET.(uhidEvent := Opened));
  }

  lemma DrivenIsReached()
    ensures Iterate(Iterate(FRESH, USB), QUIET.(uhidEvent := Opened)) == DRIVEN
  {
    hide Iterate;
    ConnectedIsReached();
    HostOpens();
  }

  /** ... then it is away, and the device waits. */
  const WAITING := DRIVEN.(phy := FRESH.phy, grace := Grace(true, 0, [0], []))

  lemma WaitingIsReached()
    ensures Iterate(DRIVEN, QUIET.(poll := Ready(true))) == WAITING
  {
    hide Head;
    TailOnly(DRIVEN, QUIET.(poll := Ready(true)));
  }

  lemma TypeSetAsItDrops()
    ensures var n := Iterate(DRIVEN, QUIET.(command := SetType(Ds4), poll := Ready(true)));
      && !n.phy.open && n.grace == Grace(true, 0, [0], []) && Live(n.virt).Absent? && n.conf.targetType == Ds4
      && NoRequest(n.conf) && !n.standalone && !n.ignorePhysical && n.conf.hideMethod.Legacy?
  {
    hide Head;
    TailOnly(DRIVEN, QUIET.(command := SetType(Ds4), poll := Ready(true)));
  }

  lemma ComesBackToNothing(s: State)
    requires !s.phy.open && Emulates(s.conf.targetType) && AwaitsNothing(s) && NoRequest(s.conf)
    requires !s.standalone && !s.ignorePhysical && s.conf.hideMethod.Legacy?
    ensures var back := Iterate(s, USB);
      back.phy.open && back.conf == s.conf && Live(back.virt).Absent?
  {
    hide Iterate;
    assert Head(s, USB) == AutoScan(Kernel(s, USB), USB.scan, USB.scanCreation);
    HeadOnly(s, USB);
  }

  /** set-type and the hang-up in one iteration, then the controller again: it is connected,
      emulation is on, and there is no device. */
  lemma NoDeviceRun()
    ensures var driven := Iterate(Iterate(FRESH, USB), QUIET.(uhidEvent := Opened));
      var dropped := Iterate(driven, QUIET.(command := SetType(Ds4), poll := Ready(true)));
      var back := Iterate(dropped, USB);
      back.phy.open && back.conf.targetType == Ds4 && Live(back.virt).Absent?
  {
    hide Iterate;
    DrivenIsReached();
    TypeSetAsItDrops();
    ComesBackToNothing(Iterate(DRIVEN, QUIET.(command := SetType(Ds4), poll := Ready(true))));
  }

  lemma UhidDropsInWindow()
    ensures Iterate(WAITING, QUIET.(uhidEvent := Dropped)) == WAITING.(virt := Virtual(Uhid, Absent, Absent, 1, {}, {}))
  {
    hide Head;
    NothingFound(WAITING, QUIET.(uhidEvent := Dropped));
  }

  /** The same end when the UHID device is lost while the controller is away. */
  lemma NoDeviceAfterUhidDropRun()
    ensures var driven := Iterate(Iterate(FRESH, USB), QUIET.(uhidEvent := Opened));
      var waiting := Iterate(driven, QUIET.(poll := Ready(true)));
      var back := Iterate(Iterate(waiting, QUIET.(uhidEvent := Dropped)), USB);
      Live(waiting.virt).Present? && back.phy.open && back.conf.targetType == DualSense && Live(back.virt).Absent?
  {
    hide Iterate;
    DrivenIsReached();
    WaitingIsReached();
    UhidDropsInWindow();
    ComesBackToNothing(WAITING.(virt := Virtual(Uhid, Absent, Absent, 1, {}, {})));
  }

  lemma HostClosesInWindow()
    ensures Iterate(WAITING, QUIET.(uhidEvent := Closed)) == WAITING.(deviceOpen := false)
  {
    hide Head;
    NothingFound(WAITING, QUIET.(uhidEvent := Closed));
  }

  /** A standalone device created inside the window, over the one that waits. */
  const BESIDE := WAITING.(deviceOpen := false, virt := Virtual(Uhid, Present(1), Absent, 2, {0, 1}, {}), standalone := true)

  lemma VirtualInWindow()
    ensures Iterate(WAITING.(deviceOpen := false), QUIET.(command := CreateVirtual(false))) == BESIDE
  {
  }

  lemma WindowRunsOut()
    ensures var n := Iterate(BESIDE, QUIET.(now := GRACE, later := GRACE));
      n.grace.expired == [Expiry(1, GRACE, 0, 1)] && n.virt.existing == {0} && n.standalone
  {
    hide Head;
    TailOnly(BESIDE, QUIET.(now := GRACE, later := GRACE));
  }

  /** The timer does take another's device: the controller drops, the host closes the device,
      create-virtual makes a second one, and 300 s later that one is destroyed, while the one that
      waited is still there. */
  lemma TimerTakesStandaloneRun()
    ensures var driven := Iterate(Iterate(FRESH, USB), QUIET.(uhidEvent := Opened));
      var waiting := Iterate(driven, QUIET.(poll := Ready(true)));
      var closed := Iterate(waiting, QUIET.(uhidEvent := Closed));
      var beside := Iterate(closed, QUIET.(command := CreateVirtual(false)));
      var n := Iterate(beside, QUIET.(now := GRACE, later := GRACE));
      && InPlace(waiting.virt, 0) && InPlace(beside.virt, 1)
      && n.grace.expired == [Expiry(1, GRACE, 0, 1)] && n.virt.existing == {0} && n.standalone
  {
    hide Iterate;
    DrivenIsReached();
    WaitingIsReached();
    HostClosesInWindow();
    VirtualInWindow();
    WindowRunsOut();
  }
}

// When a Bluetooth device is without its driver at the head of the daemon loop: exactly from the
// hot-swap that took it away on, until the device is gone or the daemon hands back the device its
// last hot-swap was for.
module BluetoothDrivers {
  import opened Controller
  import opened DaemonLoop
  import opened LoopEffects
  import opened HotSwapLedger
  import Grace = GraceWindow
  import Runs = DaemonRuns

  /** The connection poll() is called with, if there is one. */
  function Connection(s: State, i: Input): Phy {
    if s.phy.open then s.phy else FoundPhy(s, i)
  }

  /** What the daemon remembers is handed back: a connection over USB hangs up, release-physical
      takes the controller away, or the type or the backend changes. */
  predicate GivesBack(s: State, i: Input) {
    (HangsUp(s, i) && !Connection(s, i).bluetooth) || LetsGo(s, i) || Changes(s, i)
  }

  /** A hot-swap takes its driver away from `x`. */
  predicate Takes(s: State, i: Input, x: nat) {
    SwapGoes(s, i) && x == s.phy.name && i.upgrade.unbindWorks && x in i.present
  }

  // ------------------------------------------------------------------------ one iteration

  lemma HeadBluetooth(s: State, i: Input)
    requires Inv(s)
    ensures var b := Head(s, i).bt;
      && b.present == i.present
      && b.suppressed == (if SwapGoes(s, i) then Present(s.phy.name) else s.bt.suppressed)
      && forall x :: x in b.unbound <==> (x in s.bt.unbound && x in i.present) || Takes(s, i, x)
  {
    hide Create, Creates, Configured, Consistent, Live, BeginGrace, OpenFound, UsesUnbind, Release;
  }

  /** Given back by a phase, or left alone. */
  ghost predicate GivenIf(given: bool, a: Bluetooth, b: Bluetooth) {
    b == if given then Restore(a) else a
  }

  lemma CommandGives(s: State, i: Input)
    ensures GivenIf(i.command.ReleasePhysical? && s.phy.open, s.bt, Commanded(s, i).bt)
  {
    hide Create, Destroy, Creates, Configured, Restore, SettingsAfter, Live;
  }

  lemma ChangesGive(s: State, configured: bool, c: Creation)
    ensures GivenIf(Requested(s.conf), s.bt, Reconfigured(s, c).bt)
    ensures GivenIf(false, s.bt, Renamed(s, configured, c).bt)
  {
    hide Create, Destroy, Creates, Configured, Restore, Live;
  }

  lemma EndGives(s: State, i: Input, configured: bool)
    ensures GivenIf(!s.phy.bluetooth, s.bt, PhysicalDropped(s, configured, i.later).bt)
    ensures GivenIf(false, s.bt, GraceChecked(s, i.later).bt)
    ensures GivenIf(false, s.bt, UhidHandled(s, i.uhidEvent).bt)
  {
    hide Destroy, Configured, Restore, Live, BeginGrace;
  }

  lemma PhasesGive(s: State, i: Input, configured: bool, c: Creation)
    ensures GivenIf(i.command.ReleasePhysical? && s.phy.open, s.bt, Commanded(s, i).bt)
    ensures GivenIf(Requested(s.conf), s.bt, Reconfigured(s, c).bt)
    ensures GivenIf(false, s.bt, Renamed(s, configured, c).bt)
    ensures GivenIf(!s.phy.bluetooth, s.bt, PhysicalDropped(s, configured, i.later).bt)
    ensures GivenIf(false, s.bt, GraceChecked(s, i.later).bt)
    ensures GivenIf(false, s.bt, UhidHandled(s, i.uhidEvent).bt)
  {
    hide *;
    CommandGives(s, i);
    ChangesGive(s, configured, c);
    EndGives(s, i, configured);
  }

  lemma GivenTwice(a: Bluetooth)
    ensures Restore(Restore(a)) == Restore(a)
    ensures Restore(a).present == a.present && Restore(a).suppressed == Absent
    ensures forall x :: x in Restore(a).unbound <==> x in a.unbound && a.suppressed != Present(x)
  {
  }

  /** The bus of a connection outlives it. */
  lemma SameBus(s: State, i: Input, h: State, c: State, r: State, n: State)
    requires c == Commanded(h, i) && r == Reconfigured(c, i.commandCreation)
    requires n == Renamed(r, i.renameConfigured, i.renameCreation)
    ensures n.phy.bluetooth == h.phy.bluetooth
  {
    hide Head, Commanded, Reconfigured, Renamed;
    CommandEffects(h, i);
    ChangeEffects(c, i.commandCreation);
    RenameEffects(r, i.renameConfigured, i.renameCreation);
  }

  /** One iteration: what is remembered and who is without a driver. */
  lemma BluetoothIs(s: State, i: Input)
    requires Inv(s) && Blank(s.phy)
    ensures var b, swapped := Iterate(s, i).bt, if SwapGoes(s, i) then Present(s.phy.name) else s.bt.suppressed;
      && b.suppressed == (if GivesBack(s, i) then Absent else swapped)
      && forall x :: x in b.unbound <==>
           ((x in s.bt.unbound && x in i.present) || Takes(s, i, x)) && !(GivesBack(s, i) && swapped == Present(x))
  {
    hide Head, Commanded, Reconfigured, Renamed, PhysicalDropped, GraceChecked, UhidHandled, Iterate, SettingsAfter, Live, Mid;
    hide Grace.SwapDrops, Connects, Changes, FoundPhy, Requested, Restore, SwapGoes, Takes, UhidPolled;
    HeadEffects(s, i);
    HeadBluetooth(s, i);
    var h, c, r, n := Between(s, i);
    OnlyWhenPolled(s, i);
    if i.poll.Ready? {
      PhasesGive(h, i, i.renameConfigured, i.commandCreation);
      PhasesGive(c, i, i.renameConfigured, i.commandCreation);
      PhasesGive(r, i, i.renameConfigured, i.renameCreation);
      PhasesGive(n, i, i.dropConfigured, i.renameCreation);
      PhasesGive(GraceChecked(n, i.later), i, i.dropConfigured, i.renameCreation);
      SameBus(s, i, h, c, r, n);
      RequestedIff(s, i);
      GivenTwice(h.bt);
    }
  }

  // ------------------------------------------------------------------------------- the run

  /** The state before iteration `k`. */
  function At(s: State, inputs: seq<Input>, k: nat): State
    requires k <= |inputs|
  {
    Run(s, inputs[..k])
  }

  lemma NextAt(s: State, inputs: seq<Input>, k: nat)
    requires k < |inputs|
    ensures At(s, inputs, k + 1) == Iterate(At(s, inputs, k), inputs[k])
  {
    assert inputs[..k + 1] == inputs[..k] + [inputs[k]];
    Runs.RunAppend(s, inputs[..k], [inputs[k]]);
    var n := At(s, inputs, k);
    assert [inputs[k]][1..] == [] && Run(Iterate(n, inputs[k]), []) == Iterate(n, inputs[k]);
  }

  lemma {:induction false} AtIsInv(s: State, inputs: seq<Input>, k: nat)
    requires Inv(s) && Blank(s.phy) && k <= |inputs|
    ensures Inv(At(s, inputs, k)) && Blank(At(s, inputs, k).phy)
    decreases k
  {
    hide Inv, Iterate, Blank;
    if k > 0 {
      AtIsInv(s, inputs, k - 1);
      NextAt(s, inputs, k - 1);
      InvHolds(At(s, inputs, k - 1), inputs[k - 1]);
      ConnectionIff(At(s, inputs, k - 1), inputs[k - 1]);
    } else {
      assert inputs[..0] == [];
    }
  }

  /** The device the last of the first `k` iterations' hot-swaps was for. */
  function LastSwap(s: State, inputs: seq<Input>, k: nat): Tracked
    requires k <= |inputs|
    decreases k
  {
    if k == 0 then Absent
    else if SwapGoes(At(s, inputs, k - 1), inputs[k - 1]) then Present(At(s, inputs, k - 1).phy.name)
    else LastSwap(s, inputs, k - 1)
  }

  /** Iteration `k` took the driver away from `x`, which has been there ever since, and whenever
      the daemon has handed something back since, its last hot-swap had been for another device. */
  ghost predicate TakenAt(s: State, inputs: seq<Input>, n: nat, x: nat, k: nat)
    requires k < n <= |inputs|
  {
    && Takes(At(s, inputs, k), inputs[k], x)
    && (forall j :: k < j < n ==> x in inputs[j].present)
    && (forall j :: k <= j < n && GivesBack(At(s, inputs, j), inputs[j]) ==> LastSwap(s, inputs, j + 1) != Present(x))
  }

  ghost predicate Deprived(s: State, inputs: seq<Input>, n: nat, x: nat)
    requires n <= |inputs|
  {
    exists k :: 0 <= k < n && TakenAt(s, inputs, n, x, k)
  }

  lemma DeprivedNext(s: State, inputs: seq<Input>, n: nat, x: nat)
    requires n < |inputs|
    ensures Deprived(s, inputs, n + 1, x) <==>
      && (Takes(At(s, inputs, n), inputs[n], x) || (Deprived(s, inputs, n, x) && x in inputs[n].present))
      && !(GivesBack(At(s, inputs, n), inputs[n]) && LastSwap(s, inputs, n + 1) == Present(x))
  {
    hide At, LastSwap, Takes, GivesBack;
    var m := n + 1;
    if k :| 0 <= k < m && TakenAt(s, inputs, m, x, k) {
      assert k < n ==> TakenAt(s, inputs, n, x, k);
    }
    if k :| 0 <= k < n && TakenAt(s, inputs, n, x, k) {
      if x in inputs[n].present && !(GivesBack(At(s, inputs, n), inputs[n]) && LastSwap(s, inputs, n + 1) == Present(x)) {
        assert TakenAt(s, inputs, m, x, k);
      }
    }
    if Takes(At(s, inputs, n), inputs[n], x) && !(GivesBack(At(s, inputs, n), inputs[n]) && LastSwap(s, inputs, n + 1) == Present(x)) {
      assert TakenAt(s, inputs, m, x, n);
    }
  }

  /** The daemon remembers the device of its last hot-swap, or has handed it back. */
  ghost predicate Remembers(s: State, last: Tracked) {
    s.bt.suppressed == last || (s.bt.suppressed == Absent && (last.Present? ==> last.id !in s.bt.unbound))
  }

  /** At every head of the loop, in every run and with any number of pads. */
  lemma {:induction false} DeprivedIff(s: State, inputs: seq<Input>, n: nat)
    requires Inv(s) && Blank(s.phy) && s.bt.unbound == {} && s.bt.suppressed == Absent && n <= |inputs|
    ensures forall x :: x in At(s, inputs, n).bt.unbound <==> Deprived(s, inputs, n, x)
    ensures Remembers(At(s, inputs, n), LastSwap(s, inputs, n))
    decreases n
  {
    if n == 0 {
      assert inputs[..0] == [];
    } else {
      hide Inv, Iterate, Blank, At, Takes, GivesBack, Deprived, SwapGoes;
      DeprivedIff(s, inputs, n - 1);
      var a, i := At(s, inputs, n - 1), inputs[n - 1];
      AtIsInv(s, inputs, n - 1);
      NextAt(s, inputs, n - 1);
      BluetoothIs(a, i);
      OwnSwap(a, i);
      forall x
        ensures x in At(s, inputs, n).bt.unbound <==> Deprived(s, inputs, n, x)
      {
        DeprivedNext(s, inputs, n - 1, x);
      }
    }
  }

  lemma OwnSwap(s: State, i: Input)
    ensures forall x :: Takes(s, i, x) ==> SwapGoes(s, i) && x == s.phy.name
  {
  }

  /** For the daemon as it starts: a device is without its driver at the head of the loop if and
      only if a hot-swap took it, it has been there since, and nothing was handed back while the
      last hot-swap was the one for it. */
  lemma DaemonDeprivesIff(t: ControllerType, ds4: Backend, dualSense: Backend, m: HideMethod, now: nat, inputs: seq<Input>, x: nat)
    ensures var s := Start(t, ds4, dualSense, m, now);
      x in Run(s, inputs).bt.unbound <==> Deprived(s, inputs, |inputs|, x)
  {
    hide Deprived;
    var s := Start(t, ds4, dualSense, m, now);
    DeprivedIff(s, inputs, |inputs|);
    assert inputs[..|inputs|] == inputs;
  }

  /** So the loop settles the account itself: as long as no hot-swap forgot a device, nothing is
      without its driver after an iteration in which a USB connection hung up, the controller was
      released, or the type or the backend changed. */
  lemma LoopSettles(t: ControllerType, ds4: Backend, dualSense: Backend, m: HideMethod, now: nat, inputs: seq<Input>, i: Input)
    requires var s := Start(t, ds4, dualSense, m, now); NeverForgets(s, inputs + [i]) && GivesBack(Run(s, inputs), i)
    ensures Run(Start(t, ds4, dualSense, m, now), inputs + [i]).bt == Bluetooth(Absent, i.present, {})
  {
    hide Iterate, Accounted, NeverForgets, Deprived, GivesBack, Blank, Mid;
    var s := Start(t, ds4, dualSense, m, now);
    var all := inputs + [i];
    StartsBlank(t, ds4, dualSense, m, now);
    AccountedIff(s, all);
    AlwaysAt(s, all, |all|);
    AtIsInv(s, all, |inputs|);
    NextAt(s, all, |inputs|);
    assert all[..|inputs|] == inputs && all[|inputs|] == i && all[..|all|] == all;
    BluetoothIs(Run(s, inputs), i);
    KernelSaysWhoIsThere(Run(s, inputs), i);
    AccountedIsFew(Run(s, all));
  }

  lemma StartsBlank(t: ControllerType, ds4: Backend, dualSense: Backend, m: HideMethod, now: nat)
    ensures var s := Start(t, ds4, dualSense, m, now); Inv(s) && Blank(s.phy) && Accounted(s)
  {
  }

  lemma AccountedIsFew(s: State)
    requires Accounted(s) && s.bt.suppressed == Absent
    ensures s.bt.unbound == {}
  {
  }

  lemma {:induction false} AlwaysAt(s: State, inputs: seq<Input>, k: nat)
    requires AlwaysAccounted(s, inputs) && k <= |inputs|
    ensures Accounted(Run(s, inputs[..k]))
    decreases |inputs|
  {
    hide Accounted, Iterate;
    if k > 0 {
      AlwaysAt(Iterate(s, inputs[0]), inputs[1..], k - 1);
      assert inputs[..k][1..] == inputs[1..][..k - 1];
    } else {
      assert inputs[..0] == [];
    }
  }

  lemma KernelSaysWhoIsThere(s: State, i: Input)
    requires Inv(s) && Blank(s.phy)
    ensures Iterate(s, i).bt.present == i.present
  {
    hide Head, Commanded, Reconfigured, Renamed, PhysicalDropped, GraceChecked, UhidHandled, Iterate, SettingsAfter, Live, Mid;
    hide Restore, SwapGoes, Takes, UhidPolled;
    HeadBluetooth(s, i);
    var h, c, r, n := Between(s, i);
    PhasesGive(h, i, i.renameConfigured, i.commandCreation);
    PhasesGive(c, i, i.renameConfigured, i.commandCreation);
    PhasesGive(r, i, i.renameConfigured, i.renameCreation);
    PhasesGive(n, i, i.dropConfigured, i.renameCreation);
    PhasesGive(GraceChecked(n, i.later), i, i.dropConfigured, i.renameCreation);
    GivenTwice(h.bt);
    GivenTwice(c.bt);
    GivenTwice(n.bt);
  }
}

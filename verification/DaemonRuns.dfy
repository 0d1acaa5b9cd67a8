// What whole runs of the daemon loop guarantee, and exactly where the guarantees end.
module DaemonRuns {
  import opened Controller
  import opened DaemonLoop

  // -------------------------------------------------------------------- the grace window

  /** Every device the grace timer took had outlived the latest drop by 300 s. */
  ghost predicate Sound(g: Grace, upto: nat) {
    && (forall i, j :: 0 <= i < j < |g.drops| ==> g.drops[i] <= g.drops[j])
    && (forall i :: 0 <= i < |g.drops| ==> g.drops[i] <= upto)
    && (forall k :: 0 <= k < |g.expired| ==> g.expired[k].at <= upto && Justified(g.expired[k], g.drops))
    && (g.pendingDestroy ==> g.drops != [] && g.dropTime == g.drops[|g.drops| - 1])
  }

  ghost predicate Justified(e: Expiry, drops: seq<nat>) {
    && 0 < e.after <= |drops|
    && e.since == drops[e.after - 1]
    && e.at >= e.since + 300_000
    && forall j :: e.after <= j < |drops| ==> drops[j] >= e.at
  }

  lemma DropIsSound(g: Grace, inUse: bool, upto: nat, at: nat)
    requires Sound(g, upto) && upto <= at && !g.pendingDestroy
    ensures Sound(BeginGrace(g, inUse, at), at)
  {
    var drops := g.drops + [at];
    forall k | 0 <= k < |g.expired|
      ensures Justified(g.expired[k], drops)
    {
      assert Justified(g.expired[k], g.drops);
    }
  }

  lemma HeadIsSound(s: State, i: Input)
    requires Inv(s) && Sound(s.grace, s.clock) && Timely(s, i)
    ensures Sound(Head(s, i).grace, i.now) && Head(s, i).clock == i.later
  {
    hide Justified, Consistent, Create, Creates;
    if s.phy.open {
      DropIsSound(s.grace, true, s.clock, i.now);
      DropIsSound(s.grace, false, s.clock, i.now);
    }
  }

  lemma ExpiryIsSound(s: State, now: nat, upto: nat)
    requires Sound(s.grace, upto) && upto <= now
    ensures Sound(GraceChecked(s, now).grace, now)
  {
    hide Justified, Destroy;
    LaterIsSound(s.grace, upto, now);
    ClearedIsSound(s.grace, now);
    if s.grace.pendingDestroy && now >= s.grace.dropTime + GRACE && Live(s.virt).Present? {
      OneMoreExpiry(s.grace, Live(s.virt).id, now);
    }
  }

  lemma OneMoreExpiry(g: Grace, id: nat, now: nat)
    requires Sound(g, now) && g.pendingDestroy && now >= g.dropTime + GRACE
    ensures var e := Expiry(id, now, g.dropTime, |g.drops|);
      Sound(g.(pendingDestroy := false, expired := g.expired + [e]), now)
  {
    hide Justified;
    NewestIsJustified(g, id, now);
  }

  lemma NewestIsJustified(g: Grace, id: nat, now: nat)
    requires Sound(g, now) && g.pendingDestroy && now >= g.dropTime + GRACE
    ensures Justified(Expiry(id, now, g.dropTime, |g.drops|), g.drops)
  {
  }

  lemma CommandedGrace(s: State, i: Input)
    ensures var g, h := s.grace, Commanded(s, i).grace;
      h == g || h == g.(pendingDestroy := false)
    ensures Commanded(s, i).clock == s.clock
  {
    hide Create, Destroy, Creates, Configured;
  }

  /** What the later phases do to the clock and to the bookkeeping of drops. */
  lemma PhasesKeepGrace(s: State, i: Input, configured: bool, c: Creation)
    ensures var r := Reconfigured(s, c); r.clock == s.clock && (r.grace == s.grace || r.grace == s.grace.(pendingDestroy := false))
    ensures var r := Renamed(s, configured, c); r.clock == s.clock && r.grace == s.grace
    ensures var r := PhysicalDropped(s, configured, i.later);
      r.clock == s.clock && (r.grace == BeginGrace(s.grace, true, i.later) || r.grace == BeginGrace(s.grace, false, i.later))
    ensures var r := GraceChecked(s, i.later); r.clock == s.clock && s.grace.expired <= r.grace.expired
    ensures var r := UhidHandled(s, i.uhidEvent); r.clock == s.clock && r.grace == s.grace
  {
    hide Create, Destroy, Creates, Configured, Restore, Release, CloseUhid, BeginGrace, SettingsAfter, Live;
  }

  lemma TailGrace(s: State, i: Input, phyPolled: bool, uhidPolled: bool) returns (r: State)
    ensures r.grace == s.grace || r.grace == s.grace.(pendingDestroy := false)
    ensures var n := Tail(s, i, phyPolled, uhidPolled);
      && n.clock == s.clock
      && (n.grace == GraceChecked(r, i.later).grace
          || (phyPolled && (n.grace == BeginGrace(r.grace, true, i.later) || n.grace == BeginGrace(r.grace, false, i.later))))
  {
    hide Reconfigured, Renamed, PhysicalDropped, GraceChecked, UhidHandled, BeginGrace;
    var c := Reconfigured(s, i.commandCreation);
    PhasesKeepGrace(s, i, false, i.commandCreation);
    PhasesKeepGrace(c, i, i.renameConfigured, i.renameCreation);
    r := Renamed(c, i.renameConfigured, i.renameCreation);
    PhasesKeepGrace(r, i, i.dropConfigured, i.renameCreation);
    PhasesKeepGrace(GraceChecked(r, i.later), i, false, i.renameCreation);
  }

  lemma TailIsSound(s: State, i: Input, phyPolled: bool, uhidPolled: bool, upto: nat)
    requires Sound(s.grace, upto) && upto <= i.later && (phyPolled ==> !s.grace.pendingDestroy)
    ensures Sound(Tail(s, i, phyPolled, uhidPolled).grace, i.later)
    ensures Tail(s, i, phyPolled, uhidPolled).clock == s.clock
  {
    hide Tail, Sound, GraceChecked, BeginGrace;
    var r := TailGrace(s, i, phyPolled, uhidPolled);
    ClearedIsSound(s.grace, upto);
    ExpiryIsSound(r, i.later, upto);
    if phyPolled {
      DropIsSound(r.grace, true, upto, i.later);
      DropIsSound(r.grace, false, upto, i.later);
    }
  }

  lemma StepIsSound(s: State, i: Input)
    requires Inv(s) && Sound(s.grace, s.clock) && Timely(s, i)
    ensures Sound(Iterate(s, i).grace, Iterate(s, i).clock)
  {
    hide Head, Commanded, Tail, Sound, Consistent;
    HeadIsSound(s, i);
    HeadKeepsInv(s, i);
    var h := Head(s, i);
    LaterIsSound(h.grace, i.now, i.later);
    CommandedGrace(h, i);
    ClearedIsSound(h.grace, i.later);
    TailIsSound(Commanded(h, i), i, h.phy.open, UhidPolled(h.virt), i.later);
  }

  lemma LaterIsSound(g: Grace, a: nat, b: nat)
    requires Sound(g, a) && a <= b
    ensures Sound(g, b)
  {
  }

  lemma ClearedIsSound(g: Grace, upto: nat)
    requires Sound(g, upto)
    ensures Sound(g.(pendingDestroy := false), upto)
  {
  }

  /** In every run, whatever else happens: the grace timer destroys a device only when 300 s or
      more have passed since the latest drop. */
  lemma {:induction false} ExpiryIsJustified(s: State, inputs: seq<Input>)
    requires Inv(s) && Sound(s.grace, s.clock) && CanRun(s, inputs)
    ensures Sound(Run(s, inputs).grace, Run(s, inputs).clock)
    decreases |inputs|
  {
    hide Inv, Iterate, Sound, Timely;
    if inputs != [] {
      InvHolds(s, inputs[0]);
      StepIsSound(s, inputs[0]);
      ExpiryIsJustified(Iterate(s, inputs[0]), inputs[1..]);
    }
  }

  /** The virtual device `d` is in place: driven by the connected controller, or waiting for it. */
  ghost predicate Kept(s: State, d: nat) {
    && Inv(s)
    && Live(s.virt) == Present(d) && Emulates(s.conf.targetType) && !s.standalone
    && (s.phy.open <==> !s.grace.pendingDestroy)
  }

  /** This is how it gets there: a controller is opened, and the device created for it is new. */
  lemma ConnectingPutsDeviceInPlace(s: State, i: Input)
    requires Inv(s) && !s.phy.open && !s.standalone && !s.ignorePhysical && !s.grace.pendingDestroy
    requires Emulates(s.conf.targetType) && Creates(s.virt, i.scanCreation)
    requires OpenFound(s.phy, UsesUnbind(s.conf, i.scan), i.scan).open
    ensures Kept(Head(s, i), s.virt.created) && s.virt.created !in s.virt.existing
  {
    hide OpenFound, Mid;
    HeadKeepsInv(s, i);
    ConsistentOf(s);
    CreatedIsLive(s.virt, i.scanCreation);
  }

  lemma CreatedIsLive(v: Virtual, c: Creation)
    requires Consistent(v) && Creates(v, c)
    ensures Live(Create(v, c)) == Present(v.created) && v.created !in v.existing
  {
  }

  /** No type, backend, name, release or virtual command, and the UHID descriptor stays up. */
  predicate Calm(i: Input) {
    (i.command.Other? || i.command.ResumePhysical? || i.command.SetHideMethod?)
    && !i.uhidEvent.Dropped? && !i.uhidEvent.ReadFailed?
  }

  /** If the controller goes away in this iteration, the host is using the device. */
  predicate InUseAtDrops(s: State, i: Input) {
    var h := Head(s, i);
    && (s.phy.open && !h.phy.open ==> Configured(s.virt, s.deviceOpen, i.upgrade.configured))
    && (h.phy.open && i.poll.Ready? && i.poll.hangUp ==> Configured(h.virt, h.deviceOpen, i.dropConfigured))
  }

  predicate CalmRun(s: State, inputs: seq<Input>)
    decreases |inputs|
  {
    inputs == [] ||
    (Timely(s, inputs[0]) && Calm(inputs[0]) && InUseAtDrops(s, inputs[0]) && CalmRun(Iterate(s, inputs[0]), inputs[1..]))
  }

  lemma CalmHead(s: State, i: Input, d: nat)
    requires Kept(s, d) && Calm(i) && InUseAtDrops(s, i)
    ensures var h := Head(s, i); Kept(h, d) && h.virt == s.virt && h.grace.expired == s.grace.expired
  {
    hide Consistent, Create, Creates, Configured, Live;
    HeadKeepsInv(s, i);
  }

  lemma CalmCommand(s: State, i: Input)
    requires Inv(s) && Calm(i)
    ensures var c := Commanded(s, i);
      && c.virt == s.virt && c.grace == s.grace && c.phy == s.phy && c.deviceOpen == s.deviceOpen
      && c.standalone == s.standalone && c.conf.targetType == s.conf.targetType
      && Reconfigured(c, i.commandCreation) == c && Renamed(c, i.renameConfigured, i.renameCreation) == c
  {
    hide Create, Destroy, Creates, Configured, Mid;
  }

  lemma CalmTail(s: State, i: Input, uhidPolled: bool)
    requires Calm(i)
    requires Reconfigured(s, i.commandCreation) == s && Renamed(s, i.renameConfigured, i.renameCreation) == s
    requires Emulates(s.conf.targetType) && (s.phy.open <==> !s.grace.pendingDestroy) && Live(s.virt).Present?
    requires s.phy.open && i.poll.Ready? && i.poll.hangUp ==> Configured(s.virt, s.deviceOpen, i.dropConfigured)
    ensures var n := Tail(s, i, s.phy.open, uhidPolled);
      if n.grace.expired == s.grace.expired then
        && n.virt == s.virt && (n.phy.open <==> !n.grace.pendingDestroy)
        && n.standalone == s.standalone && n.conf == s.conf
      else n.grace.expired == s.grace.expired + [Expiry(Live(s.virt).id, i.later, s.grace.dropTime, |s.grace.drops|)]
  {
    hide Create, Destroy, Creates, Configured, Live, Reconfigured, Renamed, Restore;
  }

  lemma CalmStep(s: State, i: Input, d: nat)
    requires Kept(s, d) && Calm(i) && InUseAtDrops(s, i)
    ensures var n := Iterate(s, i);
      if n.grace.expired == s.grace.expired then Kept(n, d) && n.virt == s.virt
      else |n.grace.expired| == |s.grace.expired| + 1 && n.grace.expired[|s.grace.expired|].id == d
  {
    hide Head, Commanded, Tail, Live, Configured;
    CalmHead(s, i, d);
    InvHolds(s, i);
    var h := Head(s, i);
    CalmCommand(h, i);
    if !i.poll.Interrupted? {
      CalmTail(Commanded(h, i), i, UhidPolled(h.virt));
    }
  }

  lemma HeadExpired(s: State, i: Input)
    ensures Head(s, i).grace.expired == s.grace.expired && s.grace.drops <= Head(s, i).grace.drops
  {
    hide Create, Creates, Configured, OpenFound, Release, UsesUnbind;
  }

  lemma TailExpired(s: State, i: Input, phyPolled: bool, uhidPolled: bool)
    ensures s.grace.expired <= Tail(s, i, phyPolled, uhidPolled).grace.expired
  {
    hide Tail, GraceChecked;
    var r := TailGrace(s, i, phyPolled, uhidPolled);
    PhasesKeepGrace(r, i, false, i.commandCreation);
  }

  lemma ExpiredGrows(s: State, i: Input)
    ensures s.grace.expired <= Iterate(s, i).grace.expired
  {
    hide Head, Tail, Commanded;
    HeadExpired(s, i);
    var h := Head(s, i);
    CommandedGrace(h, i);
    TailExpired(Commanded(h, i), i, h.phy.open, UhidPolled(h.virt));
  }

  lemma {:induction false} ExpiredGrowsAlways(s: State, inputs: seq<Input>)
    ensures s.grace.expired <= Run(s, inputs).grace.expired
    decreases |inputs|
  {
    hide Iterate;
    if inputs != [] {
      ExpiredGrows(s, inputs[0]);
      ExpiredGrowsAlways(Iterate(s, inputs[0]), inputs[1..]);
    }
  }

  /** A calm run: however often the controller drops, swaps its bus and comes back, the device
      is the same one, nothing was created and nothing destroyed -- unless the device was
      destroyed 300 s or more after the latest drop. */
  lemma {:induction false} DeviceSurvives(s: State, inputs: seq<Input>, d: nat)
    requires Kept(s, d) && Sound(s.grace, s.clock) && CalmRun(s, inputs)
    ensures var n := Run(s, inputs);
      || (Kept(n, d) && n.virt == s.virt && n.grace.expired == s.grace.expired)
      || (|s.grace.expired| < |n.grace.expired|
          && var e := n.grace.expired[|s.grace.expired|]; e.id == d && Justified(e, n.grace.drops))
    decreases |inputs|
  {
    hide Kept, Iterate, InUseAtDrops, Timely, Calm, Justified;
    if inputs != [] {
      var n := Iterate(s, inputs[0]);
      CalmStep(s, inputs[0], d);
      assert Inv(s) by {
        KeptIsInv(s, d);
      }
      StepIsSound(s, inputs[0]);
      if n.grace.expired == s.grace.expired {
        DeviceSurvives(n, inputs[1..], d);
      } else {
        InvHolds(s, inputs[0]);
        CalmRunsCan(n, inputs[1..]);
        ExpiryIsJustified(n, inputs[1..]);
        ExpiredGrowsAlways(n, inputs[1..]);
      }
    }
  }

  lemma KeptIsInv(s: State, d: nat)
    requires Kept(s, d)
    ensures Inv(s)
  {
  }

  lemma {:induction false} CalmRunsCan(s: State, inputs: seq<Input>)
    requires CalmRun(s, inputs)
    ensures CanRun(s, inputs)
    decreases |inputs|
  {
    hide Iterate, Timely, Calm, InUseAtDrops;
    if inputs != [] {
      CalmRunsCan(Iterate(s, inputs[0]), inputs[1..]);
    }
  }

  lemma StartIsSound(t: ControllerType, ds4: Backend, dualSense: Backend, m: HideMethod, now: nat)
    ensures var s := Start(t, ds4, dualSense, m, now); Inv(s) && Sound(s.grace, s.clock)
  {
  }

  lemma {:induction false} RunAppend(s: State, a: seq<Input>, b: seq<Input>)
    ensures Run(s, a + b) == Run(Run(s, a), b)
    decreases |a|
  {
    hide Iterate;
    if a == [] {
      assert a + b == b;
    } else {
      assert (a + b)[0] == a[0] && (a + b)[1..] == a[1..] + b;
      RunAppend(Iterate(s, a[0]), a[1..], b);
    }
  }

  /** For the daemon as it starts, under every configuration and after everything that happens. */
  lemma DaemonExpiresJustly(t: ControllerType, ds4: Backend, dualSense: Backend, m: HideMethod, now: nat, inputs: seq<Input>)
    requires CanRun(Start(t, ds4, dualSense, m, now), inputs)
    ensures var g := Run(Start(t, ds4, dualSense, m, now), inputs).grace;
      forall k :: 0 <= k < |g.expired| ==> Justified(g.expired[k], g.drops)
  {
    StartIsSound(t, ds4, dualSense, m, now);
    ExpiryIsJustified(Start(t, ds4, dualSense, m, now), inputs);
  }

  /** ... and whenever, in any run of it, a device is in place and a calm stretch follows. */
  lemma DaemonKeepsItsDevice(t: ControllerType, ds4: Backend, dualSense: Backend, m: HideMethod, now: nat,
                             before: seq<Input>, calm: seq<Input>, d: nat)
    requires var start := Start(t, ds4, dualSense, m, now);
      CanRun(start, before) && Kept(Run(start, before), d) && CalmRun(Run(start, before), calm)
    ensures var start := Start(t, ds4, dualSense, m, now);
      var s, n := Run(start, before), Run(start, before + calm);
      || (Kept(n, d) && n.virt == s.virt && n.grace.expired == s.grace.expired)
      || (|s.grace.expired| < |n.grace.expired|
          && var e := n.grace.expired[|s.grace.expired|]; e.id == d && Justified(e, n.grace.drops))
  {
    hide Start, Run, CanRun, CalmRun, Kept, Sound, Justified;
    var start := Start(t, ds4, dualSense, m, now);
    StartIsSound(t, ds4, dualSense, m, now);
    ExpiryIsJustified(start, before);
    RunAppend(start, before, calm);
    DeviceSurvives(Run(start, before), calm, d);
  }
}

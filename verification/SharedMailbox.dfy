// A FunctionFS mailbox set up anew under the in_loop of the device before (FunctionFsThreads
// says when): that thread, asleep in the condition wait, and the new device's own in_loop share
// the slot, the mutex and the condition.  functionfs_close still signals once and joins its
// own, so whether it returns depends on whom the signal reaches.
//
// Initialising a mutex and a condition in use is undefined in POSIX; here they are taken to work
// on as new ones, with the old thread still waiting -- the best that could happen.
module SharedMailbox {
  import opened Crc32
  import opened FunctionFsMailbox

  /** The device with its own in_loop, and the one left over. */
  datatype Shared = Shared(device: Device, stray: InLoop, strayLocal: seq<byte>)

  datatype Event =
    | Own(step: Step, toStray: bool)  // a step of the device; the waiter a signal would prefer
    | StrayStep                       // a step of the thread left over
    | StrayWakes                      // its spurious wake-up

  ghost predicate Sized(s: Shared) {
    InBounds(s.device) && InBounds(Swapped(s).device)
  }

  /** The same with the two threads' places exchanged. */
  function Swapped(s: Shared): Shared {
    Shared(s.device.(inLoop := s.stray, local := s.strayLocal), s.device.inLoop, s.device.local)
  }

  /** The step ends in pthread_cond_signal. */
  predicate Signals(d: Device, step: Step) {
    step.MainStep? && (d.main.CloseLocked? || (d.main.SendCopying? && d.main.k >= |d.main.report|))
  }

  predicate CanHappen(s: Shared, e: Event) {
    match e
    case Own(step, _) => Enabled(s.device, step)
    case StrayStep => Enabled(Swapped(s).device, In)
    case StrayWakes => s.stray.Asleep?
  }

  function OwnStep(s: Shared, step: Step, toStray: bool): (n: Shared)
    requires Sized(s) && Enabled(s.device, step)
    ensures Sized(n)
  {
    var d := Apply(s.device, step);
    if Signals(s.device, step) && s.stray.Asleep? && (toStray || !s.device.inLoop.Asleep?) then
      s.(device := d.(inLoop := s.device.inLoop), stray := Locking)
    else
      s.(device := d)
  }

  function Next(s: Shared, e: Event): (n: Shared)
    requires Sized(s) && CanHappen(s, e)
    ensures Sized(n)
  {
    match e
    case Own(step, toStray) => OwnStep(s, step, toStray)
    case StrayStep => Swapped(OwnStep(Swapped(s), In, false))
    case StrayWakes => s.(stray := Locking)
  }

  ghost predicate CanGo(s: Shared, es: seq<Event>)
    requires Sized(s)
    decreases |es|
  {
    es == [] || (CanHappen(s, es[0]) && CanGo(Next(s, es[0]), es[1..]))
  }

  ghost function Go(s: Shared, es: seq<Event>): (n: Shared)
    requires Sized(s) && CanGo(s, es)
    ensures Sized(n)
    decreases |es|
  {
    if es == [] then s else Go(Next(s, es[0]), es[1..])
  }

  predicate Holds(t: InLoop) {
    t.Testing? || t.AboutToWait? || t.Rechecking? || t.Copying?
  }

  /** Mutual exclusion between the three threads. */
  ghost predicate Exclusive(s: Shared) {
    var d := s.device;
    && (d.owner.InThread? <==> Holds(d.inLoop) || Holds(s.stray))
    && !(Holds(d.inLoop) && Holds(s.stray))
    && (d.owner.MainThread? <==> d.main.SendCopying? || d.main.CloseLocked? || d.main.CloseSignalled?)
    && (d.open <==> d.main.Idle? || d.main.SendLocking? || d.main.SendCopying?)
    // After the signal nobody enters the wait any more.
    && (d.main.CloseSignalled? || d.main.Joining? || d.main.Closed? ==> !d.inLoop.AboutToWait? && !s.stray.AboutToWait?)
    && (d.main.Closed? ==> d.inLoop.Returned?)
  }

  lemma InKeeps(s: Shared)
    requires Sized(s) && Exclusive(s) && Enabled(s.device, In)
    ensures Exclusive(OwnStep(s, In, false))
  {
    hide InBounds;
  }

  lemma MainKeeps(s: Shared, toStray: bool)
    requires Sized(s) && Exclusive(s) && Enabled(s.device, MainStep)
    ensures Exclusive(OwnStep(s, MainStep, toStray))
  {
    hide InBounds;
  }

  lemma StaysExclusive(s: Shared, e: Event)
    requires Sized(s) && Exclusive(s) && CanHappen(s, e)
    ensures Exclusive(Next(s, e))
  {
    match e
    case StrayWakes =>
    case StrayStep => StrayKeeps(s);
    case Own(step, toStray) =>
      match step
      case In => InKeeps(s);
      case MainStep => MainKeeps(s, toStray);
      case _ =>
  }

  lemma StrayKeeps(s: Shared)
    requires Sized(s) && Exclusive(s) && CanHappen(s, StrayStep)
    ensures Exclusive(Next(s, StrayStep))
  {
    hide InBounds;
  }

  lemma {:induction false} AlwaysExclusive(s: Shared, es: seq<Event>)
    requires Sized(s) && Exclusive(s) && CanGo(s, es)
    ensures Exclusive(Go(s, es))
    decreases |es|
  {
    hide Exclusive, Next;
    if es != [] {
      StaysExclusive(s, es[0]);
      AlwaysExclusive(Next(s, es[0]), es[1..]);
    }
  }

  /** functionfs_init over a device whose in_loop sleeps. */
  function Reinitialised(d: Device): Shared
    requires d.inLoop.Asleep?
  {
    Shared(Device(true, Free, d.slot, 0, false, d.local, Top, Idle, [], [], []), Asleep, d.local)
  }

  /** Closing wakes the wrong thread exactly when both sleep and the signal prefers the stray. */
  lemma SignalMissesIff(s: Shared, toStray: bool)
    requires Sized(s) && Exclusive(s) && s.device.main.CloseLocked?
    ensures CanHappen(s, Own(MainStep, toStray))
    ensures Next(s, Own(MainStep, toStray)).device.inLoop.Asleep? <==>
              s.device.inLoop.Asleep? && s.stray.Asleep? && toStray
    ensures Next(s, Own(MainStep, toStray)).device.main.CloseSignalled?
  {
  }

  /** What no schedule can rely on. */
  predicate Spurious(e: Event) {
    e.StrayWakes? || (e.Own? && e.step.SpuriousWake?)
  }

  predicate Joined(m: Main) {
    m.CloseSignalled? || m.Joining? || m.Closed?
  }

  function StepsLeft(s: Shared): nat {
    Remaining(s.device.inLoop) + Remaining(s.stray) + ToClose(s.device.main)
  }

  /** One step nearer to the end, and the thread to be joined as asleep or awake as before. */
  ghost predicate Nearer(s: Shared, n: Shared) {
    Joined(n.device.main) && StepsLeft(n) < StepsLeft(s) && (n.device.inLoop.Asleep? <==> s.device.inLoop.Asleep?)
  }

  lemma OwnCounts(s: Shared, step: Step, toStray: bool)
    requires Sized(s) && Exclusive(s) && Joined(s.device.main) && Enabled(s.device, step) && !step.SpuriousWake?
    ensures Nearer(s, OwnStep(s, step, toStray))
  {
    hide InBounds;
  }

  lemma StrayCounts(s: Shared)
    requires Sized(s) && Exclusive(s) && Joined(s.device.main) && CanHappen(s, StrayStep)
    ensures Nearer(s, Next(s, StrayStep))
  {
    hide InBounds;
  }

  lemma StepCounts(s: Shared, e: Event)
    requires Sized(s) && Exclusive(s) && Joined(s.device.main) && CanHappen(s, e) && !Spurious(e)
    ensures Nearer(s, Next(s, e))
  {
    hide Nearer, OwnStep, Exclusive, Joined;
    match e
    case StrayStep => StrayCounts(s);
    case Own(step, toStray) => OwnCounts(s, step, toStray);
  }

  /** Nothing can happen any more but a spurious wake-up. */
  ghost predicate Still(s: Shared) {
    forall e :: CanHappen(s, e) ==> Spurious(e)
  }

  lemma StillIsOver(s: Shared)
    requires Sized(s) && Exclusive(s) && Joined(s.device.main)
    ensures Still(s) ==> s.device.main.Closed? || s.device.inLoop.Asleep?
    ensures s.device.main.Closed? ==> !s.device.inLoop.Asleep?
    ensures StepsLeft(s) <= 145
  {
    if Still(s) {
      assert !CanHappen(s, Own(MainStep, false)) && !CanHappen(s, Own(In, false)) && !CanHappen(s, StrayStep);
    }
  }

  /** Once it has signalled, however the three threads are scheduled: within 145 steps nothing
      moves any more, and then functionfs_close has returned if and only if its own in_loop was
      not left asleep. */
  lemma {:induction false} CloseEnds(s: Shared, es: seq<Event>)
    requires Sized(s) && Exclusive(s) && Joined(s.device.main) && CanGo(s, es)
    requires forall e :: e in es ==> !Spurious(e)
    ensures |es| + StepsLeft(Go(s, es)) <= StepsLeft(s) <= 145
    ensures s.device.inLoop.Asleep? ==> !Go(s, es).device.main.Closed?
    ensures Still(Go(s, es)) ==> (Go(s, es).device.main.Closed? <==> !s.device.inLoop.Asleep?)
    decreases |es|
  {
    hide Exclusive, Next, StepsLeft, Spurious, Still, Joined;
    StillIsOver(s);
    if es != [] {
      assert es[0] in es;
      StepCounts(s, es[0]);
      StaysExclusive(s, es[0]);
      CloseEnds(Next(s, es[0]), es[1..]);
    }
  }

  /** So functionfs_close returns on every schedule, or on none: it hangs, short of a spurious
      wake-up, exactly when both threads sleep and its one signal wakes the stray. */
  lemma CloseReturnsIff(s: Shared, toStray: bool, es: seq<Event>)
    requires Sized(s) && Exclusive(s) && s.device.main.CloseLocked?
    requires CanGo(s, [Own(MainStep, toStray)] + es) && forall e :: e in es ==> !Spurious(e)
    ensures var stuck, n := s.device.inLoop.Asleep? && s.stray.Asleep? && toStray, Go(s, [Own(MainStep, toStray)] + es);
      && |es| <= 145
      && (stuck ==> !n.device.main.Closed?)
      && (Still(n) ==> (n.device.main.Closed? <==> !stuck))
  {
    hide Exclusive, StepsLeft, Spurious, Still, Next, CanHappen, Go, CanGo;
    var first := Own(MainStep, toStray);
    SignalMissesIff(s, toStray);
    StaysExclusive(s, first);
    Onwards(s, first, es);
    CloseEnds(Next(s, first), es);
  }

  lemma Onwards(s: Shared, e: Event, es: seq<Event>)
    requires Sized(s) && CanHappen(s, e)
    ensures CanGo(s, [e] + es) <==> CanGo(Next(s, e), es)
    ensures CanGo(s, [e] + es) ==> Go(s, [e] + es) == Go(Next(s, e), es)
  {
    hide Next, CanHappen;
    assert ([e] + es)[1..] == es;
  }

  /** A run to such a state: the device is set up anew over a sleeping in_loop, its own goes to
      sleep as well, and the device is closed. */
  lemma StuckRun(d: Device)
    requires InBounds(d) && d.inLoop.Asleep?
    ensures var s, i := Reinitialised(d), Own(In, false);
      var es := [i, i, i, i, Own(Close, false), Own(MainStep, false)];
      && Sized(s) && Exclusive(s) && CanGo(s, es)
      && var n := Go(s, es); n.device.main.CloseLocked? && n.device.inLoop.Asleep? && n.stray.Asleep?
  {
    var s, i := Reinitialised(d), Own(In, false);
    var asleep := s.(device := s.device.(inLoop := Asleep));
    GoesToSleep(s);
    var es := [Own(Close, false), Own(MainStep, false)];
    var cleared := asleep.(device := asleep.device.(open := false, main := Cleared));
    assert Next(asleep, Own(Close, false)) == cleared;
    assert Next(cleared, Own(MainStep, false)) == cleared.(device := cleared.device.(owner := MainThread, main := CloseLocked));
    hide Next, CanHappen, Sized;
    Onwards(cleared, Own(MainStep, false), []);
    Onwards(asleep, Own(Close, false), [Own(MainStep, false)]);
    GoAppend(s, [i, i, i, i], es);
    assert [i, i, i, i] + es == [i, i, i, i, Own(Close, false), Own(MainStep, false)];
    assert [Own(MainStep, false)] + [] == [Own(MainStep, false)] && [Own(Close, false)] + [Own(MainStep, false)] == es;
  }

  lemma GoesToSleep(s: Shared)
    requires Sized(s) && s.device.inLoop.Top? && s.device.open && s.device.owner.Free? && !s.device.slotPending
    ensures var i := Own(In, false); CanGo(s, [i, i, i, i]) && Go(s, [i, i, i, i]) == s.(device := s.device.(inLoop := Asleep))
  {
    var i := Own(In, false);
    var a := Next(s, i);
    var b := Next(a, i);
    var c := Next(b, i);
    var e := Next(c, i);
    assert e == s.(device := s.device.(inLoop := Asleep));
    hide Next, CanHappen, Sized;
    Onwards(c, i, []);
    Onwards(b, i, [i]);
    Onwards(a, i, [i, i]);
    Onwards(s, i, [i, i, i]);
    assert [i] + [i, i, i] == [i, i, i, i] && [i] + [i, i] == [i, i, i] && [i] + [i] == [i, i] && [i] + [] == [i];
  }

  lemma {:induction false} GoAppend(s: Shared, a: seq<Event>, b: seq<Event>)
    requires Sized(s) && CanGo(s, a) && CanGo(Go(s, a), b)
    ensures CanGo(s, a + b) && Go(s, a + b) == Go(Go(s, a), b)
    decreases |a|
  {
    hide Next, CanHappen;
    if a == [] {
      assert a + b == b;
    } else {
      assert (a + b)[1..] == a[1..] + b;
      GoAppend(Next(s, a[0]), a[1..], b);
    }
  }
}

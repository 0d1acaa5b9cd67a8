// The libusb transport of src/usb-hid-transport.cpp: what open acquires and close gives back
// for every outcome the environment may produce, and the protocol by which the pump thread,
// the watchdog thread and close share one handle.
module UsbTransport {

  type HidId = string

  /** Everything the transport can hold that would leak. */
  datatype Held = Held(contexts: nat, handles: nat, claims: nat, sockets: nat, states: nat)

  function Plus(a: Held, b: Held): Held {
    Held(a.contexts + b.contexts, a.handles + b.handles, a.claims + b.claims, a.sockets + b.sockets, a.states + b.states)
  }

  const ONE_TRANSPORT := Held(1, 1, 1, 2, 1)

  const MAX_CLAIM_ATTEMPTS: nat := 4

  /** One turn of the claim loop: whether the claim succeeds, and what
      libusb_kernel_driver_active answers after the settling delay. */
  datatype Attempt = Attempt(claims: bool, active: int)

  predicate Sticks(a: Attempt) {
    a.claims && a.active == 0
  }

  /** What an open meets. */
  datatype Environment = Environment(initialises: bool, matches: bool, opens: bool, attempts: seq<Attempt>, pairs: bool)

  predicate Possible(env: Environment) {
    |env.attempts| == MAX_CLAIM_ATTEMPTS
  }

  predicate Opens(env: Environment)
    requires Possible(env)
  {
    && env.initialises && env.matches && env.opens && env.pairs
    && exists i :: 0 <= i < MAX_CLAIM_ATTEMPTS && Sticks(env.attempts[i])
  }

  class Transport {
    const hidId: HidId
    var started: bool

    constructor (hidId: HidId)
      ensures this.hidId == hidId && !started
    {
      this.hidId := hidId;
      started := false;
    }
  }

  class Usb {
    var held: Held
    /** Every time the kernel driver was asked to take the device back. */
    var rebinds: seq<HidId>
    var registry: map<int, Transport>
    /** Every descriptor of a caller's that was closed. */
    ghost var closedFds: seq<int>

    /** Everything held is held by exactly one registered transport. */
    ghost predicate Valid()
      reads this
    {
      held == Held(|registry|, |registry|, |registry|, 2 * |registry|, |registry|)
    }

    constructor ()
      ensures Valid() && registry == map[] && rebinds == [] && closedFds == []
    {
      held, rebinds, registry, closedFds := Held(0, 0, 0, 0, 0), [], map[], [];
    }

    method WriteBind(hidId: HidId)
      modifies this`rebinds
      ensures rebinds == old(rebinds) + [hidId]
    {
      rebinds := rebinds + [hidId];
    }

    /** usb_hid_transport_open.  Every libusb call and socketpair may fail; whichever does, the
        caller gets -1, nothing stays held, and the driver is asked back exactly once.
        `unused` is the descriptor socketpair would hand out. */
    method Open(hidId: HidId, env: Environment, unused: nat) returns (fd: int)
      requires Valid() && Possible(env) && unused !in registry
      modifies this
      ensures Valid() && closedFds == old(closedFds)
      ensures fd == if Opens(env) then unused else -1
      ensures fd >= 0 <==>
        && env.initialises && env.matches && env.opens && env.pairs
        && exists i :: 0 <= i < 4 && env.attempts[i].claims && env.attempts[i].active == 0
      ensures fd < 0 ==> held == old(held) && registry == old(registry) && rebinds == old(rebinds) + [hidId]
      ensures fd >= 0 ==>
        && held == Plus(old(held), ONE_TRANSPORT) && rebinds == old(rebinds)
        && fd !in old(registry) && fd in registry && registry == old(registry)[fd := registry[fd]]
        && fresh(registry[fd]) && registry[fd].hidId == hidId && !registry[fd].started
    {
      var t := new Transport(hidId);
      held := held.(states := held.states + 1);
      if !env.initialises {
        held := held.(states := held.states - 1);
        WriteBind(hidId);
        return -1;
      }
      held := held.(contexts := held.contexts + 1);
      // The device list is scanned and freed; a match with HID endpoints is opened.
      if !env.matches || !env.opens {
        held := held.(contexts := held.contexts - 1, states := held.states - 1);
        WriteBind(hidId);
        return -1;
      }
      held := held.(handles := held.handles + 1);
      var claimed := ClaimInterface(env.attempts);
      if !claimed {
        held := held.(handles := held.handles - 1, contexts := held.contexts - 1, states := held.states - 1);
        WriteBind(hidId);
        return -1;
      }
      if !env.pairs {
        held := held.(claims := held.claims - 1, handles := held.handles - 1, contexts := held.contexts - 1, states := held.states - 1);
        WriteBind(hidId);
        return -1;
      }
      held := held.(sockets := held.sockets + 2);
      fd := unused;
      registry := registry[fd := t];
    }

    /** The claim loop: the kernel may take the interface straight back, so a claim counts only
        after libusb confirms no driver is active; otherwise it is released and retried. */
    method ClaimInterface(attempts: seq<Attempt>) returns (claimed: bool)
      requires |attempts| == MAX_CLAIM_ATTEMPTS
      modifies this`held
      ensures claimed == exists i :: 0 <= i < MAX_CLAIM_ATTEMPTS && Sticks(attempts[i])
      ensures claimed <==> exists i :: 0 <= i < 4 && attempts[i].claims && attempts[i].active == 0
      ensures held == old(held).(claims := old(held).claims + if claimed then 1 else 0)
    {
      claimed := false;
      var attempt := 0;
      while attempt < MAX_CLAIM_ATTEMPTS && !claimed
        invariant attempt <= MAX_CLAIM_ATTEMPTS && !claimed && held == old(held)
        invariant forall i :: 0 <= i < attempt ==> !Sticks(attempts[i])
        decreases MAX_CLAIM_ATTEMPTS - attempt
      {
        if attempts[attempt].claims {
          held := held.(claims := held.claims + 1);
          if attempts[attempt].active == 0 {
            claimed := true;
            break;
          }
          held := held.(claims := held.claims - 1);
        }
        attempt := attempt + 1;
      }
    }

    method Start(fd: int)
      modifies if fd in registry then {registry[fd]} else {}
      ensures fd in registry ==> registry[fd].started
    {
      if fd in registry {
        var t := registry[fd];
        if !t.started {
          t.started := true;
        }
      }
    }

    /** usb_hid_transport_close: gives back everything open took, whether or not the threads ran
        and whether or not the watchdog got to the handle first.  The driver is asked back only
        when the handle is still there and libusb cannot reattach it.  A descriptor it does not
        know is closed and nothing else. */
    method Close(fd: int, watchdogActed: bool, attached: bool)
      requires Valid()
      modifies this
      ensures Valid() && registry == old(registry) - {fd} && closedFds == old(closedFds) + [fd]
      ensures old(held) == if fd in old(registry) then Plus(held, ONE_TRANSPORT) else held
      ensures rebinds == old(rebinds) +
        if fd in old(registry) && !(old(registry[fd].started) && watchdogActed) && !attached then [old(registry)[fd].hidId] else []
    {
      closedFds := closedFds + [fd];
      if fd !in registry {
        return;
      }
      var t := registry[fd];
      OneFewer(registry, fd);
      registry := registry - {fd};
      // Both threads have been joined; only a started watchdog can have closed the handle.
      CloseTransport(t.hidId, t.started && watchdogActed, attached);
    }

    method CloseTransport(hidId: HidId, forceClosed: bool, attached: bool)
      requires held.contexts > 0 && held.handles > 0 && held.claims > 0 && held.sockets > 1 && held.states > 0
      modifies this`held, this`rebinds
      ensures Plus(held, ONE_TRANSPORT) == old(held)
      ensures rebinds == old(rebinds) + if !forceClosed && !attached then [hidId] else []
    {
      if forceClosed {
        held := held.(claims := held.claims - 1);
        held := held.(handles := held.handles - 1);
      }
      if !forceClosed {
        held := held.(claims := held.claims - 1);
        if !attached {
          WriteBind(hidId);
        }
        held := held.(handles := held.handles - 1);
      }
      held := held.(contexts := held.contexts - 1);
      held := held.(sockets := held.sockets - 2);
      held := held.(states := held.states - 1);
    }

    /** Open, perhaps start, close: neutral, for every outcome. */
    method UseOnce(hidId: HidId, env: Environment, unused: nat, start: bool, watchdogActed: bool, attached: bool)
      requires Valid() && Possible(env) && unused !in registry
      modifies this
      ensures Valid() && held == old(held) && registry == old(registry)
    {
      var fd := Open(hidId, env, unused);
      if fd >= 0 {
        if start {
          Start(fd);
        }
        Close(fd, watchdogActed, attached);
        assert registry == old(registry);
      }
    }
  }

  lemma OneFewer<T>(m: map<int, T>, k: int)
    requires k in m
    ensures |m - {k}| == |m| - 1
  {
    assert (m - {k}).Keys == m.Keys - {k};
  }

  // --------------------------------------------------------- pump, watchdog, close: one run

  datatype Pump = PumpUnborn | PumpTop | PumpOut | PumpIn | PumpShutdown | PumpDone

  /** `Forcing` has stored force_closed and is about to call libusb_close. */
  datatype Watchdog = DogUnborn | DogTop | DogWaiting | DogLooking | DogAsking | DogForcing | DogDone

  datatype Closer = Open | FlagSet | SocketShut | JoinPump | JoinWatchdog | ReadForced | Releasing | HandleGone | Freed

  datatype Session = Session(
    pump: Pump,
    watchdog: Watchdog,
    closer: Closer,
    stop: bool,
    forced: bool,
    // History.
    handleCloses: nat,
    misuse: bool)     // the watchdog or close used a closed handle, or any thread freed state

  const OPENED := Session(PumpUnborn, DogUnborn, Closer.Open, false, false, 0, false)

  /** One step of one thread; the flags are what the environment answered. */
  datatype Move =
    | Started                            // usb_hid_transport_start
    | PumpMove(pending: bool, lost: bool)
    | DogMove(present: bool, active: bool)
    | CloserMove

  predicate CanMove(s: Session, m: Move) {
    match m
    case Started => s.closer.Open?
    case PumpMove(_, _) => !s.pump.PumpUnborn? && !s.pump.PumpDone?
    case DogMove(_, _) => !s.watchdog.DogUnborn? && !s.watchdog.DogDone?
    case CloserMove =>
      match s.closer {
        case JoinPump => s.pump.PumpUnborn? || s.pump.PumpDone?
        case JoinWatchdog => s.watchdog.DogUnborn? || s.watchdog.DogDone?
        case Freed => false
        case _ => true
      }
  }

  function UseHandle(s: Session): Session {
    s.(misuse := s.misuse || s.handleCloses > 0)
  }

  function TouchState(s: Session): Session {
    s.(misuse := s.misuse || s.closer.Freed?)
  }

  function PumpStep(s: Session, pending: bool, lost: bool): Session {
    match s.pump
    case PumpTop => s.(pump := if s.stop then PumpShutdown else if pending then PumpOut else PumpIn)
    case PumpOut => s.(pump := PumpIn)
    case PumpIn => s.(pump := if lost then PumpShutdown else PumpTop)
    case PumpShutdown => s.(pump := PumpDone)
    case _ => s
  }

  function DogStep(s: Session, present: bool, active: bool): Session {
    match s.watchdog
    case DogTop => s.(watchdog := if s.stop then DogDone else DogWaiting)
    // The wait ends by notification or after 700 ms; either way stop_flag is read again.
    case DogWaiting => s.(watchdog := if s.stop then DogDone else DogLooking)
    case DogLooking => if present then s.(watchdog := DogAsking) else s.(watchdog := DogForcing, forced := true)
    case DogAsking =>
      if active then UseHandle(s).(watchdog := DogForcing, forced := true) else UseHandle(s).(watchdog := DogTop)
    case DogForcing => UseHandle(s).(watchdog := DogDone, handleCloses := s.handleCloses + 1)
    case _ => s
  }

  function CloserStep(s: Session): Session {
    match s.closer
    case Open => s.(closer := FlagSet, stop := true)
    case FlagSet => s.(closer := SocketShut)
    case SocketShut => s.(closer := JoinPump)
    case JoinPump => s.(closer := JoinWatchdog)
    case JoinWatchdog => s.(closer := ReadForced)
    case ReadForced => s.(closer := if s.forced then HandleGone else Releasing)
    case Releasing => UseHandle(s).(closer := HandleGone, handleCloses := s.handleCloses + 1)
    case HandleGone => s.(closer := Freed)
    case Freed => s
  }

  function Moved(s: Session, m: Move): Session
    requires CanMove(s, m)
  {
    match m
    case Started =>
      if s.pump.PumpUnborn? then s.(pump := PumpTop, watchdog := DogTop) else s
    case PumpMove(pending, lost) => PumpStep(TouchState(s), pending, lost)
    case DogMove(present, active) => DogStep(TouchState(s), present, active)
    case CloserMove => CloserStep(TouchState(s))
  }

  predicate CanRun(s: Session, moves: seq<Move>)
    decreases |moves|
  {
    moves == [] || (CanMove(s, moves[0]) && CanRun(Moved(s, moves[0]), moves[1..]))
  }

  function Run(s: Session, moves: seq<Move>): Session
    requires CanRun(s, moves)
    decreases |moves|
  {
    if moves == [] then s else Run(Moved(s, moves[0]), moves[1..])
  }

  predicate PumpEnded(s: Session) {
    s.pump.PumpUnborn? || s.pump.PumpDone?
  }

  predicate DogEnded(s: Session) {
    s.watchdog.DogUnborn? || s.watchdog.DogDone?
  }

  predicate PastJoins(s: Session) {
    s.closer.ReadForced? || s.closer.Releasing? || s.closer.HandleGone? || s.closer.Freed?
  }

  ghost predicate Inv(s: Session) {
    && !s.misuse
    && (s.stop <==> !s.closer.Open?)
    && (s.pump.PumpUnborn? <==> s.watchdog.DogUnborn?)
    && (s.closer.JoinWatchdog? || PastJoins(s) ==> PumpEnded(s))
    && (PastJoins(s) ==> DogEnded(s))
    && (s.watchdog.DogForcing? ==> s.forced)
    && (s.forced ==> s.watchdog.DogForcing? || s.watchdog.DogDone?)
    && (s.closer.Releasing? ==> !s.forced)
    // The handle was closed by whoever was to close it, and by nobody else.
    && s.handleCloses ==
         (if s.forced && s.watchdog.DogDone? then 1 else 0) +
         (if !s.forced && (s.closer.HandleGone? || s.closer.Freed?) then 1 else 0)
  }

  lemma InvHolds(s: Session, m: Move)
    requires Inv(s) && CanMove(s, m)
    ensures Inv(Moved(s, m))
  {
  }

  lemma {:induction false} InvHoldsAlways(s: Session, moves: seq<Move>)
    requires Inv(s) && CanRun(s, moves)
    ensures Inv(Run(s, moves))
    decreases |moves|
  {
    hide Inv;
    if moves != [] {
      InvHolds(s, moves[0]);
      InvHoldsAlways(Moved(s, moves[0]), moves[1..]);
    }
  }

  /** In every interleaving: the handle is closed at most once, neither the watchdog nor close
      uses it afterwards, and once the state is freed both threads have ended and the handle
      was closed exactly once. */
  lemma HandleIsClosedOnce(moves: seq<Move>)
    requires CanRun(OPENED, moves)
    ensures var s := Run(OPENED, moves);
      && !s.misuse && s.handleCloses <= 1
      && (s.closer.Freed? ==> s.handleCloses == 1 && PumpEnded(s) && DogEnded(s))
      && (s.handleCloses == 1 && !s.forced ==> s.closer.HandleGone? || s.closer.Freed?)
  {
    InvHoldsAlways(OPENED, moves);
  }

  /** A round of the watchdog takes the handle away exactly if the device is gone from the bus or
      the kernel driver has come back; else it waits again. */
  lemma WatchdogActsIff(s: Session, present: bool, active: bool)
    requires Inv(s) && s.watchdog.DogWaiting? && !s.stop
    ensures var answer := DogMove(present, active);
      var round := if present then [answer, answer, answer] else [answer, answer];
      && CanRun(s, round)
      && var n := Run(s, round);
         && (n.forced <==> !present || active)
         && n.watchdog == (if !present || active then DogForcing else DogTop)
         && CanMove(n, answer) && (n.forced ==> Moved(n, answer).handleCloses == 1)
  {
    Onwards(s, DogMove(present, active), present);
  }

  /** Two moves, or three. */
  lemma Onwards(s: Session, m: Move, three: bool)
    requires CanMove(s, m) && CanMove(Moved(s, m), m) && (three ==> CanMove(Moved(Moved(s, m), m), m))
    ensures var b := Moved(Moved(s, m), m);
      if three then CanRun(s, [m, m, m]) && Run(s, [m, m, m]) == Moved(b, m) else CanRun(s, [m, m]) && Run(s, [m, m]) == b
  {
    hide Moved, CanMove;
    var a := Moved(s, m);
    var b := Moved(a, m);
    Stands(b);
    if three {
      Stands(Moved(b, m));
      MovesFirst(b, m, []);
      MovesFirst(a, m, [m]);
      MovesFirst(s, m, [m, m]);
      assert [m] + [m, m] == [m, m, m];
    } else {
      MovesFirst(a, m, []);
      MovesFirst(s, m, [m]);
    }
    assert [m] + [m] == [m, m] && [m] + [] == [m];
  }

  lemma Stands(s: Session)
    ensures Run(s, []) == s
  {
  }

  lemma MovesFirst(s: Session, m: Move, moves: seq<Move>)
    requires CanMove(s, m) && CanRun(Moved(s, m), moves)
    ensures CanRun(s, [m] + moves) && Run(s, [m] + moves) == Run(Moved(s, m), moves)
  {
    assert ([m] + moves)[1..] == moves;
  }

  /** A round of the pump takes what waits in the socket, if anything does, then looks at the
      device, and it ends the pump exactly if the device is lost. */
  lemma PumpRound(s: Session, pending: bool, lost: bool)
    requires Inv(s) && s.pump.PumpTop? && !s.stop && !s.closer.Freed?
    ensures var m := PumpMove(pending, lost);
      var round := if pending then [m, m, m] else [m, m];
      && CanRun(s, round)
      && (Moved(s, m).pump.PumpOut? <==> pending)
      && Run(s, round) == s.(pump := if lost then PumpShutdown else PumpTop)
  {
    Onwards(s, PumpMove(pending, lost), pending);
  }

  function PumpLeft(p: Pump): nat {
    match p
    case PumpOut => 4
    case PumpIn => 3
    case PumpTop => 2
    case PumpShutdown => 1
    case _ => 0
  }

  function DogLeft(w: Watchdog): nat {
    match w
    case DogLooking => 3
    case DogAsking => 2
    case DogWaiting => 1
    case DogForcing => 1
    case DogTop => 1
    case _ => 0
  }

  function CloserLeft(c: Closer): nat {
    match c
    case Open => 8
    case FlagSet => 7
    case SocketShut => 6
    case JoinPump => 5
    case JoinWatchdog => 4
    case ReadForced => 3
    case Releasing => 2
    case HandleGone => 1
    case Freed => 0
  }

  /** Steps left once close has begun. */
  function Left(s: Session): nat {
    PumpLeft(s.pump) + DogLeft(s.watchdog) + CloserLeft(s.closer)
  }

  lemma EveryMoveCounts(s: Session, m: Move)
    requires s.stop && !s.closer.Open? && CanMove(s, m)
    ensures Moved(s, m).stop && !Moved(s, m).closer.Open?
    ensures Left(Moved(s, m)) < Left(s)
  {
    hide PumpStep, DogStep, CloserStep, PumpLeft, DogLeft, CloserLeft, UseHandle;
    match m
    case Started =>
    case PumpMove(pending, lost) => PumpMoveCounts(TouchState(s), pending, lost);
    case DogMove(present, active) => DogMoveCounts(TouchState(s), present, active);
    case CloserMove => CloserMoveCounts(TouchState(s));
  }

  lemma PumpMoveCounts(s: Session, pending: bool, lost: bool)
    requires s.stop && !s.pump.PumpUnborn? && !s.pump.PumpDone?
    ensures var n := PumpStep(s, pending, lost);
      PumpLeft(n.pump) < PumpLeft(s.pump) && n.watchdog == s.watchdog && n.closer == s.closer && n.stop
  {
  }

  lemma DogMoveCounts(s: Session, present: bool, active: bool)
    requires s.stop && !s.watchdog.DogUnborn? && !s.watchdog.DogDone?
    ensures var n := DogStep(s, present, active);
      DogLeft(n.watchdog) < DogLeft(s.watchdog) && n.pump == s.pump && n.closer == s.closer && n.stop
  {
  }

  lemma CloserMoveCounts(s: Session)
    requires s.stop && !s.closer.Open? && !s.closer.Freed?
    ensures var n := CloserStep(s);
      CloserLeft(n.closer) < CloserLeft(s.closer) && n.pump == s.pump && n.watchdog == s.watchdog && n.stop && !n.closer.Open?
  {
  }

  /** Once close has begun it returns, whatever the scheduler does: at most 14 more steps
      happen, and until the state is freed some thread can take one -- although the stop flag
      is stored without the watchdog's mutex, so its notification may come too early. */
  lemma {:induction false} CloseReturns(s: Session, moves: seq<Move>)
    requires s.stop && !s.closer.Open? && CanRun(s, moves)
    ensures |moves| + Left(Run(s, moves)) <= Left(s) <= 14
    ensures !Run(s, moves).closer.Freed? ==> exists m :: CanMove(Run(s, moves), m)
    decreases |moves|
  {
    if moves == [] {
      if !s.closer.Freed? {
        assert CanMove(s, CloserMove) || CanMove(s, PumpMove(false, false)) || CanMove(s, DogMove(true, false));
      }
    } else {
      EveryMoveCounts(s, moves[0]);
      CloseReturns(Moved(s, moves[0]), moves[1..]);
    }
  }
}

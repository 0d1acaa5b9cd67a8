// The single-slot mailbox of src/functionfs-backend.c: functionfs_send_input_report stages a
// report, the in_loop thread takes it and writes it to the endpoint, functionfs_close ends
// that thread.  `device_open` is read and cleared without the mutex, so both threads advance
// here by single steps -- one shared access each, reports copied byte by byte.
//
// The device has one in_loop.  FunctionFsThreads proves exactly when the daemon keeps to that,
// SharedMailbox what closing comes to when it does not.
module FunctionFsMailbox {
  import opened Crc32

  const SLOT_SIZE: nat := 64

  datatype Owner = Free | InThread | MainThread

  /** in_loop's position. */
  datatype InLoop =
    | Top                       // while (device_open)
    | Locking                   // pthread_mutex_lock, or waking up inside pthread_cond_wait
    | Testing                   // inner while: about to read device_open and report_pending
    | AboutToWait               // condition held, pthread_cond_wait not entered yet
    | Asleep                    // in pthread_cond_wait, mutex released
    | Rechecking                // inner while left: about to read device_open again
    | Copying(len: nat, k: nat) // memcpy to local_buf
    | Writing                   // mutex released, write() to the endpoint
    | Returned

  /** The main thread: it both sends reports and closes the device. */
  datatype Main =
    | Idle
    | SendLocking(report: seq<byte>)
    | SendCopying(report: seq<byte>, k: nat)
    | Cleared                   // device_open cleared, mutex not taken yet
    | CloseLocked
    | CloseSignalled            // signalled, mutex still held
    | Joining
    | Closed

  datatype Device = Device(
    open: bool,
    owner: Owner,
    slot: seq<byte>,
    slotLen: nat,
    slotPending: bool,
    local: seq<byte>,
    inLoop: InLoop,
    main: Main,
    // History: the reports staged, and those taken with the number staged at that time.
    staged: seq<seq<byte>>,
    taken: seq<seq<byte>>,
    stamps: seq<nat>)

  const INITIAL := Device(true, Free, seq(SLOT_SIZE, _ => 0), 0, false, seq(SLOT_SIZE, _ => 0), Top, Idle, [], [], [])

  /** The buffers have the size the source declares and every copy stays inside them. */
  ghost predicate InBounds(d: Device) {
    && |d.slot| == |d.local| == SLOT_SIZE && d.slotLen <= SLOT_SIZE
    && (d.inLoop.Copying? ==> d.inLoop.k <= d.inLoop.len <= SLOT_SIZE)
    && (d.main.SendLocking? ==> |d.main.report| <= SLOT_SIZE)
    && (d.main.SendCopying? ==> d.main.k <= |d.main.report| <= SLOT_SIZE)
  }

  datatype Step =
    | In                         // in_loop advances by one step
    | SpuriousWake
    | Send(report: seq<byte>)    // functionfs_send_input_report called, past its two checks
    | Close                      // functionfs_close called
    | MainStep                   // the main thread advances inside either call

  predicate Enabled(d: Device, s: Step) {
    match s
    case In => !d.inLoop.Asleep? && !d.inLoop.Returned? && (d.inLoop.Locking? ==> d.owner.Free?)
    case SpuriousWake => d.inLoop.Asleep?
    case Send(report) => d.main.Idle? && |report| <= SLOT_SIZE
    case Close => d.main.Idle?
    case MainStep =>
      match d.main {
        case Idle => false
        case SendLocking(_) => d.owner.Free?
        case Cleared => d.owner.Free?
        case Joining => d.inLoop.Returned?
        case Closed => false
        case _ => true
      }
  }

  function Signalled(t: InLoop): InLoop {
    if t.Asleep? then Locking else t
  }

  function InStep(d: Device): (d': Device)
    requires InBounds(d)
    ensures InBounds(d')
  {
    match d.inLoop
    case Top => d.(inLoop := if d.open then Locking else Returned)
    case Locking => d.(owner := InThread, inLoop := Testing)
    case Testing => d.(inLoop := if d.open && !d.slotPending then AboutToWait else Rechecking)
    case AboutToWait => d.(owner := Free, inLoop := Asleep)
    case Rechecking =>
      if d.open then d.(inLoop := Copying(d.slotLen, 0)) else d.(owner := Free, inLoop := Returned)
    case Copying(len, k) =>
      if k < len then
        d.(local := d.local[k := d.slot[k]], inLoop := Copying(len, k + 1))
      else
        d.(slotPending := false, owner := Free, inLoop := Writing,
           taken := d.taken + [d.local[..len]], stamps := d.stamps + [|d.staged|])
    case Writing => d.(inLoop := Top)
    case _ => d
  }

  function MainStepped(d: Device): (d': Device)
    requires InBounds(d)
    ensures InBounds(d')
  {
    match d.main
    case SendLocking(report) => d.(owner := MainThread, main := SendCopying(report, 0))
    case SendCopying(report, k) =>
      if k < |report| then
        d.(slot := d.slot[k := report[k]], main := SendCopying(report, k + 1))
      else
        d.(slotLen := |report|, slotPending := true, inLoop := Signalled(d.inLoop), owner := Free,
           main := Idle, staged := d.staged + [report])
    case Cleared => d.(owner := MainThread, main := CloseLocked)
    case CloseLocked => d.(inLoop := Signalled(d.inLoop), main := CloseSignalled)
    case CloseSignalled => d.(owner := Free, main := Joining)
    case Joining => d.(main := Closed)
    case _ => d
  }

  function Apply(d: Device, s: Step): (d': Device)
    requires InBounds(d) && Enabled(d, s)
    ensures InBounds(d')
  {
    match s
    case In => InStep(d)
    case SpuriousWake => d.(inLoop := Locking)
    case Send(report) => d.(main := SendLocking(report))
    case Close => d.(open := false, main := Cleared)
    case MainStep => MainStepped(d)
  }

  ghost predicate CanRun(d: Device, steps: seq<Step>)
    requires InBounds(d)
    decreases |steps|
  {
    steps == [] || (Enabled(d, steps[0]) && CanRun(Apply(d, steps[0]), steps[1..]))
  }

  ghost function Run(d: Device, steps: seq<Step>): (d': Device)
    requires InBounds(d) && CanRun(d, steps)
    ensures InBounds(d')
    decreases |steps|
  {
    if steps == [] then d else Run(Apply(d, steps[0]), steps[1..])
  }

  // ------------------------------------------------------------------------ the invariant

  function LastStamp(d: Device): nat {
    if d.stamps == [] then 0 else d.stamps[|d.stamps| - 1]
  }

  /** Mutual exclusion, and what `open` says about the closing thread. */
  ghost predicate Locks(d: Device) {
    && (d.owner.InThread? <==>
          d.inLoop.Testing? || d.inLoop.AboutToWait? || d.inLoop.Rechecking? || d.inLoop.Copying?)
    && (d.owner.MainThread? <==> d.main.SendCopying? || d.main.CloseLocked? || d.main.CloseSignalled?)
    && (d.open <==> d.main.Idle? || d.main.SendLocking? || d.main.SendCopying?)
    && (d.inLoop.Rechecking? || d.inLoop.Copying? ==> d.slotPending || !d.open)
    && (d.inLoop.Copying? ==> d.slotPending)
  }

  /** The slot holds the newest staged report whenever the sender is not inside its copy; that
      report was not taken yet if and only if the slot is marked. */
  ghost predicate SlotHolds(d: Device)
    requires InBounds(d)
  {
    && LastStamp(d) <= |d.staged|
    && (d.slotPending <==> LastStamp(d) < |d.staged|)
    && (d.main.SendCopying? ==> d.slot[..d.main.k] == d.main.report[..d.main.k])
    && (d.slotPending && !d.main.SendCopying? ==>
          d.slot[..d.slotLen] == d.staged[|d.staged| - 1])
    && (d.inLoop.Copying? ==>
          d.inLoop.len == d.slotLen && d.local[..d.inLoop.k] == d.slot[..d.inLoop.k])
  }

  /** Each report taken is, byte for byte, the newest one staged at that time. */
  ghost predicate InOrder(staged: seq<seq<byte>>, taken: seq<seq<byte>>, stamps: seq<nat>) {
    && |stamps| == |taken|
    && (forall i :: 0 <= i < |taken| ==> 0 < stamps[i] <= |staged| && taken[i] == staged[stamps[i] - 1])
    && (forall i, j :: 0 <= i < j < |taken| ==> stamps[i] < stamps[j])
  }

  /** Once the closing thread has signalled, in_loop is neither asleep nor about to be. */
  ghost predicate CloseIsHeard(d: Device) {
    d.main.CloseSignalled? || d.main.Joining? || d.main.Closed? ==>
      !d.inLoop.Asleep? && !d.inLoop.AboutToWait?
  }

  /** No wake-up is lost: while the device is open in_loop is running, and with a report in the
      slot it is neither asleep nor about to be. */
  ghost predicate SlotIsHeard(d: Device) {
    d.open ==> !d.inLoop.Returned? && (d.slotPending ==> !d.inLoop.Asleep? && !d.inLoop.AboutToWait?)
  }

  ghost predicate Inv(d: Device) {
    InBounds(d) && Locks(d) && SlotHolds(d) && InOrder(d.staged, d.taken, d.stamps) && CloseIsHeard(d) && SlotIsHeard(d)
  }

  lemma LocksHold(d: Device, s: Step)
    requires Inv(d) && Enabled(d, s)
    ensures Locks(Apply(d, s)) && CloseIsHeard(Apply(d, s)) && SlotIsHeard(Apply(d, s))
  {
    hide InOrder, SlotHolds;
  }

  lemma SlotStillHolds(d: Device, s: Step)
    requires Inv(d) && Enabled(d, s)
    ensures SlotHolds(Apply(d, s))
  {
    hide InOrder;
    var d' := Apply(d, s);
    if s.In? && d.inLoop.Copying? && d.inLoop.k < d.inLoop.len {
      assert d'.local[..d.inLoop.k + 1] == d.local[..d.inLoop.k] + [d.slot[d.inLoop.k]];
    } else if s.MainStep? && d.main.SendCopying? {
      if d.main.k < |d.main.report| {
        assert d'.slot[..d.main.k + 1] == d.slot[..d.main.k] + [d.main.report[d.main.k]];
      } else {
        assert d'.slot[..d'.slotLen] == d.main.report;
      }
    }
  }

  lemma StillInOrder(d: Device, s: Step)
    requires Inv(d) && Enabled(d, s)
    ensures var d' := Apply(d, s); InOrder(d'.staged, d'.taken, d'.stamps)
  {
    if s.In? && d.inLoop.Copying? && d.inLoop.k == d.inLoop.len {
      assert d.local[..d.inLoop.len] == d.staged[|d.staged| - 1];
      OneMoreTaken(d.staged, d.taken, d.stamps);
    }
  }

  lemma OneMoreTaken(staged: seq<seq<byte>>, taken: seq<seq<byte>>, stamps: seq<nat>)
    requires InOrder(staged, taken, stamps)
    requires staged != [] && (stamps != [] ==> stamps[|stamps| - 1] < |staged|)
    ensures InOrder(staged, taken + [staged[|staged| - 1]], stamps + [|staged|])
  {
    forall i | 0 <= i < |stamps|
      ensures stamps[i] < |staged|
    {
      assert stamps[i] <= stamps[|stamps| - 1];
    }
  }

  lemma InvHolds(d: Device, s: Step)
    requires Inv(d) && Enabled(d, s)
    ensures Inv(Apply(d, s))
  {
    hide InOrder, SlotHolds, Locks, CloseIsHeard, SlotIsHeard;
    LocksHold(d, s);
    SlotStillHolds(d, s);
    StillInOrder(d, s);
  }

  lemma {:induction false} InvHoldsAlways(d: Device, steps: seq<Step>)
    requires Inv(d) && CanRun(d, steps)
    ensures Inv(Run(d, steps))
    decreases |steps|
  {
    hide InOrder, SlotHolds, Locks, CloseIsHeard, SlotIsHeard;
    if steps != [] {
      InvHolds(d, steps[0]);
      InvHoldsAlways(Apply(d, steps[0]), steps[1..]);
    }
  }

  // ------------------------------------------------------------------------- guarantees

  /** In every interleaving: reports are taken whole, at most once, in staging order, and an
      empty slot means the newest one staged was taken. */
  lemma ReportsAreHandedOver(steps: seq<Step>)
    requires CanRun(INITIAL, steps)
    ensures var d := Run(INITIAL, steps);
      && InOrder(d.staged, d.taken, d.stamps)
      && (!d.slotPending && d.staged != [] ==>
            d.taken != [] && d.taken[|d.taken| - 1] == d.staged[|d.staged| - 1])
  {
    InvHoldsAlways(INITIAL, steps);
  }

  /** Steps in_loop is away from having taken a report that waits. */
  function Ahead(t: InLoop): nat {
    match t
    case Copying(len, k) => 1 + if k < len then len - k else 0
    case Rechecking => 2 + SLOT_SIZE
    case Testing => 3 + SLOT_SIZE
    case Locking => 4 + SLOT_SIZE
    case Top => 5 + SLOT_SIZE
    case Writing => 6 + SLOT_SIZE
    case _ => 0
  }

  /** A report in the slot of an open device is on its way: in_loop is awake, it can go on whenever
      the sender is not inside its copy, each of its steps brings it nearer to taking the report,
      and nothing else but closing sets it back. */
  lemma PendingIsOnItsWay(d: Device, s: Step)
    requires Inv(d) && d.slotPending && d.open && Enabled(d, s) && !s.Close?
    ensures d.owner.MainThread? || Enabled(d, In)
    ensures var n := Apply(d, s);
      if s.In? then (n.taken == d.taken && n.slotPending && Ahead(n.inLoop) < Ahead(d.inLoop)) || |n.taken| == |d.taken| + 1
      else n.taken == d.taken && n.slotPending && n.inLoop == d.inLoop
  {
    hide InOrder, SlotHolds;
  }

  /** Once the flag is cleared no more is taken than what in_loop was copying just then. */
  lemma {:induction false} NothingTakenAfterClose(d: Device, steps: seq<Step>)
    requires Inv(d) && Closing(d.main) && CanRun(d, steps)
    ensures var n := Run(d, steps);
      if d.inLoop.Copying? then |n.taken| <= |d.taken| + 1 else n.taken == d.taken
    decreases |steps|
  {
    hide SlotHolds, InOrder, CloseIsHeard, SlotIsHeard, Locks;
    if steps != [] {
      ClosedStep(d, steps[0]);
      InvHolds(d, steps[0]);
      NothingTakenAfterClose(Apply(d, steps[0]), steps[1..]);
    }
  }

  lemma ClosedStep(d: Device, s: Step)
    requires Inv(d) && Closing(d.main) && Enabled(d, s)
    ensures var n := Apply(d, s);
      && Closing(n.main)
      && (if d.inLoop.Copying? then n.taken == d.taken || (|n.taken| == |d.taken| + 1 && !n.inLoop.Copying?)
          else n.taken == d.taken && !n.inLoop.Copying?)
  {
    hide SlotHolds, InOrder;
  }

  /** After functionfs_close has signalled, in_loop is never in or entering the condition
      wait, although device_open was cleared outside the mutex. */
  lemma NeverAsleepAfterClose(steps: seq<Step>)
    requires CanRun(INITIAL, steps)
    ensures CloseIsHeard(Run(INITIAL, steps))
  {
    InvHoldsAlways(INITIAL, steps);
  }

  /** Steps in_loop has left once the device is closing. */
  function Remaining(t: InLoop): nat {
    match t
    case Returned => 0
    case Top => 1
    case Writing => 2
    case Copying(len, k) => 3 + if k < len then len - k else 0
    case Rechecking => 4 + SLOT_SIZE
    case Testing => 5 + SLOT_SIZE
    case Locking => 6 + SLOT_SIZE
    case Asleep => 7 + SLOT_SIZE
    case AboutToWait => 8 + SLOT_SIZE
  }

  /** ... so the join returns: from then on in_loop can always move once the mutex is free,
      each of its steps brings it closer to returning, and nothing else sets it back. */
  lemma CloseTerminates(steps: seq<Step>, s: Step)
    requires CanRun(INITIAL, steps)
    requires var d := Run(INITIAL, steps); (d.main.CloseSignalled? || d.main.Joining?) && Enabled(d, s)
    ensures var d := Run(INITIAL, steps);
      && (d.main.Joining? && !d.inLoop.Returned? ==> Enabled(d, In))
      && (s.In? ==> Remaining(Apply(d, s).inLoop) < Remaining(d.inLoop))
      && (!s.In? ==> Apply(d, s).inLoop == d.inLoop)
  {
    InvHoldsAlways(INITIAL, steps);
  }

  /** Steps the closing thread has left. */
  function ToClose(m: Main): nat {
    match m
    case Cleared => 4
    case CloseLocked => 3
    case CloseSignalled => 2
    case Joining => 1
    case _ => 0
  }

  predicate Closing(m: Main) {
    m.Cleared? || m.CloseLocked? || m.CloseSignalled? || m.Joining? || m.Closed?
  }

  function Left(d: Device): nat {
    Remaining(d.inLoop) + ToClose(d.main)
  }

  lemma EveryStepCounts(d: Device, s: Step)
    requires Inv(d) && Closing(d.main) && Enabled(d, s)
    ensures Closing(Apply(d, s).main) && Left(Apply(d, s)) < Left(d)
  {
    hide InOrder, SlotHolds;
  }

  lemma SomeStepIsEnabled(d: Device)
    requires Inv(d) && Closing(d.main)
    ensures d.main.Closed? || Enabled(d, In) || Enabled(d, MainStep)
  {
    hide InOrder, SlotHolds;
  }

  /** From the moment functionfs_close clears the flag, every schedule ends: at most 76 steps
      happen in all, and until the join has returned some thread can take one without having to
      wait for a spurious wake-up. */
  lemma {:induction false} CloseReturns(d: Device, steps: seq<Step>)
    requires Inv(d) && Closing(d.main) && CanRun(d, steps)
    ensures |steps| + Left(Run(d, steps)) <= Left(d) <= 76
    ensures var e := Run(d, steps); e.main.Closed? || Enabled(e, In) || Enabled(e, MainStep)
    decreases |steps|
  {
    hide Locks, SlotHolds, InOrder, CloseIsHeard, SlotIsHeard, Left, Enabled, Closing;
    LeftIsBounded(d);
    if steps == [] {
      SomeStepIsEnabled(d);
    } else {
      EveryStepCounts(d, steps[0]);
      InvHolds(d, steps[0]);
      CloseReturns(Apply(d, steps[0]), steps[1..]);
    }
  }

  lemma LeftIsBounded(d: Device)
    requires Inv(d)
    ensures Left(d) <= 76
  {
    hide InOrder, SlotHolds, Locks;
  }

  // ---------------------------------------------------------------------------- the code

  function Times(s: Step, n: nat): seq<Step> {
    seq(n, _ => s)
  }

  /** functionfs_send_input_report and one turn of in_loop when nothing comes in between. */
  function SentAtOnce(d: Device, report: seq<byte>): Device
    requires InBounds(d) && |report| <= SLOT_SIZE
  {
    d.(slot := report + d.slot[|report|..], slotLen := |report|, slotPending := true,
       inLoop := Signalled(d.inLoop), staged := d.staged + [report])
  }

  function TakenAtOnce(d: Device): Device
    requires InBounds(d)
  {
    d.(local := d.slot[..d.slotLen] + d.local[d.slotLen..], slotPending := false, inLoop := Writing,
       taken := d.taken + [d.slot[..d.slotLen]], stamps := d.stamps + [|d.staged|])
  }

  lemma {:induction false} CopyingIn(d: Device)
    requires InBounds(d) && d.main.SendCopying? && d.slot[..d.main.k] == d.main.report[..d.main.k]
    ensures var r, left := d.main.report, |d.main.report| - d.main.k;
      && CanRun(d, Times(MainStep, left + 1))
      && Run(d, Times(MainStep, left + 1)) == SentAtOnce(d, r).(owner := Free, main := Idle)
    decreases |d.main.report| - d.main.k
  {
    var r, k := d.main.report, d.main.k;
    var n := Apply(d, MainStep);
    assert Times(MainStep, |r| - k + 1)[1..] == Times(MainStep, |r| - k);
    if k < |r| {
      assert n.slot[..k + 1] == d.slot[..k] + [r[k]] == r[..k + 1];
      CopyingIn(n);
      assert r + n.slot[|r|..] == r + d.slot[|r|..];
    } else {
      assert r[..k] == r && d.slot == d.slot[..k] + d.slot[k..];
      assert CanRun(n, []) && Run(n, []) == n;
    }
  }

  /** The locked copy of the sender is what its single steps amount to. */
  lemma SendIsItsSteps(d: Device, report: seq<byte>)
    requires InBounds(d) && d.main.Idle? && d.owner.Free? && |report| <= SLOT_SIZE
    ensures var steps := [Send(report), MainStep] + Times(MainStep, |report| + 1);
      CanRun(d, steps) && Run(d, steps) == SentAtOnce(d, report)
  {
    var a := Apply(d, Send(report));
    var b := Apply(a, MainStep);
    var rest := Times(MainStep, |report| + 1);
    CopyingIn(b);
    assert ([Send(report), MainStep] + rest)[1..] == [MainStep] + rest;
    assert ([MainStep] + rest)[1..] == rest;
    assert Run(a, [MainStep] + rest) == Run(b, rest);
  }

  lemma {:induction false} CopyingOut(d: Device)
    requires InBounds(d) && d.inLoop.Copying? && d.inLoop.len == d.slotLen && d.local[..d.inLoop.k] == d.slot[..d.inLoop.k]
    ensures var left := d.inLoop.len - d.inLoop.k;
      CanRun(d, Times(In, left + 1)) && Run(d, Times(In, left + 1)) == TakenAtOnce(d).(owner := Free)
    decreases d.inLoop.len - d.inLoop.k
  {
    var len, k := d.inLoop.len, d.inLoop.k;
    var n := Apply(d, In);
    assert Times(In, len - k + 1)[1..] == Times(In, len - k);
    if k < len {
      assert n.local[..k + 1] == d.local[..k] + [d.slot[k]] == d.slot[..k + 1];
      CopyingOut(n);
      assert n.local[len..] == d.local[len..];
    } else {
      assert d.local == d.local[..len] + d.local[len..];
      assert CanRun(n, []) && Run(n, []) == n;
    }
  }

  /** ... and so is the locked copy of in_loop, once it finds a report. */
  lemma TakeIsItsSteps(d: Device)
    requires InBounds(d) && d.inLoop.Locking? && d.owner.Free? && d.open && d.slotPending
    ensures var steps := [In, In, In] + Times(In, d.slotLen + 1);
      CanRun(d, steps) && Run(d, steps) == TakenAtOnce(d)
  {
    var a := Apply(d, In);
    var b := Apply(a, In);
    var c := Apply(b, In);
    var rest := Times(In, d.slotLen + 1);
    CopyingOut(c);
    assert ([In, In, In] + rest)[1..] == [In, In] + rest;
    assert ([In, In] + rest)[1..] == [In] + rest;
    assert ([In] + rest)[1..] == rest;
    assert Run(b, [In] + rest) == Run(c, rest) && Run(a, [In, In] + rest) == Run(b, [In] + rest);
  }

  class FunctionFsDevice {
    const pendingReport: array<byte>
    const localBuf: array<byte>
    var deviceOpen: bool
    var pendingReportLen: nat
    var reportPending: bool
    ghost var inLoop: InLoop
    ghost var main: Main
    ghost var staged: seq<seq<byte>>
    ghost var taken: seq<seq<byte>>
    ghost var stamps: seq<nat>

    ghost predicate Valid()
      reads this, pendingReport, localBuf
    {
      pendingReport != localBuf && pendingReport.Length == localBuf.Length == SLOT_SIZE && InBounds(View())
    }

    /** With the mutex free. */
    ghost function View(): Device
      reads this, pendingReport, localBuf
    {
      Device(deviceOpen, Free, pendingReport[..], pendingReportLen, reportPending, localBuf[..], inLoop, main,
             staged, taken, stamps)
    }

    /** Refused while the host has not configured the device, and when the report is too long. */
    method SendInputReport(report: seq<byte>, configured: bool) returns (ok: bool)
      requires Valid() && main.Idle?
      modifies this, pendingReport
      ensures Valid() && ok == (configured && |report| <= 64)
      ensures View() == if ok then SentAtOnce(old(View()), report) else old(View())
    {
      if !configured || |report| > pendingReport.Length {
        return false;
      }
      for k := 0 to |report|
        invariant unchanged(this) && pendingReport[..k] == report[..k] && pendingReport[k..] == old(pendingReport[k..])
      {
        pendingReport[k] := report[k];
      }
      assert pendingReport[..] == report + old(pendingReport[..])[|report|..];
      pendingReportLen := |report|;
      reportPending := true;
      inLoop, staged := Signalled(inLoop), staged + [report];
      return true;
    }

    /** in_loop from the mutex to the unlock: nothing to take, closed, or a report copied out. */
    method Take() returns (len: nat, got: bool)
      requires Valid() && inLoop.Locking?
      modifies this, localBuf
      ensures Valid() && got == (deviceOpen && old(reportPending))
      ensures View() == if got then TakenAtOnce(old(View())) else old(View())
      ensures got ==> len == pendingReportLen && localBuf[..len] == pendingReport[..len]
    {
      if !deviceOpen || !reportPending {
        return 0, false;
      }
      len := pendingReportLen;
      for k := 0 to len
        invariant unchanged(this) && localBuf[..k] == pendingReport[..k] && localBuf[k..] == old(localBuf[k..])
      {
        localBuf[k] := pendingReport[k];
      }
      assert localBuf[..] == pendingReport[..len] + old(localBuf[..])[len..];
      assert pendingReport[..][..len] == pendingReport[..len];
      reportPending := false;
      inLoop, taken, stamps := Writing, taken + [pendingReport[..len]], stamps + [|staged|];
      got := true;
    }
  }
}

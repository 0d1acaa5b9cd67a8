// BtOutputPacer of src/main.cpp: rumble/LED reports to a Bluetooth controller are capped at
// one per 25 ms, always carrying the newest state, with a lazily started flush thread that
// writes whatever was held back.
//
// Every critical section of the source holds the mutex from start to finish, so the protocol
// is a state machine whose steps are those sections plus what the scheduler may do to the
// flush thread.  `Pacer` is its state, `Apply` its transition function, and a run is any list
// of enabled events; the class below is the code, proved to take exactly these steps.
module BtOutputPacer {
  import opened Reports

  /** kMinInterval, in steady_clock ticks (nanoseconds). */
  const MIN_INTERVAL: nat := 25_000_000

  datatype Submission = Submission(fd: int, state: OutputState)

  /** One write to a controller: what was written, the recorded time, and how many
      submissions had been made when it happened. */
  datatype Write = Write(what: Submission, time: nat, stamp: nat)

  /** Where the flush thread is.  `Ready` has yet to take the mutex. */
  datatype Thread = NotStarted | Ready | Waiting | WaitingUntil(due: nat) | Exited

  datatype Pacer = Pacer(
    stopping: bool,
    pending: bool,
    held: Submission,
    lastWrite: nat,
    thread: Thread,
    // What the steps below do not read: the newest clock reading, the number of threads ever
    // started, whether stop() has signalled, and the history of submissions and writes.
    clock: nat,
    spawned: nat,
    stopSignalled: bool,
    submitted: seq<Submission>,
    writes: seq<Write>)

  const NOTHING := Submission(-1, OutputState(0, 0, 0, 0, 0))

  const INITIAL := Pacer(false, false, NOTHING, 0, NotStarted, 0, 0, false, [], [])

  datatype Event =
    | Submit(what: Submission, now: nat)
    | Discard
    | StopSet                             // stop(): the locked part
    | StopNotify                          // stop(): notify_one after unlocking
    | Wake                                // time-out, or a spurious wake-up
    | Flush(first: nat, second: nat)      // the thread runs until it blocks; its clock readings

  predicate Enabled(p: Pacer, e: Event) {
    match e
    case Submit(_, now) => p.clock <= now
    case Discard => true
    case StopSet => true
    case StopNotify => p.stopping
    case Wake => p.thread.Waiting? || p.thread.WaitingUntil?
    case Flush(first, second) => p.thread.Ready? && p.clock <= first <= second
  }

  function Notified(t: Thread): Thread {
    if t.Waiting? || t.WaitingUntil? then Ready else t
  }

  function WriteNow(p: Pacer, what: Submission, now: nat): Pacer {
    p.(lastWrite := now, clock := now, writes := p.writes + [Write(what, now, |p.submitted|)])
  }

  function Submitted(p: Pacer, what: Submission, now: nat): Pacer {
    var q := p.(clock := now, submitted := p.submitted + [what]);
    if !q.pending && now - q.lastWrite >= MIN_INTERVAL then
      WriteNow(q, what, now)
    else if q.thread.NotStarted? && !q.stopping then
      q.(pending := true, held := what, thread := Ready, spawned := q.spawned + 1)
    else
      q.(pending := true, held := what, thread := Notified(q.thread))
  }

  /** The flush thread, from taking the mutex until it blocks or returns. */
  function Flushed(p: Pacer, first: nat, second: nat): Pacer
    requires first <= second
  {
    if p.stopping then p.(thread := Exited)
    else if !p.pending then p.(thread := Waiting)
    else if first < p.lastWrite + MIN_INTERVAL then
      p.(clock := first, thread := WaitingUntil(p.lastWrite + MIN_INTERVAL))
    else
      WriteNow(p, p.held, second).(pending := false, thread := Waiting)
  }

  function Apply(p: Pacer, e: Event): Pacer
    requires Enabled(p, e)
  {
    match e
    case Submit(what, now) => Submitted(p, what, now)
    case Discard => p.(pending := false, held := p.held.(fd := -1))
    case StopSet => p.(pending := false, stopping := true)
    case StopNotify => p.(thread := Notified(p.thread), stopSignalled := true)
    case Wake => p.(thread := Ready)
    case Flush(first, second) => Flushed(p, first, second)
  }

  /** Whether every event of `es` is enabled when its turn comes. */
  predicate CanRun(p: Pacer, es: seq<Event>)
    decreases |es|
  {
    es == [] || (Enabled(p, es[0]) && CanRun(Apply(p, es[0]), es[1..]))
  }

  function Run(p: Pacer, es: seq<Event>): Pacer
    requires CanRun(p, es)
    decreases |es|
  {
    if es == [] then p else Run(Apply(p, es[0]), es[1..])
  }

  // ------------------------------------------------------------------------ the invariant

  /** Each write carries the newest submission of its time, and no submission is written twice
      or after a newer one. */
  ghost predicate InOrder(submitted: seq<Submission>, writes: seq<Write>) {
    && (forall i :: 0 <= i < |writes| ==>
          0 < writes[i].stamp <= |submitted| && writes[i].what == submitted[writes[i].stamp - 1])
    && (forall i, j :: 0 <= i < j < |writes| ==> writes[i].stamp < writes[j].stamp)
  }

  ghost predicate Spaced(writes: seq<Write>) {
    forall i, j :: 0 <= i < j < |writes| ==> writes[i].time + MIN_INTERVAL <= writes[j].time
  }

  function LastStamp(p: Pacer): nat {
    if p.writes == [] then 0 else p.writes[|p.writes| - 1].stamp
  }

  ghost predicate Inv(p: Pacer) {
    && p.lastWrite <= p.clock
    && p.spawned == (if p.thread.NotStarted? then 0 else 1)
    && InOrder(p.submitted, p.writes)
    && Spaced(p.writes)
    && LastWriteTime(p) == p.lastWrite
    && (p.pending ==> LastStamp(p) < |p.submitted| && p.held == p.submitted[|p.submitted| - 1])
    && (p.thread.WaitingUntil? ==> p.thread.due <= p.lastWrite + MIN_INTERVAL)
    // No lost wake-up: with something to write, the thread is on its way to the mutex or
    // asleep no longer than until the report is due.
    && (p.pending && !p.stopping ==>
          p.thread.Ready? || p.thread == WaitingUntil(p.lastWrite + MIN_INTERVAL))
    && (p.thread.Exited? ==> p.stopping)
    && (p.stopSignalled ==> p.stopping && !p.thread.Waiting? && !p.thread.WaitingUntil?)
  }

  lemma SubmissionKeepsOrder(submitted: seq<Submission>, writes: seq<Write>, what: Submission)
    requires InOrder(submitted, writes)
    ensures InOrder(submitted + [what], writes)
  {
  }

  lemma OneMoreInOrder(submitted: seq<Submission>, writes: seq<Write>, w: Write)
    requires InOrder(submitted, writes)
    requires 0 < w.stamp <= |submitted| && w.what == submitted[w.stamp - 1]
    requires writes != [] ==> writes[|writes| - 1].stamp < w.stamp
    ensures InOrder(submitted, writes + [w])
  {
    var all := writes + [w];
    forall i | 0 <= i < |all|
      ensures 0 < all[i].stamp <= |submitted| && all[i].what == submitted[all[i].stamp - 1]
    {
      assert i < |writes| ==> all[i] == writes[i];
    }
    forall i, j | 0 <= i < j < |all|
      ensures all[i].stamp < all[j].stamp
    {
      assert writes[i].stamp <= writes[|writes| - 1].stamp;
    }
  }

  lemma OneMoreSpaced(writes: seq<Write>, w: Write)
    requires Spaced(writes)
    requires writes != [] ==> writes[|writes| - 1].time + MIN_INTERVAL <= w.time
    ensures Spaced(writes + [w])
  {
    var all := writes + [w];
    forall i, j | 0 <= i < j < |all|
      ensures all[i].time + MIN_INTERVAL <= all[j].time
    {
      assert writes[i].time <= writes[|writes| - 1].time;
    }
  }

  lemma WriteKeepsOrder(p: Pacer, what: Submission, now: nat)
    requires InOrder(p.submitted, p.writes) && Spaced(p.writes)
    requires LastStamp(p) < |p.submitted| && what == p.submitted[|p.submitted| - 1]
    requires p.writes != [] ==> p.writes[|p.writes| - 1].time + MIN_INTERVAL <= now
    ensures InOrder(p.submitted, WriteNow(p, what, now).writes)
    ensures Spaced(WriteNow(p, what, now).writes)
  {
    hide InOrder, Spaced;
    OneMoreInOrder(p.submitted, p.writes, Write(what, now, |p.submitted|));
    OneMoreSpaced(p.writes, Write(what, now, |p.submitted|));
  }

  lemma SubmittedKeepsInv(p: Pacer, what: Submission, now: nat)
    requires Inv(p) && p.clock <= now
    ensures Inv(Submitted(p, what, now))
  {
    hide InOrder, Spaced;
    SubmissionKeepsOrder(p.submitted, p.writes, what);
    StampsAreBounded(p);
    if !p.pending && now - p.lastWrite >= MIN_INTERVAL {
      WriteKeepsOrder(p.(clock := now, submitted := p.submitted + [what]), what, now);
    }
  }

  lemma StampsAreBounded(p: Pacer)
    requires InOrder(p.submitted, p.writes)
    ensures LastStamp(p) <= |p.submitted|
  {
  }

  lemma FlushedKeepsInv(p: Pacer, first: nat, second: nat)
    requires Inv(p) && Enabled(p, Flush(first, second))
    ensures Inv(Flushed(p, first, second))
  {
    hide InOrder, Spaced;
    if !p.stopping && p.pending && first >= p.lastWrite + MIN_INTERVAL {
      WriteKeepsOrder(p, p.held, second);
    }
  }

  lemma InvHolds(p: Pacer, e: Event)
    requires Inv(p) && Enabled(p, e)
    ensures Inv(Apply(p, e))
  {
    hide InOrder, Spaced;
    match e
    case Submit(what, now) => SubmittedKeepsInv(p, what, now);
    case Flush(first, second) => FlushedKeepsInv(p, first, second);
    case _ =>
  }

  lemma StartsWell()
    ensures Inv(INITIAL)
  {
  }

  lemma {:induction false} InvHoldsAlways(p: Pacer, es: seq<Event>)
    requires Inv(p) && CanRun(p, es)
    ensures Inv(Run(p, es))
    decreases |es|
  {
    if es != [] {
      InvHolds(p, es[0]);
      InvHoldsAlways(Apply(p, es[0]), es[1..]);
    }
  }

  lemma {:induction false} RunAppend(p: Pacer, a: seq<Event>, b: seq<Event>)
    requires CanRun(p, a + b)
    ensures CanRun(p, a) && CanRun(Run(p, a), b)
    ensures Run(p, a + b) == Run(Run(p, a), b)
    decreases |a|
  {
    if a == [] {
      assert a + b == b;
    } else {
      assert (a + b)[1..] == a[1..] + b;
      RunAppend(Apply(p, a[0]), a[1..], b);
    }
  }

  // ------------------------------------------------------------------------- guarantees

  ghost predicate NewestSafe(p: Pacer) {
    p.submitted == [] || p.pending || LastStamp(p) == |p.submitted|
  }

  lemma SubmitIsSafe(p: Pacer, what: Submission, now: nat)
    requires Inv(p) && p.clock <= now
    ensures NewestSafe(Submitted(p, what, now)) && Submitted(p, what, now).submitted == p.submitted + [what]
  {
    hide InOrder, Spaced;
  }

  lemma StepKeepsNewest(p: Pacer, e: Event)
    requires Inv(p) && NewestSafe(p) && Enabled(p, e) && !e.Discard? && !e.StopSet?
    ensures NewestSafe(Apply(p, e)) && p.submitted <= Apply(p, e).submitted
  {
    hide InOrder, Spaced;
    if e.Submit? {
      SubmitIsSafe(p, e.what, e.now);
    }
  }

  lemma {:induction false} KeptUntilDiscarded(p: Pacer, es: seq<Event>)
    requires Inv(p) && NewestSafe(p) && CanRun(p, es)
    requires forall e :: e in es ==> !e.Discard? && !e.StopSet?
    ensures Inv(Run(p, es)) && NewestSafe(Run(p, es)) && p.submitted <= Run(p, es).submitted
    decreases |es|
  {
    hide Inv, NewestSafe, Apply;
    if es != [] {
      assert es[0] in es;
      InvHolds(p, es[0]);
      StepKeepsNewest(p, es[0]);
      KeptUntilDiscarded(Apply(p, es[0]), es[1..]);
    }
  }

  /** Whatever happened before, from a submission on and until the next discard or stop, the
      newest submission is either the last one written or the one held for the flush thread. */
  lemma NewestIsWrittenOrHeld(es: seq<Event>, what: Submission, now: nat, later: seq<Event>)
    requires CanRun(INITIAL, es + [Submit(what, now)] + later)
    requires forall e :: e in later ==> !e.Discard? && !e.StopSet?
    ensures var p := Run(INITIAL, es + [Submit(what, now)] + later);
      && p.submitted != []
      && (p.pending ==> p.held == p.submitted[|p.submitted| - 1])
      && (!p.pending ==> p.writes != [] && p.writes[|p.writes| - 1].what == p.submitted[|p.submitted| - 1])
  {
    hide Spaced, Submitted;
    RunAppend(INITIAL, es + [Submit(what, now)], later);
    RunAppend(INITIAL, es, [Submit(what, now)]);
    StartsWell();
    InvHoldsAlways(INITIAL, es);
    var q := Run(INITIAL, es);
    assert Run(q, [Submit(what, now)]) == Submitted(q, what, now);
    SubmittedKeepsInv(q, what, now);
    SubmitIsSafe(q, what, now);
    KeptUntilDiscarded(Submitted(q, what, now), later);
  }

  /** Writes are an in-order subsequence of the submissions, each the newest of its time. */
  lemma WritesFollowSubmissions(es: seq<Event>)
    requires CanRun(INITIAL, es)
    ensures InOrder(Run(INITIAL, es).submitted, Run(INITIAL, es).writes)
  {
    StartsWell();
    InvHoldsAlways(INITIAL, es);
  }

  /** After a discard, no write reaches a descriptor that has not been submitted again. */
  lemma DiscardedIsNeverWritten(es: seq<Event>, later: seq<Event>)
    requires CanRun(INITIAL, es) && CanRun(Apply(Run(INITIAL, es), Discard), later)
    ensures var p, q := Run(INITIAL, es), Run(Apply(Run(INITIAL, es), Discard), later);
      forall i :: |p.writes| <= i < |q.writes| ==>
        exists k :: |p.submitted| <= k < |q.submitted| && q.writes[i].what == q.submitted[k]
  {
    hide Spaced;
    StartsWell();
    InvHoldsAlways(INITIAL, es);
    var p := Run(INITIAL, es);
    var d := Apply(p, Discard);
    InvHolds(p, Discard);
    InvHoldsAlways(d, later);
    LaterWritesAreNewer(d, later, |d.submitted|);
    var q := Run(d, later);
    forall i | |p.writes| <= i < |q.writes|
      ensures exists k :: |p.submitted| <= k < |q.submitted| && q.writes[i].what == q.submitted[k]
    {
      var k := q.writes[i].stamp - 1;
      assert q.writes[i].what == q.submitted[k];
    }
  }

  lemma {:induction false} LaterWritesAreNewer(p: Pacer, es: seq<Event>, floor: nat)
    requires CanRun(p, es) && floor <= |p.submitted| && (p.pending ==> floor < |p.submitted|)
    ensures var q := Run(p, es);
      |p.writes| <= |q.writes| && forall i :: |p.writes| <= i < |q.writes| ==> q.writes[i].stamp > floor
    ensures p.writes <= Run(p, es).writes && p.submitted <= Run(p, es).submitted
    decreases |es|
  {
    if es != [] {
      LaterWritesAreNewer(Apply(p, es[0]), es[1..], floor);
    }
  }

  /** ... and until something is submitted again the descriptor is forgotten. */
  lemma {:induction false} DiscardForgets(p: Pacer, later: seq<Event>)
    requires !p.pending && p.held.fd == -1 && CanRun(p, later)
    requires forall e :: e in later ==> !e.Submit?
    ensures !Run(p, later).pending && Run(p, later).held.fd == -1 && Run(p, later).writes == p.writes
    decreases |later|
  {
    if later != [] {
      assert later[0] in later;
      DiscardForgets(Apply(p, later[0]), later[1..]);
    }
  }

  lemma DiscardedIsForgotten(es: seq<Event>, later: seq<Event>)
    requires CanRun(INITIAL, es) && CanRun(Apply(Run(INITIAL, es), Discard), later)
    requires forall e :: e in later ==> !e.Submit?
    ensures var q := Run(Apply(Run(INITIAL, es), Discard), later);
      !q.pending && q.held.fd == -1 && q.writes == Run(INITIAL, es).writes
  {
    DiscardForgets(Apply(Run(INITIAL, es), Discard), later);
  }

  /** Recorded write times are at least 25 ms apart, whichever thread wrote, so a window of
      length `span` holds at most span / 25 ms + 1 writes. */
  lemma RateIsBounded(es: seq<Event>, from: nat, span: nat)
    requires CanRun(INITIAL, es)
    ensures Spaced(Run(INITIAL, es).writes)
    ensures CountWithin(Run(INITIAL, es).writes, from, span) <= span / 25_000_000 + 1
    ensures var w := Run(INITIAL, es).writes; forall i, j :: 0 <= i < j < |w| ==> w[i].time + 25_000_000 <= w[j].time
  {
    StartsWell();
    InvHoldsAlways(INITIAL, es);
    SpacedCount(Run(INITIAL, es).writes, from, span);
  }

  /** How many writes carry a time in [from, from + span]. */
  function CountWithin(writes: seq<Write>, from: nat, span: nat): nat {
    if writes == [] then 0
    else
      var last := writes[|writes| - 1];
      CountWithin(writes[..|writes| - 1], from, span) + if from <= last.time <= from + span then 1 else 0
  }

  lemma {:induction false} SpacedCount(writes: seq<Write>, from: nat, span: nat)
    requires Spaced(writes)
    ensures CountWithin(writes, from, span) <= span / MIN_INTERVAL + 1
    decreases |writes|
  {
    if writes != [] {
      var front, last := writes[..|writes| - 1], writes[|writes| - 1];
      assert Spaced(front);
      if last.time < from || last.time > from + span {
        SpacedCount(front, from, span);
      } else if last.time < from + MIN_INTERVAL {
        NoneEarly(front, from, span, last.time);
      } else {
        // Everything before `last` is at least one interval earlier.
        assert forall i :: 0 <= i < |front| ==> front[i].time <= last.time - MIN_INTERVAL;
        SameCount(front, from, span, last.time - MIN_INTERVAL - from);
        SpacedCount(front, from, last.time - MIN_INTERVAL - from);
        assert (last.time - MIN_INTERVAL - from) / MIN_INTERVAL + 1 <= span / MIN_INTERVAL;
      }
    }
  }

  lemma {:induction false} NoneEarly(writes: seq<Write>, from: nat, span: nat, bound: nat)
    requires bound < from + MIN_INTERVAL
    requires forall i :: 0 <= i < |writes| ==> writes[i].time + MIN_INTERVAL <= bound
    ensures CountWithin(writes, from, span) == 0
    decreases |writes|
  {
    if writes != [] {
      NoneEarly(writes[..|writes| - 1], from, span, bound);
    }
  }

  lemma {:induction false} SameCount(writes: seq<Write>, from: nat, span: nat, shorter: nat)
    requires shorter <= span && forall i :: 0 <= i < |writes| ==> writes[i].time <= from + shorter
    ensures CountWithin(writes, from, span) == CountWithin(writes, from, shorter)
    decreases |writes|
  {
    if writes != [] {
      SameCount(writes[..|writes| - 1], from, span, shorter);
    }
  }

  /** No wake-up is lost, and nothing but a write moves the due time. */
  lemma HeldReportIsOnItsWay(es: seq<Event>)
    requires CanRun(INITIAL, es)
    ensures var p := Run(INITIAL, es);
      && p.spawned <= 1
      && (p.pending && !p.stopping ==>
            p.thread.Ready? || p.thread == WaitingUntil(p.lastWrite + MIN_INTERVAL))
  {
    StartsWell();
    InvHoldsAlways(INITIAL, es);
  }

  lemma OnlyWritesMoveTheDueTime(p: Pacer, e: Event)
    requires Enabled(p, e)
    ensures Apply(p, e).lastWrite != p.lastWrite ==> |Apply(p, e).writes| == |p.writes| + 1
    ensures Apply(p, e).writes == p.writes ==> Apply(p, e).lastWrite == p.lastWrite
  {
  }

  /** Once the report is due, the flush thread's next turn writes the newest submission.
      Before that turn at most one `Wake` is needed, and it is enabled. */
  lemma DueReportIsWritten(es: seq<Event>, first: nat, second: nat)
    requires CanRun(INITIAL, es)
    requires var p := Run(INITIAL, es);
      p.pending && !p.stopping && p.clock <= first <= second && p.lastWrite + MIN_INTERVAL <= first
    ensures var p := Run(INITIAL, es);
      var turn := if p.thread.Ready? then [Flush(first, second)] else [Wake, Flush(first, second)];
      && p.submitted != []
      && CanRun(p, turn)
      && !Run(p, turn).pending
      && Run(p, turn).writes == p.writes + [Write(p.submitted[|p.submitted| - 1], second, |p.submitted|)]
  {
    StartsWell();
    InvHoldsAlways(INITIAL, es);
    var p := Run(INITIAL, es);
    if !p.thread.Ready? {
      var woken := Apply(p, Wake);
      assert Run(woken, [Flush(first, second)]) == Flushed(woken, first, second);
      assert [Wake, Flush(first, second)][1..] == [Flush(first, second)];
    } else {
      assert Run(p, [Flush(first, second)]) == Flushed(p, first, second);
    }
  }

  /** Once stop() has signalled, the thread never sleeps again and its next turn ends it, so
      the join returns; and from stop() on the thread writes nothing. */
  lemma StopEndsTheThread(es: seq<Event>)
    requires CanRun(INITIAL, es) && Run(INITIAL, es).stopSignalled
    ensures var p := Run(INITIAL, es);
      && !p.thread.Waiting? && !p.thread.WaitingUntil?
      && forall first, second :: Enabled(p, Flush(first, second)) ==>
           Apply(p, Flush(first, second)) == p.(thread := Exited)
  {
    StartsWell();
    InvHoldsAlways(INITIAL, es);
  }

  /** From stop() on, whatever is written is new: nothing held is written any more. */
  lemma {:induction false} StoppedWritesAreNew(p: Pacer, es: seq<Event>, floor: nat)
    requires p.stopping && CanRun(p, es) && floor <= |p.submitted|
    ensures p.writes <= Run(p, es).writes
    ensures var q := Run(p, es); forall i :: |p.writes| <= i < |q.writes| ==> q.writes[i].stamp > floor
    decreases |es|
  {
    if es != [] {
      StoppedWritesAreNew(Apply(p, es[0]), es[1..], floor);
    }
  }

  /** Which submissions are still delivered after stop(): exactly those that need not be
      throttled, whatever happens later -- another submission, a discard, another stop(). */
  lemma DeliveredAfterStopIff(p: Pacer, what: Submission, now: nat, later: seq<Event>)
    requires Inv(p) && p.stopping && p.clock <= now && CanRun(Submitted(p, what, now), later)
    ensures var q := Run(Submitted(p, what, now), later);
      (exists i :: 0 <= i < |q.writes| && q.writes[i].stamp == |p.submitted| + 1) <==>
        !p.pending && now - p.lastWrite >= MIN_INTERVAL
  {
    hide Spaced;
    var s := Submitted(p, what, now);
    var q := Run(s, later);
    StoppedWritesAreNew(s, later, |s.submitted|);
    if !p.pending && now - p.lastWrite >= MIN_INTERVAL {
      assert q.writes[|p.writes|] == s.writes[|p.writes|];
    } else {
      assert s.writes == p.writes;
      forall i | 0 <= i < |q.writes|
        ensures q.writes[i].stamp != |p.submitted| + 1
      {
        assert i < |p.writes| ==> q.writes[i] == p.writes[i];
      }
    }
  }

  /** When the last write was made, as the log has it. */
  function LastWriteTime(p: Pacer): nat {
    if p.writes == [] then 0 else p.writes[|p.writes| - 1].time
  }

  /** Until something is submitted again, a stopped pacer with nothing held stays one. */
  lemma {:induction false} StaysEmpty(p: Pacer, es: seq<Event>)
    requires p.stopping && !p.pending && CanRun(p, es)
    requires forall e :: e in es ==> !e.Submit?
    ensures var q := Run(p, es);
      q.stopping && !q.pending && q.submitted == p.submitted && q.writes == p.writes && q.lastWrite == p.lastWrite
    decreases |es|
  {
    if es != [] {
      assert es[0] in es;
      StaysEmpty(Apply(p, es[0]), es[1..]);
    }
  }

  lemma StopsHere(es: seq<Event>)
    requires CanRun(INITIAL, es + [StopSet])
    ensures CanRun(INITIAL, es)
    ensures var p, q := Run(INITIAL, es), Run(INITIAL, es + [StopSet]);
      q == Apply(p, StopSet) && Inv(p) && Inv(q)
  {
    RunAppend(INITIAL, es, [StopSet]);
    StartsWell();
    InvHoldsAlways(INITIAL, es);
    var p := Run(INITIAL, es);
    assert Run(p, [StopSet]) == Apply(p, StopSet);
    InvHolds(p, StopSet);
  }

  /** A submission held when stop() comes is dropped: it is not held any more, and whatever is
      written later was submitted later. */
  lemma HeldAtStopIsDropped(es: seq<Event>, later: seq<Event>)
    requires CanRun(INITIAL, es + [StopSet] + later)
    ensures CanRun(INITIAL, es) && CanRun(INITIAL, es + [StopSet])
    ensures var p, q, n := Run(INITIAL, es), Run(INITIAL, es + [StopSet]), Run(INITIAL, es + [StopSet] + later);
      && !q.pending && q.writes == p.writes && p.writes <= n.writes
      && forall i :: |p.writes| <= i < |n.writes| ==> n.writes[i].stamp > |p.submitted|
  {
    RunAppend(INITIAL, es + [StopSet], later);
    StopsHere(es);
    var q := Run(INITIAL, es + [StopSet]);
    StoppedWritesAreNew(q, later, |q.submitted|);
  }

  /** The first submission after stop() is ever written if and only if 25 ms have passed since
      the last write, whatever was submitted, held or discarded before and happens later. */
  lemma FirstAfterStopIff(es: seq<Event>, between: seq<Event>, what: Submission, now: nat, later: seq<Event>)
    requires CanRun(INITIAL, es + [StopSet] + between + [Submit(what, now)] + later)
    requires forall e :: e in between ==> !e.Submit?
    ensures CanRun(INITIAL, es)
    ensures var p, n := Run(INITIAL, es), Run(INITIAL, es + [StopSet] + between + [Submit(what, now)] + later);
      (exists i :: 0 <= i < |n.writes| && n.writes[i].stamp == |p.submitted| + 1) <==>
        now - LastWriteTime(p) >= 25_000_000
  {
    hide Spaced, Apply, Submitted;
    var head := es + [StopSet];
    RunAppend(INITIAL, head + between + [Submit(what, now)], later);
    RunAppend(INITIAL, head + between, [Submit(what, now)]);
    RunAppend(INITIAL, head, between);
    StopsHere(es);
    AfterStop(Run(INITIAL, es));
    var q := Run(INITIAL, head);
    StaysEmpty(q, between);
    StartsWell();
    InvHoldsAlways(INITIAL, head + between);
    var r := Run(q, between);
    JustSubmits(r, what, now);
    DeliveredAfterStopIff(r, what, now, later);
  }

  lemma AfterStop(p: Pacer)
    requires Inv(p)
    ensures var q := Apply(p, StopSet);
      q.stopping && !q.pending && q.submitted == p.submitted && q.writes == p.writes && q.lastWrite == LastWriteTime(p)
  {
    hide InOrder, Spaced;
  }

  lemma JustSubmits(p: Pacer, what: Submission, now: nat)
    requires CanRun(p, [Submit(what, now)])
    ensures p.clock <= now && Run(p, [Submit(what, now)]) == Submitted(p, what, now)
  {
    hide Submitted;
    assert Run(Apply(p, Submit(what, now)), []) == Apply(p, Submit(what, now));
  }

  /** No thread is started after stop(). */
  lemma {:induction false} NoThreadAfterStop(p: Pacer, es: seq<Event>)
    requires p.stopping && CanRun(p, es)
    ensures Run(p, es).spawned == p.spawned && Run(p, es).stopping
    decreases |es|
  {
    if es != [] {
      NoThreadAfterStop(Apply(p, es[0]), es[1..]);
    }
  }

  /** What was throttled stays held for as long as nothing discards it, and then every later
      submission is throttled as well. */
  lemma {:induction false} ThrottledAfterStopIsParked(p: Pacer, es: seq<Event>)
    requires p.stopping && p.pending && CanRun(p, es)
    requires forall e :: e in es ==> !e.Discard? && !e.StopSet?
    ensures Run(p, es).pending && Run(p, es).writes == p.writes
    decreases |es|
  {
    if es != [] {
      assert es[0] in es;
      ThrottledAfterStopIsParked(Apply(p, es[0]), es[1..]);
    }
  }

  /** Such a submission, from the start: one written, stop(), one a tick later. */
  lemma ParkedRun(what: Submission)
    ensures var es := [Submit(what, MIN_INTERVAL), StopSet, Submit(what, MIN_INTERVAL + 1)];
      && CanRun(INITIAL, es)
      && var p := Run(INITIAL, es);
         p.stopping && p.pending && p.held == what && |p.writes| == 1 && |p.submitted| == 2
  {
    var es := [Submit(what, MIN_INTERVAL), StopSet, Submit(what, MIN_INTERVAL + 1)];
    var a := Apply(INITIAL, es[0]);
    var b := Apply(a, es[1]);
    var c := Apply(b, es[2]);
    assert es[1..][1..] == [es[2]] && [es[2]][1..] == [];
    assert CanRun(c, []) && CanRun(b, [es[2]]) && CanRun(a, es[1..]);
    assert Run(b, [es[2]]) == Run(c, []) == c && Run(a, es[1..]) == Run(b, [es[2]]);
  }

  // ---------------------------------------------------------------------------- the code

  class BtOutputPacer {
    var stopping: bool
    var pending: bool
    var pendingFd: int
    var pendingState: OutputState
    var lastWrite: nat
    var joinable: bool
    ghost var thread: Thread
    ghost var clock: nat
    ghost var spawned: nat
    ghost var stopSignalled: bool
    ghost var submitted: seq<Submission>
    ghost var writes: seq<Write>

    ghost predicate Valid()
      reads this
    {
      joinable <==> !thread.NotStarted?
    }

    ghost function View(): Pacer
      reads this
    {
      Pacer(stopping, pending, Submission(pendingFd, pendingState), lastWrite, thread,
            clock, spawned, stopSignalled, submitted, writes)
    }

    constructor ()
      ensures Valid() && View() == INITIAL
    {
      stopping, pending, pendingFd, lastWrite, joinable := false, false, -1, 0, false;
      pendingState := OutputState(0, 0, 0, 0, 0);
      thread, clock, spawned, stopSignalled, submitted, writes := NotStarted, 0, 0, false, [], [];
    }

    method Submit(fd: int, state: OutputState, now: nat)
      requires Valid() && Enabled(View(), Event.Submit(Submission(fd, state), now))
      modifies this
      ensures Valid() && View() == Apply(old(View()), Event.Submit(Submission(fd, state), now))
    {
      clock, submitted := now, submitted + [Submission(fd, state)];
      if !pending && now - lastWrite >= MIN_INTERVAL {
        lastWrite := now;
        WriteLocked(fd, state);
        return;
      }
      pending := true;
      pendingFd := fd;
      pendingState := state;
      EnsureThreadLocked();
      NotifyOne();
    }

    method DiscardPending()
      requires Valid()
      modifies this
      ensures Valid() && View() == Apply(old(View()), Discard)
    {
      pending := false;
      pendingFd := -1;
    }

    /** stop(), up to the end of the locked block. */
    method StopLocked()
      requires Valid()
      modifies this
      ensures Valid() && View() == Apply(old(View()), StopSet)
    {
      pending := false;
      stopping := true;
    }

    /** stop(), the notification that follows. */
    method StopNotifyOne()
      requires Valid() && Enabled(View(), StopNotify)
      modifies this
      ensures Valid() && View() == Apply(old(View()), StopNotify)
    {
      NotifyOne();
      stopSignalled := true;
    }

    /** flush_loop(), from taking the mutex until a wait releases it or the loop ends. */
    method FlushLoop(first: nat, second: nat)
      requires Valid() && Enabled(View(), Flush(first, second))
      modifies this
      ensures Valid() && View() == Apply(old(View()), Flush(first, second))
    {
      var blocked := false;
      while !stopping && !blocked
        invariant Valid() && (blocked || thread.Ready?)
        invariant blocked ==> View() == Flushed(old(View()), first, second)
        invariant !blocked && View() != old(View()) ==>
          !stopping && !pending && View() == Flushed(old(View()), first, second).(thread := Ready)
        decreases !blocked, pending
      {
        if !pending {
          thread, blocked := Waiting, true;
        } else {
          var due := lastWrite + MIN_INTERVAL;
          if first < due {
            clock, thread, blocked := first, WaitingUntil(due), true;
          } else {
            pending := false;
            lastWrite := second;
            clock := second;
            WriteLocked(pendingFd, pendingState);
          }
        }
      }
      if !blocked {
        thread := Exited;
      }
    }

    method WriteLocked(fd: int, state: OutputState)
      modifies this`writes
      ensures writes == old(writes) + [Write(Submission(fd, state), lastWrite, |submitted|)]
    {
      writes := writes + [Write(Submission(fd, state), lastWrite, |submitted|)];
    }

    method EnsureThreadLocked()
      requires Valid()
      modifies this`joinable, this`thread, this`spawned
      ensures Valid()
      ensures var start := old(thread).NotStarted? && !stopping;
        thread == (if start then Ready else old(thread)) && spawned == old(spawned) + if start then 1 else 0
    {
      if joinable || stopping {
        return;
      }
      joinable := true;
      thread, spawned := Ready, spawned + 1;
    }

    ghost method NotifyOne()
      requires Valid()
      modifies this`thread
      ensures Valid() && thread == Notified(old(thread))
    {
      thread := Notified(thread);
    }
  }
}

// From the game to the controller over Bluetooth with the HID-BPF transport: the handlers
// decide what to send, the pacer what to write, the pump what to forward.
module OutputPath {
  import opened Crc32
  import opened Reports
  import opened Controller
  import opened OutputHandlers
  import Pacer = BtOutputPacer
  import Bpf = HidBpfTransport

  function States(submitted: seq<Pacer.Submission>): seq<OutputState> {
    seq(|submitted|, i requires 0 <= i < |submitted| => submitted[i].state)
  }

  /** What the pacer's writes put on the transport's socket. */
  function Written(writes: seq<Pacer.Write>): seq<seq<byte>> {
    seq(|writes|, i requires 0 <= i < |writes| => BluetoothOutput(writes[i].what.state))
  }

  /** With nothing discarded, once the pacer holds nothing back it has written the newest
      submission last. */
  lemma FlushedMeansWritten(es: seq<Pacer.Event>)
    requires Pacer.CanRun(Pacer.INITIAL, es)
    requires forall e :: e in es ==> !e.Discard? && !e.StopSet?
    requires var p := Pacer.Run(Pacer.INITIAL, es); !p.pending && p.submitted != []
    ensures var p := Pacer.Run(Pacer.INITIAL, es);
      p.writes != [] && p.writes[|p.writes| - 1].what == p.submitted[|p.submitted| - 1]
  {
    Pacer.KeptUntilDiscarded(Pacer.INITIAL, es);
  }

  /** Whatever the games asked for, however the pacer's threads interleaved and however the
      pump batched its reads: once both have drained, the last report forwarded to the
      controller carries exactly the current rumble and LED state. */
  lemma LastForwardedIsCurrent(
      t: ControllerType, initial: OutputState, suppress: bool, reports: seq<seq<byte>>,
      es: seq<Pacer.Event>, forwarded: seq<Bpf.Forward>)
    requires Pacer.CanRun(Pacer.INITIAL, es)
    requires forall e :: e in es ==> !e.Discard? && !e.StopSet?
    requires var end := UhidRun(t, Sink(initial, suppress, []), reports);
      var p := Pacer.Run(Pacer.INITIAL, es);
      var queued := Written(p.writes);
      && end.sent != [] && States(p.submitted) == end.sent
      && !p.pending
      && Bpf.InOrder(queued, forwarded) && Bpf.LastStamp(forwarded) == |queued|
    ensures var end := UhidRun(t, Sink(initial, suppress, []), reports);
      && forwarded != []
      && var last := forwarded[|forwarded| - 1].what;
         |last| == 78 && Accepts(OUTPUT_SEED, last) && StateOf(last) == end.cur
  {
    hide Pacer.Run, Pacer.CanRun, UhidRun, Accepts, BluetoothOutput, StateOf;
    var end := UhidRun(t, Sink(initial, suppress, []), reports);
    var p := Pacer.Run(Pacer.INITIAL, es);
    OnlyChangesAreSent(t, initial, Sink(initial, suppress, []), reports);
    assert |p.submitted| == |States(p.submitted)|;
    FlushedMeansWritten(es);
    var newest := p.writes[|p.writes| - 1].what.state;
    assert newest == States(p.submitted)[|p.submitted| - 1] == end.cur;
    Bpf.NewestIsForwarded(Written(p.writes), forwarded);
    OutputCarriesState(newest);
  }

  // -------------------------------------------------------------- the three run together

  /** What happens next: a game's report, a step of the pacer's scheduling, or a turn of the pump
      whose reads succeed `good` times. */
  datatype Turn =
    | Report(data: seq<byte>, now: nat)
    | Schedule(event: Pacer.Event)
    | PumpTurn(good: nat)

  /** Commands that drop what is held are not part of this. */
  predicate Flows(turns: seq<Turn>) {
    forall k :: 0 <= k < |turns| && turns[k].Schedule? ==> turns[k].event.Wake? || turns[k].event.Flush?
  }

  function ReportsIn(turns: seq<Turn>): seq<seq<byte>> {
    if turns == [] then []
    else
      var last := turns[|turns| - 1];
      ReportsIn(turns[..|turns| - 1]) + if last.Report? then [last.data] else []
  }

  /** The pacer between the other two: what it was given is what the handler sent, and what it
      wrote is what the pump was given. */
  ghost predicate Joined(p: Pacer.Pacer, sent: seq<OutputState>, queued: seq<seq<byte>>) {
    && Pacer.Inv(p) && Pacer.NewestSafe(p)
    && States(p.submitted) == sent && Written(p.writes) == queued
  }

  lemma StartsJoined()
    ensures Joined(Pacer.INITIAL, [], [])
  {
  }

  lemma EventJoins(p: Pacer.Pacer, e: Pacer.Event, sent: seq<OutputState>, queued: seq<seq<byte>>)
    requires Joined(p, sent, queued) && Pacer.Enabled(p, e) && !e.Discard? && !e.StopSet?
    ensures var n := Pacer.Apply(p, e);
      Joined(n, if e.Submit? then sent + [e.what.state] else sent, Written(n.writes))
    ensures var n := Pacer.Apply(p, e);
      || n.writes == p.writes
      || (|n.writes| == |p.writes| + 1 && Written(n.writes) == queued + [BluetoothOutput(n.writes[|p.writes|].what.state)])
  {
    hide Pacer.Inv, Pacer.NewestSafe, BluetoothOutput;
    Pacer.InvHolds(p, e);
    Pacer.StepKeepsNewest(p, e);
    OneWrite(p, e);
    var n := Pacer.Apply(p, e);
    if e.Submit? {
      assert States(n.submitted) == sent + [e.what.state];
    }
    if n.writes != p.writes {
      assert Written(n.writes) == queued + [BluetoothOutput(n.writes[|p.writes|].what.state)];
    }
  }

  lemma OneWrite(p: Pacer.Pacer, e: Pacer.Event)
    requires Pacer.Enabled(p, e)
    ensures var n := Pacer.Apply(p, e);
      && (n.writes == p.writes || (|n.writes| == |p.writes| + 1 && n.writes[..|p.writes|] == p.writes))
      && n.submitted == if e.Submit? then p.submitted + [e.what] else p.submitted
  {
  }

  /** The last report forwarded, once pacer and pump have nothing left. */
  lemma DrainedIsCurrent(initial: OutputState, s: Sink, p: Pacer.Pacer, queued: seq<seq<byte>>, forwarded: seq<Bpf.Forward>)
    requires Joined(p, s.sent, queued) && SendsAreNews(initial, s) && s.sent != [] && !p.pending
    requires Bpf.InOrder(queued, forwarded) && Bpf.LastStamp(forwarded) == |queued|
    ensures forwarded != []
    ensures var last := forwarded[|forwarded| - 1].what;
      |last| == 78 && Accepts(OUTPUT_SEED, last) && StateOf(last) == s.cur
  {
    hide Accepts, BluetoothOutput, StateOf;
    assert |p.submitted| == |States(p.submitted)|;
    var newest := p.writes[|p.writes| - 1].what.state;
    assert newest == States(p.submitted)[|p.submitted| - 1] == s.cur;
    Bpf.NewestIsForwarded(queued, forwarded);
    OutputCarriesState(newest);
  }

  /** Pushes on what the pacer wrote since it was in state `before`. */
  method PassOn(before: Pacer.Pacer, p: Pacer.Pacer, pump: Bpf.Pump)
    requires pump.Valid()
    requires p.writes == before.writes || (|p.writes| == |before.writes| + 1
      && Written(p.writes) == pump.queued + [BluetoothOutput(p.writes[|before.writes|].what.state)])
    requires p.writes == before.writes ==> Written(p.writes) == pump.queued
    modifies pump`queue, pump`queued
    ensures pump.Valid() && pump.queued == Written(p.writes)
  {
    if |p.writes| > |before.writes| {
      var report := BluetoothOutput(p.writes[|p.writes| - 1].what.state);
      OutputCarriesState(p.writes[|p.writes| - 1].what.state);
      Bpf.MoreQueued(pump.queued, pump.queued + [report], pump.forwarded);
      pump.Push(report);
    }
  }

  /** A game's report: the handler may send, and then the pacer is given the new state. */
  method TakeReport(t: ControllerType, handlers: Handlers, pump: Bpf.Pump, fd: int, before: Pacer.Pacer, data: seq<byte>,
                    now: nat, ghost initial: OutputState) returns (p: Pacer.Pacer)
    requires handlers.phyConnected && pump.Valid()
    requires Joined(before, handlers.sent, pump.queued) && SendsAreNews(initial, handlers.View())
    modifies handlers, pump`queue, pump`queued
    ensures handlers.phyConnected && pump.Valid()
    ensures handlers.View() == UhidStep(t, old(handlers.View()), true, data)
    ensures Joined(p, handlers.sent, pump.queued) && SendsAreNews(initial, handlers.View())
  {
    hide Joined, SendsAreNews, UhidStep, Pacer.Apply;
    p := before;
    var sent := handlers.sent;
    OneReportIsNews(t, initial, handlers.View(), data);
    OneReportSends(t, handlers.View(), data);
    handlers.UhidOutput(t, data);
    if |handlers.sent| > |sent| {
      // The clock does not run backwards.
      var event := Pacer.Submit(Pacer.Submission(fd, handlers.cur), if now < p.clock then p.clock else now);
      p := TakeEvent(pump, p, event, sent);
    }
  }

  method TakeEvent(pump: Bpf.Pump, before: Pacer.Pacer, event: Pacer.Event, ghost sent: seq<OutputState>) returns (p: Pacer.Pacer)
    requires pump.Valid() && Joined(before, sent, pump.queued) && !event.Discard? && !event.StopSet?
    requires event.Submit? ==> before.clock <= event.now
    modifies pump`queue, pump`queued
    ensures pump.Valid()
    ensures Joined(p, if event.Submit? then sent + [event.what.state] else sent, pump.queued)
  {
    hide Pacer.Apply, Pacer.Inv, Pacer.NewestSafe, BluetoothOutput;
    p := before;
    if Pacer.Enabled(p, event) {
      EventJoins(p, event, sent, pump.queued);
      p := Pacer.Apply(p, event);
      PassOn(before, p, pump);
    }
  }

  lemma OneReportIsNews(t: ControllerType, initial: OutputState, s: Sink, data: seq<byte>)
    requires SendsAreNews(initial, s)
    ensures SendsAreNews(initial, UhidStep(t, s, true, data))
  {
    OneRelay(initial, s, UhidRequest(t, data));
  }

  lemma OneReportSends(t: ControllerType, s: Sink, data: seq<byte>)
    ensures var n := UhidStep(t, s, true, data);
      n.sent == s.sent || n.sent == s.sent + [n.cur]
  {
  }

  lemma NothingSentYet(s: Sink)
    requires s.sent == []
    ensures SendsAreNews(s.cur, s)
  {
  }

  lemma NoReports(t: ControllerType, s: Sink)
    ensures UhidRun(t, s, []) == s
  {
  }

  lemma {:induction false} OneMoreReport(t: ControllerType, s: Sink, reports: seq<seq<byte>>, data: seq<byte>)
    ensures UhidRun(t, s, reports + [data]) == UhidStep(t, UhidRun(t, s, reports), true, data)
    decreases |reports|
  {
    hide UhidStep;
    if reports == [] {
      assert [data][1..] == [];
    } else {
      assert (reports + [data])[0] == reports[0] && (reports + [data])[1..] == reports[1..] + [data];
      OneMoreReport(t, UhidStep(t, s, true, reports[0]), reports[1..], data);
    }
  }

  method PumpOnce(pump: Bpf.Pump, good: nat)
    requires pump.Valid()
    modifies pump, pump.outBuf
    ensures pump.Valid() && pump.queued == old(pump.queued)
  {
    ghost var queued := pump.queued;
    var clean := pump.Drain([], good);
    assert queued + [] == queued;
  }

  function RunOne(t: ControllerType, s: Sink, turn: Turn): Sink {
    if turn.Report? then UhidStep(t, s, true, turn.data) else s
  }

  method OneTurn(t: ControllerType, handlers: Handlers, pump: Bpf.Pump, fd: int, before: Pacer.Pacer, turn: Turn,
                 ghost initial: OutputState) returns (p: Pacer.Pacer)
    requires Flows([turn]) && handlers.phyConnected && pump.Valid()
    requires Joined(before, handlers.sent, pump.queued) && SendsAreNews(initial, handlers.View())
    modifies handlers, pump, pump.outBuf
    ensures handlers.phyConnected && pump.Valid() && handlers.View() == RunOne(t, old(handlers.View()), turn)
    ensures Joined(p, handlers.sent, pump.queued) && SendsAreNews(initial, handlers.View())
  {
    hide Joined, SendsAreNews, UhidStep;
    assert [turn][0] == turn;
    match turn
    case Report(data, now) =>
      p := TakeReport(t, handlers, pump, fd, before, data, now, initial);
    case Schedule(event) =>
      p := TakeEvent(pump, before, event, handlers.sent);
    case PumpTurn(good) =>
      p := before;
      PumpOnce(pump, good);
  }

  lemma TurnsRun(t: ControllerType, s: Sink, turns: seq<Turn>, k: nat)
    requires k < |turns|
    ensures UhidRun(t, s, ReportsIn(turns[..k + 1])) == RunOne(t, UhidRun(t, s, ReportsIn(turns[..k])), turns[k])
    ensures Flows(turns) ==> Flows([turns[k]])
  {
    hide UhidRun, UhidStep;
    var front := turns[..k];
    assert turns[..k + 1][..k] == front && turns[..k + 1][k] == turns[k];
    if turns[k].Report? {
      OneMoreReport(t, s, ReportsIn(front), turns[k].data);
    } else {
      assert ReportsIn(front) + [] == ReportsIn(front);
    }
  }

  /** The handler, the pacer and the pump under any schedule of theirs.  Whenever the pacer holds
      nothing back and the socket is empty, the controller was last sent exactly the current
      state, in a report that passes its check. */
  method Play(t: ControllerType, handlers: Handlers, pump: Bpf.Pump, fd: int, turns: seq<Turn>) returns (p: Pacer.Pacer)
    requires Flows(turns) && handlers.phyConnected && handlers.sent == []
    requires pump.Valid() && pump.queued == []
    modifies handlers, pump, pump.outBuf
    ensures handlers.View() == UhidRun(t, old(handlers.View()), ReportsIn(turns))
    ensures pump.Valid()
    ensures !p.pending && pump.queue == [] && handlers.sent != [] ==>
      && pump.forwarded != []
      && var last := pump.forwarded[|pump.forwarded| - 1].what;
         |last| == 78 && Accepts(OUTPUT_SEED, last) && StateOf(last) == handlers.cur
  {
    hide Joined, UhidRun, SendsAreNews, Accepts, StateOf, Flows, RunOne, ReportsIn;
    ghost var begun := handlers.View();
    StartsJoined();
    NothingSentYet(begun);
    NoReports(t, begun);
    NoTurns();
    p := Pacer.INITIAL;
    assert turns[..0] == [];
    for k := 0 to |turns|
      invariant handlers.phyConnected && pump.Valid() && handlers.View() == UhidRun(t, begun, ReportsIn(turns[..k]))
      invariant Joined(p, handlers.sent, pump.queued) && SendsAreNews(begun.cur, handlers.View())
    {
      TurnsRun(t, begun, turns, k);
      p := OneTurn(t, handlers, pump, fd, p, turns[k], begun.cur);
    }
    assert turns[..|turns|] == turns;
    if !p.pending && pump.queue == [] && handlers.sent != [] {
      DrainedIsCurrent(begun.cur, handlers.View(), p, pump.queued, pump.forwarded);
    }
  }

  lemma NoTurns()
    ensures ReportsIn([]) == []
  {
  }
}

// The HID-BPF transport of src/hid-bpf-transport.cpp: the pump that forwards only the newest
// queued output report, and what open acquires and close gives back.
module HidBpfTransport {
  import opened Crc32

  const MAX_REPORT_SIZE: nat := 128

  /** A report written to the hidraw node, and how many had been read off the socket by then. */
  datatype Forward = Forward(what: seq<byte>, stamp: nat)

  /** What read() leaves of a message longer than the buffer. */
  function Received(m: seq<byte>): seq<byte> {
    if |m| <= MAX_REPORT_SIZE then m else m[..MAX_REPORT_SIZE]
  }

  function LastStamp(forwarded: seq<Forward>): nat {
    if forwarded == [] then 0 else forwarded[|forwarded| - 1].stamp
  }

  /** Forwarded reports are queued ones, in order, none twice. */
  ghost predicate InOrder(queued: seq<seq<byte>>, forwarded: seq<Forward>) {
    && (forall i :: 0 <= i < |forwarded| ==>
          0 < forwarded[i].stamp <= |queued| && forwarded[i].what == Received(queued[forwarded[i].stamp - 1]))
    && (forall i, j :: 0 <= i < j < |forwarded| ==> forwarded[i].stamp < forwarded[j].stamp)
  }

  class Pump {
    const outBuf: array<byte>
    /** Messages waiting in the socket. */
    var queue: seq<seq<byte>>
    /** History: every message the daemon ever wrote, how many were read, every report forwarded. */
    ghost var queued: seq<seq<byte>>
    ghost var taken: nat
    ghost var forwarded: seq<Forward>

    ghost predicate Consistent()
      reads this
    {
      outBuf.Length == MAX_REPORT_SIZE && taken <= |queued| && queue == queued[taken..] && NoneEmpty(queued)
    }

    /** However far the socket has been read, the last report read is the last forwarded. */
    ghost predicate Valid()
      reads this
    {
      Consistent() && InOrder(queued, forwarded) && LastStamp(forwarded) == taken
    }

    constructor ()
      ensures Valid() && queued == [] && forwarded == [] && fresh(outBuf)
    {
      outBuf := new byte[MAX_REPORT_SIZE];
      queue, queued, taken, forwarded := [], [], 0, [];
    }

    /** The daemon writes to the other end; messages are never empty. */
    method Push(m: seq<byte>)
      requires Consistent() && m != []
      modifies this`queue, this`queued
      ensures Consistent() && queued == old(queued) + [m]
    {
      queue, queued := queue + [m], queued + [m];
    }

    /** read() of one message into the shared buffer. */
    method Read() returns (n: nat)
      requires Consistent() && queue != []
      modifies this`queue, this`taken, outBuf
      ensures Consistent() && taken == old(taken) + 1
      ensures 0 < n <= MAX_REPORT_SIZE && outBuf[..n] == Received(queued[taken - 1])
    {
      assert queue[0] == queued[taken];
      var m := Received(queue[0]);
      n := |m|;
      forall i | 0 <= i < n {
        outBuf[i] := m[i];
      }
      assert outBuf[..n] == m;
      queue, taken := queue[1..], taken + 1;
    }

    /** The inner loop: reads until the socket is empty or a read fails, which happens after
        `good` reads.  The daemon may write more meanwhile: `arriving[i]` reaches the socket just
        before the i-th poll. */
    method Collect(arriving: seq<seq<byte>>, good: nat) returns (newest: nat, clean: bool)
      requires Consistent() && NoneEmpty(arriving)
      modifies this`queue, this`queued, this`taken, outBuf
      ensures Consistent() && old(queued) <= queued <= old(queued) + arriving
      ensures newest == 0 ==> taken == old(taken)
      ensures newest > 0 ==>
        taken > old(taken) && newest <= MAX_REPORT_SIZE && outBuf[..newest] == Received(queued[taken - 1])
      ensures if clean then queue == [] && taken <= old(taken) + good else queue != [] && taken == old(taken) + good
    {
      hide Received, NoneEmpty;
      newest, clean := 0, true;
      var done, coming := 0, arriving;
      while clean
        invariant Consistent() && NoneEmpty(coming)
        invariant old(queued) <= queued && queued + coming == old(queued) + arriving
        invariant taken == old(taken) + done && done <= good && (!clean ==> queue != [] && done == good)
        invariant newest == 0 ==> done == 0
        invariant newest > 0 ==>
          done > 0 && newest <= MAX_REPORT_SIZE && outBuf[..newest] == Received(queued[taken - 1])
        decreases |coming|, good - done, clean
      {
        if coming != [] {
          Arrived(queued, coming);
          Push(coming[0]);
          coming := coming[1..];
        }
        if queue == [] {
          break;
        }
        if done == good {
          clean := false;
        } else {
          newest := Read();
          done := done + 1;
        }
      }
      assert queued <= queued + coming;
    }

    /** The pump's outbound half of one iteration: at most one report goes out, and unless a
        read failed it is the newest of all. */
    method Drain(arriving: seq<seq<byte>>, good: nat) returns (clean: bool)
      requires Valid() && NoneEmpty(arriving)
      modifies this, outBuf
      ensures Valid() && old(queued) <= queued <= old(queued) + arriving
      ensures forwarded == old(forwarded) ||
        (|forwarded| == |old(forwarded)| + 1 && forwarded[..|old(forwarded)|] == old(forwarded))
      ensures if clean then queue == [] && LastStamp(forwarded) == |queued|
              else LastStamp(forwarded) == LastStamp(old(forwarded)) + good
    {
      hide Received, NoneEmpty;
      var newest;
      newest, clean := Collect(arriving, good);
      MoreQueued(old(queued), queued, forwarded);
      if newest > 0 {
        OneMoreForwarded(queued, forwarded, taken);
        forwarded := forwarded + [Forward(outBuf[..newest], taken)];
      }
    }
  }

  ghost predicate NoneEmpty(ms: seq<seq<byte>>) {
    forall i :: 0 <= i < |ms| ==> ms[i] != []
  }

  lemma Arrived(queued: seq<seq<byte>>, coming: seq<seq<byte>>)
    requires NoneEmpty(coming) && coming != []
    ensures coming[0] != [] && NoneEmpty(coming[1..])
    ensures queued + [coming[0]] + coming[1..] == queued + coming
  {
  }

  /** So a clean drain leaves the newest message as the last one forwarded, whole if it has no
      more than 128 bytes. */
  lemma NewestIsForwarded(queued: seq<seq<byte>>, forwarded: seq<Forward>)
    requires InOrder(queued, forwarded) && LastStamp(forwarded) == |queued| > 0
    ensures forwarded != [] && forwarded[|forwarded| - 1].what == Received(queued[|queued| - 1])
    ensures var sent, newest := forwarded[|forwarded| - 1].what, queued[|queued| - 1];
      sent <= newest && |sent| == if |newest| <= 128 then |newest| else 128
  {
  }

  lemma MoreQueued(queued: seq<seq<byte>>, more: seq<seq<byte>>, forwarded: seq<Forward>)
    requires InOrder(queued, forwarded) && queued <= more
    ensures InOrder(more, forwarded)
  {
  }

  lemma OneMoreForwarded(queued: seq<seq<byte>>, forwarded: seq<Forward>, stamp: nat)
    requires InOrder(queued, forwarded) && LastStamp(forwarded) < stamp <= |queued|
    ensures InOrder(queued, forwarded + [Forward(Received(queued[stamp - 1]), stamp)])
  {
    forall i | 0 <= i < |forwarded|
      ensures forwarded[i].stamp < stamp
    {
      assert forwarded[i].stamp <= LastStamp(forwarded);
    }
  }

  // ---------------------------------------------------------------------- open and close

  datatype Held = Held(programs: nat, maps: nat, hidraws: nat, sockets: nat, rings: nat, states: nat)

  /** hid_bpf_transport_open's stages, in order; the environment decides which one fails, if any. */
  datatype Outcome = AllWell | MissingObject | AddFails | NoPin | MapFails | NoHidraw | HidrawFails | PairFails | RingFails

  class HidBpf {
    var held: Held
    var registry: set<int>
    /** Every descriptor of a caller's that was closed. */
    ghost var closedFds: seq<int>

    /** Everything held is held by exactly one registered transport. */
    ghost predicate Valid()
      reads this
    {
      held == Held(|registry|, |registry|, |registry|, 2 * |registry|, |registry|, |registry|)
    }

    constructor ()
      ensures Valid() && registry == {} && closedFds == []
    {
      held, registry, closedFds := Held(0, 0, 0, 0, 0, 0), {}, [];
    }

    /** Whichever stage fails, nothing stays held -- the loaded program least of all. */
    method Open(outcome: Outcome, unused: nat) returns (fd: int)
      requires Valid() && unused !in registry
      modifies this
      ensures Valid() && closedFds == old(closedFds)
      ensures fd >= 0 <==> outcome.AllWell?
      ensures fd >= 0 ==> fd == unused && registry == old(registry) + {fd}
      ensures fd < 0 ==> fd == -1 && registry == old(registry) && held == old(held)
    {
      if outcome.MissingObject? {
        return -1;
      }
      if outcome.AddFails? {
        return -1;
      }
      held := held.(programs := held.programs + 1);
      if outcome.NoPin? {
        Remove();
        return -1;
      }
      if outcome.MapFails? {
        Remove();
        return -1;
      }
      held := held.(maps := held.maps + 1);
      if outcome.NoHidraw? {
        held := held.(maps := held.maps - 1);
        Remove();
        return -1;
      }
      if outcome.HidrawFails? {
        held := held.(maps := held.maps - 1);
        Remove();
        return -1;
      }
      held := held.(hidraws := held.hidraws + 1);
      if outcome.PairFails? {
        held := held.(hidraws := held.hidraws - 1, maps := held.maps - 1);
        Remove();
        return -1;
      }
      held := held.(sockets := held.sockets + 2, states := held.states + 1);
      if outcome.RingFails? {
        held := held.(sockets := held.sockets - 2, hidraws := held.hidraws - 1, maps := held.maps - 1);
        Remove();
        held := held.(states := held.states - 1);
        return -1;
      }
      held := held.(rings := held.rings + 1);
      registry := registry + {unused};
      fd := unused;
    }

    /** udev-hid-bpf remove. */
    method Remove()
      requires held.programs > 0
      modifies this`held
      ensures held == old(held).(programs := old(held).programs - 1)
    {
      held := held.(programs := held.programs - 1);
    }

    method Close(fd: int)
      requires Valid()
      modifies this
      ensures Valid() && registry == old(registry) - {fd} && closedFds == old(closedFds) + [fd]
      ensures fd !in old(registry) ==> held == old(held)
    {
      closedFds := closedFds + [fd];
      if fd !in registry {
        return;
      }
      registry := registry - {fd};
      // The pump thread has been joined.
      held := held.(rings := held.rings - 1, maps := held.maps - 1, hidraws := held.hidraws - 1, sockets := held.sockets - 2);
      Remove();
      held := held.(states := held.states - 1);
    }
  }
}

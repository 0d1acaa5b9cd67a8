// The UI's request queue: IpcClient (ui/src/ipcclient.cpp) sends one command per connection
// and reports every outcome through replyReady; DaemonController (ui/src/daemoncontroller.cpp)
// listens to that signal, counts the user's commands in flight, and sends again from inside
// the slot.  The two classes call each other exactly as the source does, so a reply can start
// the next command, which can fail at once and reply while the first reply is still on the
// stack.
module IpcQueue {

  const STATUS := "status"
  const IDENTIFY := "identify"
  const TIMED_OUT := "Timed out waiting for the daemon."

  /** isHardwareTest: commands that poke the hardware and change no daemon state. */
  predicate IsHardwareTest(command: string) {
    command == IDENTIFY || "led" <= command
  }

  /** Commands the window counts as the user's. */
  predicate IsUserCommand(command: string) {
    command != STATUS && !IsHardwareTest(command)
  }

  function UserCommands(commands: seq<string>): nat {
    if commands == [] then 0
    else (if IsUserCommand(commands[0]) then 1 else 0) + UserCommands(commands[1..])
  }

  lemma {:induction false} UserCommandsAppend(a: seq<string>, b: seq<string>)
    ensures UserCommands(a + b) == UserCommands(a) + UserCommands(b)
  {
    if a == [] {
      assert a + b == b;
    } else {
      assert (a + b)[1..] == a[1..] + b;
      UserCommandsAppend(a[1..], b);
    }
  }

  /** One emission of replyReady. */
  datatype Reply = Reply(command: string, ok: bool, response: string)

  function CommandsOf(replies: seq<Reply>): seq<string> {
    seq(|replies|, i requires 0 <= i < |replies| => replies[i].command)
  }

  /** Whether connecting, writing and going non-blocking works; `Flaky` is anybody's guess. */
  datatype Reach = Up | Down | Flaky

  /** What read_available may report. */
  datatype Read = Data(bytes: string) | Again | Error | Eof

  class IpcClient {
    var queue: seq<string>
    var current: string
    var inFlight: bool
    var buffer: string
    var fd: int
    // The one receiver connected to replyReady.
    var listener: DaemonController?
    // The environment: whether the daemon can be reached.
    var daemon: Reach
    // History: every command handed to Send, and every reply emitted.
    ghost var sent: seq<string>
    ghost var replies: seq<Reply>

    constructor ()
      ensures queue == [] && !inFlight && listener == null && sent == [] && replies == []
    {
      queue, current, inFlight, buffer, fd, listener, daemon := [], "", false, "", -1, null, Flaky;
      sent, replies := [], [];
    }

    function Outstanding(): seq<string>
      reads this
    {
      if inFlight then [current] + queue else queue
    }

    /** Conservation: a command sent is replied to, in flight, or queued -- in that order. */
    ghost predicate Conserved()
      reads this
    {
      sent == CommandsOf(replies) + Outstanding()
    }

    /** The client and its listener agree. */
    ghost predicate Linked()
      reads this, listener
    {
      listener != null && listener.ipc == this && Conserved() && Truthful()
    }

    /** The listener shows how the last command fared. */
    ghost predicate Truthful()
      reads this, listener
    {
      listener != null && Tells(listener.Shows(), replies)
    }

    /** Between events: nothing waits while the line is idle, and the busy count is exact. */
    ghost predicate Stable()
      reads this, listener
    {
      && Linked()
      && (inFlight || queue == [])
      && listener.pendingCommands == UserCommands(Outstanding())
    }

    predicate IsBusy()
      reads this
    {
      inFlight || queue != []
    }

    method Send(command: string)
      requires Linked()
      requires listener.pendingCommands == UserCommands(Outstanding()) + UserCommands([command])
      modifies this, listener
      ensures listener == old(listener) && daemon == old(daemon)
      ensures Stable()
      ensures old(sent) + [command] == sent && old(replies) <= replies
      ensures old(inFlight) ==> inFlight && replies == old(replies) && queue == old(queue) + [command]
      ensures daemon.Down? && !old(inFlight) ==> queue == [] && !inFlight && CommandsOf(replies) == sent
      ensures daemon.Up? ==> replies == old(replies) && inFlight && unchanged(listener)
      decreases 0, |queue| + 1, 2
    {
      hide Tells, AfterReply;
      UserCommandsAppend(Outstanding(), [command]);
      queue := queue + [command];
      sent := sent + [command];
      assert Outstanding() == old(Outstanding()) + [command];
      if !inFlight {
        StartNext();
      }
    }

    method StartNext()
      requires Linked()
      requires listener.pendingCommands == UserCommands(Outstanding())
      modifies this, listener
      ensures listener == old(listener) && daemon == old(daemon)
      ensures Stable()
      ensures sent == old(sent) && old(replies) <= replies
      ensures old(inFlight) ==> inFlight && queue == old(queue) && current == old(current) && replies == old(replies)
      ensures daemon.Up? ==> replies == old(replies) && unchanged(listener)
      ensures daemon.Up? && !old(inFlight) && old(queue) != [] ==> inFlight && [current] + queue == old(queue) && buffer == ""
      ensures daemon.Down? && !old(inFlight) ==> queue == [] && !inFlight && CommandsOf(replies) == sent
      decreases 0, |queue|, 1
    {
      hide Tells, AfterReply;
      if inFlight || queue == [] {
        return;
      }
      current := queue[0];
      queue := queue[1..];
      buffer := "";
      inFlight := true;
      fd := ConnectSocket();
      assert Outstanding() == old(queue);
      if fd < 0 {
        Finish(false, "Failed to connect to translation daemon");
        return;
      }
      var written: bool := *;
      if !written && !daemon.Up? {
        Finish(false, "Failed to write to daemon");
        return;
      }
      var nonBlocking: bool := *;
      if !nonBlocking && !daemon.Up? {
        Finish(false, "Failed to set the socket non-blocking");
      }
    }

    method ConnectSocket() returns (socket: int)
      ensures daemon.Down? ==> socket < 0
      ensures daemon.Up? ==> socket >= 0
    {
      socket := *;
      if daemon.Down? {
        socket := -1;
      } else if daemon.Up? && socket < 0 {
        socket := 0;
      }
    }

    /** onReadable: drains what the kernel has; `reports` is what read_available will report. */
    method OnReadable(reports: seq<Read>)
      requires Stable()
      requires reports != [] && !reports[|reports| - 1].Data?
      modifies this, listener
      ensures listener == old(listener) && Stable()
      ensures old(replies) <= replies && old(sent) <= sent
      ensures !old(inFlight) ==> replies == old(replies) && sent == old(sent)
      ensures var text, end := old(buffer) + DataOf(reports), Ending(reports);
        old(inFlight) ==>
          if end.Again? then
            inFlight && current == old(current) && queue == old(queue) && replies == old(replies) && buffer == text
          else
            && |old(replies)| < |replies|
            && replies[|old(replies)|] ==
                 if end.Error? then Reply(old(current), false, "Failed to read from daemon")
                 else if text == "" then Reply(old(current), false, "No response from daemon (connection closed).")
                 else Reply(old(current), true, Trimmed(text))
    {
      if !inFlight {
        return;
      }
      hide Tells, AfterReply, Trimmed, CommandsOf, UserCommands, DataOf, Ending;
      var status := ReadAll(reports);
      if status != Again {
        Conclude(status);
      }
    }

    /** An error or the end of the connection ends the command. */
    method Conclude(status: Read)
      requires Stable() && inFlight && (status.Error? || status.Eof?)
      modifies this, listener
      ensures listener == old(listener) && Stable()
      ensures old(replies) < replies && old(sent) <= sent
      ensures replies[|old(replies)|] ==
        if status.Error? then Reply(old(current), false, "Failed to read from daemon")
        else if old(buffer) == "" then Reply(old(current), false, "No response from daemon (connection closed).")
        else Reply(old(current), true, Trimmed(old(buffer)))
    {
      hide Tells, AfterReply, Trimmed, CommandsOf, UserCommands;
      if status == Error {
        Finish(false, "Failed to read from daemon");
      } else if buffer == "" {
        Finish(false, "No response from daemon (connection closed).");
      } else {
        var response := TrimResponse(buffer);
        Finish(true, response);
      }
    }

    /** The read loop: data is appended, anything else ends it. */
    method ReadAll(reports: seq<Read>) returns (status: Read)
      requires reports != [] && !reports[|reports| - 1].Data?
      modifies this`buffer
      ensures buffer == old(buffer) + DataOf(reports) && status == Ending(reports) && !status.Data?
    {
      var i := 0;
      while reports[i].Data?
        invariant 0 <= i < |reports|
        invariant buffer + DataOf(reports[i..]) == old(buffer) + DataOf(reports)
        invariant Ending(reports[i..]) == Ending(reports)
        decreases |reports| - i
      {
        assert reports[i..][1..] == reports[i + 1..];
        buffer := buffer + reports[i].bytes;
        i := i + 1;
      }
      status := reports[i];
    }

    method OnTimeout()
      requires Stable()
      modifies this, listener
      ensures listener == old(listener) && Stable()
      ensures old(inFlight) ==> old(replies) + [Reply(old(current), false, TIMED_OUT)] <= replies
      ensures old(sent) <= sent && (!old(inFlight) ==> replies == old(replies) && sent == old(sent))
    {
      if inFlight {
        Finish(false, TIMED_OUT);
      }
    }

    /** finish: the slot connected to replyReady runs in the middle of it. */
    method Finish(ok: bool, response: string)
      requires Linked() && inFlight && (!ok ==> response != "")
      requires listener.pendingCommands == UserCommands(Outstanding())
      modifies this, listener
      ensures listener == old(listener) && daemon == old(daemon)
      ensures Stable()
      ensures old(replies) + [Reply(old(current), ok, response)] <= replies && old(sent) <= sent
      ensures daemon.Up? ==> replies == old(replies) + [Reply(old(current), ok, response)]
      ensures !ok ==> sent == old(sent)
      ensures daemon.Down? ==> queue == [] && !inFlight && CommandsOf(replies) == sent
      decreases if ok then 1 else 0, |queue|, 2
    {
      hide Tells, AfterReply, Trimmed;
      fd := -1;
      inFlight := false;
      var command := current;
      UserCommandsAppend([command], queue);
      current := "";
      buffer := "";
      replies := replies + [Reply(command, ok, response)];
      assert CommandsOf(replies) == CommandsOf(old(replies)) + [command];
      assert replies[..|replies| - 1] == old(replies);
      listener.OnReplyReady(command, ok, response);
      StartNext();
    }
  }

  /** What the data reads deliver, and the report that ends them. */
  function DataOf(reports: seq<Read>): string {
    if reports == [] || !reports[0].Data? then "" else reports[0].bytes + DataOf(reports[1..])
  }

  function Ending(reports: seq<Read>): Read
    requires reports != [] && !reports[|reports| - 1].Data?
  {
    if !reports[0].Data? then reports[0] else Ending(reports[1..])
  }

  predicate LineBreak(c: char) {
    c == '\n' || c == '\r'
  }

  function Trimmed(s: string): string {
    if s != "" && LineBreak(s[|s| - 1]) then Trimmed(s[..|s| - 1]) else s
  }

  /** trim_response */
  method TrimResponse(response: string) returns (r: string)
    ensures r == Trimmed(response)
  {
    r := response;
    while r != "" && (r[|r| - 1] == '\n' || r[|r| - 1] == '\r')
      invariant Trimmed(r) == Trimmed(response)
      decreases |r|
    {
      r := r[..|r| - 1];
    }
  }

  /** Only trailing line breaks go, and all of them do. */
  lemma {:induction false} TrimmedShape(s: string)
    ensures var r := Trimmed(s);
      && r <= s && (forall i :: |r| <= i < |s| ==> s[i] == '\n' || s[i] == '\r')
      && (r == "" || (r[|r| - 1] != '\n' && r[|r| - 1] != '\r'))
    decreases |s|
  {
    if s != "" && LineBreak(s[|s| - 1]) {
      TrimmedShape(s[..|s| - 1]);
    }
  }

  /** What the window shows of the daemon. */
  datatype Shown = Shown(online: bool, message: string, isError: bool)

  /** Coming back online takes an error message away. */
  function WentOnline(w: Shown): Shown {
    if !w.online && w.isError then Shown(true, "", false) else w.(online := true)
  }

  /** What a reply makes it show: a failed poll does not overwrite a message, a hardware test
      only reports failures, anything else reports what the daemon said. */
  function AfterReply(w: Shown, command: string, ok: bool, response: string): Shown {
    if !ok then
      if command == STATUS && w.message != "" then w.(online := false) else Shown(false, response, true)
    else if command == STATUS || (IsHardwareTest(command) && command != IDENTIFY && !("Error" <= response)) then
      WentOnline(w)
    else
      Shown(true, response, "Error" <= response)
  }

  /** A success of the user's own commands and of identify is reported in the daemon's words, one
      of a poll or of the led command is not; every failure is, except that a failing poll leaves
      a message standing. */
  lemma WhatIsShown(w: Shown, command: string, response: string)
    ensures var good, bad := AfterReply(w, command, true, response), AfterReply(w, command, false, response);
      && (command == "status" || ("led" <= command && !("Error" <= response)) ==> good == WentOnline(w))
      && (w.online || !w.isError ==> WentOnline(w) == w.(online := true))
      && (command != "status" && (command == "identify" || !("led" <= command) || "Error" <= response) ==> good.message == response)
      && (command == "status" && w.message != "" ==> bad == w.(online := false))
      && (command != "status" || w.message == "" ==> bad == Shown(false, response, true))
  {
    assert !("led" <= "status") && !("led" <= "identify") by {
      assert "status"[0] == 's' && "identify"[0] == 'i';
    }
  }

  /** Online exactly if the last command was answered; offline with a reason; and what is shown as
      an error while online is one the daemon reported, never anything else. */
  ghost predicate Tells(w: Shown, replies: seq<Reply>) {
    && (w.online <==> replies != [] && replies[|replies| - 1].ok)
    && (!w.online && replies != [] ==> w.message != "")
    && (w.online && w.isError ==> "Error" <= w.message)
    && (!w.isError ==> !("Error" <= w.message))
  }

  lemma ReplyTells(w: Shown, replies: seq<Reply>, r: Reply)
    requires Tells(w, replies) && (!r.ok ==> r.response != "")
    ensures Tells(AfterReply(w, r.command, r.ok, r.response), replies + [r])
  {
  }

  class DaemonController {
    var ipc: IpcClient
    var pendingCommands: int
    var interactions: nat
    var online: bool
    var lastMessage: string
    var lastMessageIsError: bool

    constructor ()
      ensures fresh(ipc) && ipc.Stable() && ipc.listener == this && ipc.sent == [STATUS]
    {
      ipc := new IpcClient();
      pendingCommands, interactions, online, lastMessage, lastMessageIsError := 0, 0, false, "", false;
      new;
      ipc.listener := this;
      RefreshStatus();
    }

    function Shows(): Shown
      reads this
    {
      Shown(online, lastMessage, lastMessageIsError)
    }

    method SendCommand(command: string)
      requires ipc.listener == this && ipc.Conserved() && ipc.Truthful()
      requires pendingCommands == UserCommands(ipc.Outstanding())
      modifies this, ipc
      ensures ipc == old(ipc) && ipc.listener == this && ipc.daemon == old(ipc.daemon)
      ensures ipc.Stable() && ipc.sent == old(ipc.sent) + [command] && old(ipc.replies) <= ipc.replies
      ensures ipc.daemon.Down? && !old(ipc.inFlight) ==> !ipc.inFlight
      ensures ipc.daemon.Up? ==> ipc.replies == old(ipc.replies) && Shows() == old(Shows())
      ensures ipc.daemon.Up? ==>
        pendingCommands == old(pendingCommands) + if command == "status" || command == "identify" || "led" <= command then 0 else 1
      decreases 0, |ipc.queue| + 1, 3
    {
      assert UserCommands([command]) == (if IsUserCommand(command) then 1 else 0) + UserCommands([]);
      if command != STATUS && !IsHardwareTest(command) {
        SetPendingCommands(pendingCommands + 1);
      }
      ipc.Send(command);
    }

    method SetPendingCommands(count: int)
      modifies this`pendingCommands
      ensures pendingCommands == count
    {
      if pendingCommands == count {
        return;
      }
      pendingCommands := count;
    }

    /** The poll: skipped while a request is outstanding or the user holds a control. */
    method RefreshStatus()
      requires ipc.listener == this && ipc.Stable()
      modifies this, ipc
      ensures ipc == old(ipc) && ipc.listener == this && ipc.Stable()
      ensures ipc.sent == old(ipc.sent) + if old(ipc.IsBusy() || interactions > 0) then [] else [STATUS]
      ensures old(ipc.replies) <= ipc.replies
    {
      if ipc.inFlight || ipc.queue != [] {
        return;
      }
      if interactions > 0 {
        return;
      }
      SendCommand(STATUS);
    }

    method OnReplyReady(command: string, ok: bool, response: string)
      requires ipc.listener == this && ipc.Conserved() && !ipc.inFlight
      requires ipc.replies != [] && Tells(Shows(), ipc.replies[..|ipc.replies| - 1])
      requires ipc.replies[|ipc.replies| - 1] == Reply(command, ok, response) && (!ok ==> response != "")
      requires pendingCommands == UserCommands([command]) + UserCommands(ipc.queue)
      modifies this, ipc
      ensures ipc == old(ipc) && ipc.listener == this && ipc.daemon == old(ipc.daemon)
      ensures ipc.Conserved() && pendingCommands == UserCommands(ipc.Outstanding()) && ipc.Truthful()
      ensures old(ipc.replies) <= ipc.replies
      ensures ipc.sent == old(ipc.sent) + if ok && IsUserCommand(command) then [STATUS] else []
      ensures !ok ==> ipc.queue == old(ipc.queue) && ipc.replies == old(ipc.replies) && !ipc.inFlight
      ensures ipc.daemon.Down? ==> !ipc.inFlight
      ensures ipc.daemon.Up? ==> ipc.replies == old(ipc.replies)
      ensures !ok || ipc.daemon.Up? ==> Shows() == AfterReply(old(Shows()), command, ok, response)
      decreases if ok then 1 else 0, |ipc.queue|, 1
    {
      var isStatus := command == STATUS;
      var isTest := IsHardwareTest(command);
      assert UserCommands([command]) == (if IsUserCommand(command) then 1 else 0) + UserCommands([]);
      if !isStatus && !isTest {
        SetPendingCommands(pendingCommands - 1);
      }
      assert !IsHardwareTest(STATUS) by {
        assert STATUS[0] == 's';
      }
      if !ok {
        SetOnline(false);
        if !isStatus || lastMessage == "" {
          SetMessage(response, true);
        }
      } else if isTest {
        SetOnline(true);
        var failed := "Error" <= response;
        if failed || command == IDENTIFY {
          SetMessage(response, failed);
        }
      } else if isStatus {
        SetOnline(true);
      } else {
        SetOnline(true);
        SetMessage(response, "Error" <= response);
        SendCommand(STATUS);
      }
    }

    method SetMessage(message: string, isError: bool)
      modifies this`lastMessage, this`lastMessageIsError
      ensures lastMessage == message && lastMessageIsError == isError
    {
      lastMessage, lastMessageIsError := message, isError;
    }

    method SetOnline(now: bool)
      modifies this`online, this`lastMessage, this`lastMessageIsError
      ensures Shows() == if now then WentOnline(old(Shows())) else old(Shows()).(online := false)
    {
      if online == now {
        return;
      }
      online := now;
      if online && lastMessageIsError {
        SetMessage("", false);
      }
    }

    method BeginInteraction()
      modifies this`interactions
      ensures interactions == old(interactions) + 1
    {
      interactions := interactions + 1;
    }

    method EndInteraction()
      modifies this`interactions
      ensures interactions == if old(interactions) > 0 then old(interactions) - 1 else 0
    {
      if interactions > 0 {
        interactions := interactions - 1;
      }
    }

    /** Any run of the event loop.  After it every command ever sent is replied to, in flight
        or queued, in sending order; nothing waits while the line is idle; and the busy count is
        the number of the user's commands still outstanding. */
    method EventLoop(events: seq<UiEvent>)
      requires ipc.listener == this && ipc.Stable()
      requires forall e :: e in events && e.Readable? ==> e.reports != [] && !e.reports[|e.reports| - 1].Data?
      modifies this, ipc
      ensures ipc == old(ipc) && ipc.listener == this && ipc.Stable()
      ensures old(ipc.sent) <= ipc.sent && old(ipc.replies) <= ipc.replies
    {
      hide Tells, CommandsOf, UserCommands, DataOf, Ending;
      for i := 0 to |events|
        invariant ipc == old(ipc) && ipc.listener == this && ipc.Stable()
        invariant old(ipc.sent) <= ipc.sent && old(ipc.replies) <= ipc.replies
      {
        assert events[i] in events;
        match events[i]
        case UserSends(command) => SendCommand(command);
        case Tick => RefreshStatus();
        case Readable(reports) => ipc.OnReadable(reports);
        case TimedOut => ipc.OnTimeout();
        case Begin => BeginInteraction();
        case End => EndInteraction();
        case DaemonBecomes(reach) => ipc.daemon := reach;
      }
    }
  }

  /** What the UI's event loop may deliver, in any order and any number. */
  datatype UiEvent =
    | UserSends(command: string)
    | Tick
    | Readable(reports: seq<Read>)
    | TimedOut
    | Begin
    | End
    | DaemonBecomes(reach: Reach)

  /** Nothing is lost or reordered: once the queue is idle the replies are exactly the commands
      sent, one each and in order, and the user has none outstanding.  And at any time between
      events the window is online exactly if the last command was answered, with the daemon's own
      error as the only error shown, and offline never without a reason. */
  lemma IdleMeansAllReplied(c: IpcClient)
    requires c.Stable()
    ensures !c.IsBusy() ==> CommandsOf(c.replies) == c.sent && c.listener.pendingCommands == 0
    ensures c.listener.online <==> c.replies != [] && c.replies[|c.replies| - 1].ok
    ensures !c.listener.online && c.replies != [] ==> c.listener.lastMessage != ""
    ensures c.listener.online ==> (c.listener.lastMessageIsError <==> "Error" <= c.listener.lastMessage)
  {
    if !c.IsBusy() {
      assert c.Outstanding() == [];
    }
  }
}

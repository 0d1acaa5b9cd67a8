// The two places that take a game's rumble/LED report apart and relay it to the physical
// controller: the UHID_OUTPUT branch of the daemon loop (src/main.cpp) and out_loop of the
// FunctionFS backend (src/functionfs-backend.c).  They were written separately and share only
// their global state.
module OutputHandlers {
  import opened Crc32
  import opened Reports
  import opened Controller

  /** cur_motor_*, cur_r/g/b, g_suppress_next_led_update and every report sent on. */
  datatype Sink = Sink(cur: OutputState, suppress: bool, sent: seq<OutputState>)

  function Flag(b: byte, weight: nat): bool
    requires weight > 0
  {
    (b / weight) % 2 == 1
  }

  // ------------------------------------------------------------------------ the code

  class Handlers {
    var cur: OutputState
    var suppressNextLed: bool
    var phyConnected: bool
    /** What went to send_physical_output_report. */
    var sent: seq<OutputState>

    ghost function View(): Sink
      reads this
    {
      Sink(cur, suppressNextLed, sent)
    }

    /** case UHID_OUTPUT */
    method UhidOutput(t: ControllerType, data: seq<byte>)
      modifies this
      ensures View() == UhidStep(t, old(View()), phyConnected, data) && phyConnected == old(phyConnected)
    {
      hide UhidRequest;
      var next, update := TakeUhid(t, data);
      if update {
        if next != cur {
          cur := next;
          if phyConnected {
            Send();
          }
        }
      }
    }

    /** Its first half: what the report asks for, on top of the current state. */
    method TakeUhid(t: ControllerType, data: seq<byte>) returns (next: OutputState, update: bool)
      modifies this`suppressNextLed
      ensures var q := UhidRequest(t, data);
        && next == Wanted(old(View()), q) && (!update ==> next == cur)
        && suppressNextLed == (old(suppressNextLed) && !q.colour.Wants?)
    {
      next, update := cur, false;
      if t == Ds4 {
        if |data| >= 9 && data[0] == 0x05 {
          if Flag(data[1], 1) {
            next, update := next.(motorRight := data[4], motorLeft := data[5]), true;
          }
          if Flag(data[1], 2) {
            if suppressNextLed {
              suppressNextLed := false;
            } else {
              next, update := next.(r := data[6], g := data[7], b := data[8]), true;
            }
          }
        } else if |data| >= 11 && data[0] == 0x11 {
          if Flag(data[3], 1) {
            next, update := next.(motorRight := data[6], motorLeft := data[7]), true;
          }
          if Flag(data[3], 2) {
            if suppressNextLed {
              suppressNextLed := false;
            } else {
              next, update := next.(r := data[8], g := data[9], b := data[10]), true;
            }
          }
        }
      } else if |data| >= 48 && data[0] == 0x02 {
        if Flag(data[1], 1) {
          next, update := next.(motorRight := data[3], motorLeft := data[4]), true;
          if Flag(data[1], 2) && next.motorRight > 0 && next.motorLeft > 0 {
            next := next.(motorLeft := 0);
          }
        }
        if Flag(data[2], 4) {
          if suppressNextLed {
            suppressNextLed := false;
          } else {
            next, update := next.(r := data[45], g := data[46], b := data[47]), true;
          }
        }
      }
    }

    /** out_loop, one read. */
    method FunctionFsOut(t: ControllerType, data: seq<byte>)
      modifies this
      ensures View() == FunctionFsStep(t, old(View()), phyConnected, data) && phyConnected == old(phyConnected)
    {
      if data == [] {
        return;
      }
      hide UsbRequest;
      var next, update := TakeFunctionFs(t, data);
      if update && phyConnected {
        if next != cur {
          cur := next;
          Send();
        }
      }
    }

    method TakeFunctionFs(t: ControllerType, data: seq<byte>) returns (next: OutputState, update: bool)
      requires data != []
      modifies this`suppressNextLed
      ensures var q := UsbRequest(t, data);
        && next == Wanted(old(View()), q) && (!update ==> next == cur)
        && suppressNextLed == (old(suppressNextLed) && !q.colour.Wants?)
    {
      next, update := cur, false;
      if t == Ds4 {
        if data[0] == 0x05 && |data| >= 9 {
          if Flag(data[1], 1) {
            next, update := next.(motorRight := data[4], motorLeft := data[5]), true;
          }
          if Flag(data[1], 2) {
            if suppressNextLed {
              suppressNextLed := false;
            } else {
              next, update := next.(r := data[6], g := data[7], b := data[8]), true;
            }
          }
        }
      } else if data[0] == 0x02 && |data| >= 48 {
        if Flag(data[1], 1) {
          next, update := next.(motorRight := data[3], motorLeft := data[4]), true;
          if Flag(data[1], 2) && next.motorRight > 0 && next.motorLeft > 0 {
            next := next.(motorLeft := 0);
          }
        }
        if Flag(data[2], 4) {
          if suppressNextLed {
            suppressNextLed := false;
          } else {
            next, update := next.(r := data[45], g := data[46], b := data[47]), true;
          }
        }
      }
    }

    method Send()
      modifies this`sent
      ensures sent == old(sent) + [cur]
    {
      sent := sent + [cur];
    }
  }

  // ----------------------------------------------------------- what a report asks for

  datatype Motors = Motors(left: byte, right: byte)
  datatype Colour = Colour(r: byte, g: byte, b: byte)
  datatype Wish<T> = Nothing | Wants(value: T)

  /** A report's two independent requests, by its layout alone. */
  datatype Request = Request(motors: Wish<Motors>, colour: Wish<Colour>)

  const NO_REQUEST := Request(Nothing, Nothing)

  function WhenFlag<T>(flag: bool, value: T): Wish<T> {
    if flag then Wants(value) else Nothing
  }

  /** DS4 in USB layout, and DualSense. */
  function UsbRequest(t: ControllerType, d: seq<byte>): Request {
    if t == Ds4 then
      if |d| < 9 || d[0] != 0x05 then NO_REQUEST
      else Request(WhenFlag(Flag(d[1], 1), Motors(d[5], d[4])), WhenFlag(Flag(d[1], 2), Colour(d[6], d[7], d[8])))
    else
      if |d| < 48 || d[0] != 0x02 then NO_REQUEST
      else
        // With haptics selected the heavy motor yields to the light one.
        var light := Flag(d[1], 2) && d[3] > 0 && d[4] > 0;
        Request(WhenFlag(Flag(d[1], 1), Motors(if light then 0 else d[4], d[3])),
                WhenFlag(Flag(d[2], 4), Colour(d[45], d[46], d[47])))
  }

  /** The Bluetooth layout, which only the UHID side knows. */
  function BluetoothRequest(t: ControllerType, d: seq<byte>): Request {
    if t != Ds4 || |d| < 11 || d[0] != 0x11 then NO_REQUEST
    else Request(WhenFlag(Flag(d[3], 1), Motors(d[7], d[6])), WhenFlag(Flag(d[3], 2), Colour(d[8], d[9], d[10])))
  }

  function UhidRequest(t: ControllerType, d: seq<byte>): Request {
    if t == Ds4 && d != [] && d[0] == 0x11 then BluetoothRequest(t, d) else UsbRequest(t, d)
  }

  /** The state a request leads to; a suppressed colour is dropped. */
  function Wanted(s: Sink, q: Request): OutputState {
    var m := if q.motors.Wants? then q.motors.value else Motors(s.cur.motorLeft, s.cur.motorRight);
    var c := if q.colour.Wants? && !s.suppress then q.colour.value else Colour(s.cur.r, s.cur.g, s.cur.b);
    OutputState(m.left, m.right, c.r, c.g, c.b)
  }

  function Relay(s: Sink, q: Request, keeps: bool, sends: bool): Sink {
    var next := Wanted(s, q);
    var changed := keeps && next != s.cur;
    Sink(if changed then next else s.cur,
         s.suppress && !q.colour.Wants?,
         if changed && sends then s.sent + [next] else s.sent)
  }

  function UhidStep(t: ControllerType, s: Sink, connected: bool, d: seq<byte>): Sink {
    Relay(s, UhidRequest(t, d), true, connected)
  }

  function FunctionFsStep(t: ControllerType, s: Sink, connected: bool, d: seq<byte>): Sink {
    Relay(s, UsbRequest(t, d), connected, connected)
  }

  function UhidRun(t: ControllerType, s: Sink, reports: seq<seq<byte>>): Sink
    decreases |reports|
  {
    if reports == [] then s else UhidRun(t, UhidStep(t, s, true, reports[0]), reports[1..])
  }

  function FunctionFsRun(t: ControllerType, s: Sink, reports: seq<seq<byte>>): Sink
    decreases |reports|
  {
    if reports == [] then s else FunctionFsRun(t, FunctionFsStep(t, s, true, reports[0]), reports[1..])
  }

  // ----------------------------------------------------------------------- agreement

  /** While a pad is connected the two handlers do exactly the same to a report, unless it is a
      DS4 report in Bluetooth layout. */
  lemma {:induction false} HandlersAgree(t: ControllerType, s: Sink, reports: seq<seq<byte>>)
    requires t == Ds4 ==> forall i :: 0 <= i < |reports| && reports[i] != [] ==> reports[i][0] != 0x11
    ensures UhidRun(t, s, reports) == FunctionFsRun(t, s, reports)
    decreases |reports|
  {
    if reports != [] {
      assert UhidStep(t, s, true, reports[0]) == FunctionFsStep(t, s, true, reports[0]);
      HandlersAgree(t, UhidStep(t, s, true, reports[0]), reports[1..]);
    }
  }

  /** Without a pad they differ exactly on the reports that change something: only the UHID
      side remembers the new state for the next connection. */
  lemma HandlersDifferIff(t: ControllerType, s: Sink, d: seq<byte>)
    requires t == Ds4 && d != [] ==> d[0] != 0x11
    ensures UhidStep(t, s, false, d) == FunctionFsStep(t, s, false, d) <==> Wanted(s, UsbRequest(t, d)) == s.cur
  {
  }

  /** Such a report: a DS4 rumble command while nothing is connected. */
  lemma RumbleWithoutPad()
    ensures var s := Sink(OutputState(0, 0, 0, 0, 255), false, []);
      var d := [0x05, 0x01, 0, 0, 40, 80, 0, 0, 0];
      && UhidStep(Ds4, s, false, d).cur == OutputState(80, 40, 0, 0, 255)
      && FunctionFsStep(Ds4, s, false, d).cur == s.cur
  {
  }

  // ------------------------------------------------------------------ what games write

  /** A report the way a game fills it in: identifier, flags and values at their places, and
      whatever there was before everywhere else. */
  function Ds4Usb(d: seq<byte>, flags: byte, m: Motors, c: Colour): (r: seq<byte>)
    requires |d| >= 9
    ensures |r| == |d|
  {
    d[0 := 0x05][1 := flags][4 := m.right][5 := m.left][6 := c.r][7 := c.g][8 := c.b]
  }

  function Ds4Bluetooth(d: seq<byte>, flags: byte, m: Motors, c: Colour): (r: seq<byte>)
    requires |d| >= 11
    ensures |r| == |d|
  {
    d[0 := 0x11][3 := flags][6 := m.right][7 := m.left][8 := c.r][9 := c.g][10 := c.b]
  }

  function DualSenseUsb(d: seq<byte>, flags0: byte, flags1: byte, m: Motors, c: Colour): (r: seq<byte>)
    requires |d| >= 48
    ensures |r| == |d|
  {
    d[0 := 0x02][1 := flags0][2 := flags1][3 := m.right][4 := m.left][45 := c.r][46 := c.g][47 := c.b]
  }

  /** The state that follows: the motors and the colour written, where they are asked for. */
  function Asked(s: Sink, rumble: bool, m: Motors, light: bool, c: Colour): OutputState {
    OutputState(if rumble then m.left else s.cur.motorLeft, if rumble then m.right else s.cur.motorRight,
                if light && !s.suppress then c.r else s.cur.r,
                if light && !s.suppress then c.g else s.cur.g,
                if light && !s.suppress then c.b else s.cur.b)
  }

  /** A handler with a controller connected went to that state and sent it if it is news. */
  ghost predicate WentTo(n: Sink, s: Sink, wanted: OutputState, light: bool) {
    && n.cur == wanted && (n.suppress <==> s.suppress && !light)
    && n.sent == s.sent + if wanted == s.cur then [] else [wanted]
  }

  /** A DualShock 4 report in USB layout: bit 0 asks for the motors, bit 1 for the colour, and
      nothing else in it matters to either handler. */
  lemma Ds4UsbIsObeyed(s: Sink, d: seq<byte>, flags: byte, m: Motors, c: Colour)
    requires |d| >= 9
    ensures var report, rumble, light := Ds4Usb(d, flags, m, c), flags % 2 == 1, (flags / 2) % 2 == 1;
      && WentTo(UhidStep(Ds4, s, true, report), s, Asked(s, rumble, m, light, c), light)
      && WentTo(FunctionFsStep(Ds4, s, true, report), s, Asked(s, rumble, m, light, c), light)
  {
    var report := Ds4Usb(d, flags, m, c);
    assert report[0] == 0x05 && report[1] == flags && report[4] == m.right && report[5] == m.left;
    assert Colour(report[6], report[7], report[8]) == c;
  }

  /** In Bluetooth layout, which only UHID delivers. */
  lemma Ds4BluetoothIsObeyed(s: Sink, d: seq<byte>, flags: byte, m: Motors, c: Colour)
    requires |d| >= 11
    ensures var report, rumble, light := Ds4Bluetooth(d, flags, m, c), flags % 2 == 1, (flags / 2) % 2 == 1;
      && WentTo(UhidStep(Ds4, s, true, report), s, Asked(s, rumble, m, light, c), light)
      && FunctionFsStep(Ds4, s, true, report) == s
  {
    var report := Ds4Bluetooth(d, flags, m, c);
    assert report[0] == 0x11 && report[3] == flags && report[6] == m.right && report[7] == m.left;
    assert Colour(report[8], report[9], report[10]) == c;
  }

  /** A DualSense report: bit 0 of the first flags asks for the motors and bit 2 of the second for
      the colour; with bit 1 of the first (haptics) and both motors on the left one is off. */
  lemma DualSenseIsObeyed(t: ControllerType, s: Sink, d: seq<byte>, flags0: byte, flags1: byte, m: Motors, c: Colour)
    requires |d| >= 48 && !t.Ds4?
    ensures var report, rumble, light := DualSenseUsb(d, flags0, flags1, m, c), flags0 % 2 == 1, (flags1 / 4) % 2 == 1;
      var quiet := (flags0 / 2) % 2 == 1 && m.left > 0 && m.right > 0;
      var wanted := Asked(s, rumble, if quiet then Motors(0, m.right) else m, light, c);
      && WentTo(UhidStep(t, s, true, report), s, wanted, light)
      && WentTo(FunctionFsStep(t, s, true, report), s, wanted, light)
  {
    var report := DualSenseUsb(d, flags0, flags1, m, c);
    assert report[0] == 0x02 && report[1] == flags0 && report[2] == flags1 && report[3] == m.right && report[4] == m.left;
    assert Colour(report[45], report[46], report[47]) == c;
  }

  /** Everything else asks for nothing: other identifiers, and reports too short for theirs. */
  lemma OthersAreIgnored(t: ControllerType, s: Sink, connected: bool, d: seq<byte>)
    requires t.Ds4? && |d| >= 9 ==> d[0] != 0x05
    requires t.Ds4? && |d| >= 11 ==> d[0] != 0x11
    requires !t.Ds4? && |d| >= 48 ==> d[0] != 0x02
    ensures UhidStep(t, s, connected, d) == s && FunctionFsStep(t, s, connected, d) == s
  {
  }

  /** What the daemon itself sends to a controller over Bluetooth says to this end what was meant. */
  lemma OwnReportIsUnderstood(s: Sink, wanted: OutputState)
    requires !s.suppress
    ensures UhidStep(Ds4, s, true, BluetoothOutput(wanted)).cur == wanted
  {
    hide Crc;
    var report := BluetoothOutput(wanted);
    assert forall i :: 0 <= i < 74 ==> report[i] == BodyByte(wanted, i);
  }

  // -------------------------------------------------------------------- folding reports

  function Requests(t: ControllerType, reports: seq<seq<byte>>): seq<Request> {
    if reports == [] then [] else [UhidRequest(t, reports[0])] + Requests(t, reports[1..])
  }

  /** The last value asked for. */
  function LastMotors(qs: seq<Request>, initial: Motors): Motors {
    if qs == [] then initial
    else
      var q := qs[|qs| - 1];
      if q.motors.Wants? then q.motors.value else LastMotors(qs[..|qs| - 1], initial)
  }

  function LastColour(qs: seq<Request>, initial: Colour): Colour {
    if qs == [] then initial
    else
      var q := qs[|qs| - 1];
      if q.colour.Wants? then q.colour.value else LastColour(qs[..|qs| - 1], initial)
  }

  /** The requests with the colour of the first one that carries one taken out. */
  function WithoutFirstColour(qs: seq<Request>): seq<Request> {
    if qs == [] then []
    else if qs[0].colour.Wants? then [qs[0].(colour := Nothing)] + qs[1..]
    else [qs[0]] + WithoutFirstColour(qs[1..])
  }

  function MotorsOf(s: OutputState): Motors {
    Motors(s.motorLeft, s.motorRight)
  }

  function ColourOf(s: OutputState): Colour {
    Colour(s.r, s.g, s.b)
  }

  /** After any sequence of reports the motors are the last ones asked for, and so is the
      colour -- except that right after the device was created exactly the first report asking
      for one loses it. */
  lemma {:induction false} StateIsLastRequested(t: ControllerType, s: Sink, reports: seq<seq<byte>>)
    ensures var qs, end := Requests(t, reports), UhidRun(t, s, reports);
      && MotorsOf(end.cur) == LastMotors(qs, MotorsOf(s.cur))
      && ColourOf(end.cur) == LastColour(if s.suppress then WithoutFirstColour(qs) else qs, ColourOf(s.cur))
    decreases |reports|
  {
    if reports != [] {
      var q, next := UhidRequest(t, reports[0]), UhidStep(t, s, true, reports[0]);
      var qs := Requests(t, reports[1..]);
      StateIsLastRequested(t, next, reports[1..]);
      LastMotorsFirst(q, qs, MotorsOf(s.cur));
      if !s.suppress {
        LastColourFirst(q, qs, ColourOf(s.cur));
      } else if q.colour.Wants? {
        LastColourFirst(q.(colour := Nothing), qs, ColourOf(s.cur));
      } else {
        LastColourFirst(q, WithoutFirstColour(qs), ColourOf(s.cur));
      }
    }
  }

  lemma {:induction false} LastMotorsFirst(q: Request, qs: seq<Request>, initial: Motors)
    ensures LastMotors([q] + qs, initial) ==
              LastMotors(qs, if q.motors.Wants? then q.motors.value else initial)
    decreases |qs|
  {
    var all := [q] + qs;
    if qs == [] {
      assert all[..0] == [];
    } else {
      assert all[..|all| - 1] == [q] + qs[..|qs| - 1];
      LastMotorsFirst(q, qs[..|qs| - 1], initial);
    }
  }

  lemma {:induction false} LastColourFirst(q: Request, qs: seq<Request>, initial: Colour)
    ensures LastColour([q] + qs, initial) ==
              LastColour(qs, if q.colour.Wants? then q.colour.value else initial)
    decreases |qs|
  {
    var all := [q] + qs;
    if qs == [] {
      assert all[..0] == [];
    } else {
      assert all[..|all| - 1] == [q] + qs[..|qs| - 1];
      LastColourFirst(q, qs[..|qs| - 1], initial);
    }
  }

  // ------------------------------------------------------------------------ what is sent

  /** Nothing is sent twice in a row, and the controller was last sent the current state. */
  ghost predicate SendsAreNews(initial: OutputState, s: Sink) {
    && (forall i :: 0 < i < |s.sent| ==> s.sent[i] != s.sent[i - 1])
    && (s.sent != [] ==> s.sent[0] != initial)
    && s.cur == if s.sent == [] then initial else s.sent[|s.sent| - 1]
  }

  lemma {:induction false} OnlyChangesAreSent(t: ControllerType, initial: OutputState, s: Sink, reports: seq<seq<byte>>)
    requires SendsAreNews(initial, s)
    ensures SendsAreNews(initial, UhidRun(t, s, reports))
    decreases |reports|
  {
    if reports != [] {
      OneRelay(initial, s, UhidRequest(t, reports[0]));
      OnlyChangesAreSent(t, initial, UhidStep(t, s, true, reports[0]), reports[1..]);
    }
  }

  lemma OneRelay(initial: OutputState, s: Sink, q: Request)
    requires SendsAreNews(initial, s)
    ensures SendsAreNews(initial, Relay(s, q, true, true))
  {
  }
}

// The live-input line protocol of src/ipc-client.cpp -- STATE, TIMING and OUTPUT lines, their
// printers and parsers -- and the framing loop that cuts a byte stream into lines
// (ui/src/inputmonitor.cpp, src/ctl.cpp).
module LineProtocol {
  import opened Crc32
  import opened Text

  datatype TouchPoint = TouchPoint(active: bool, x: int, y: int)

  /** A uint16_t button mask as its bits, kBtnSquare first. */
  type Buttons = b: seq<bool> | |b| == 16 witness BitsOf(0, 16)

  datatype InputState = InputState(
    source: string,
    lx: byte, ly: byte, rx: byte, ry: byte, l2: byte, r2: byte,
    buttons: Buttons,
    dpad: byte,
    gyro: (int, int, int),
    accel: (int, int, int),
    touch0: TouchPoint,
    touch1: TouchPoint,
    hasMotion: bool,
    hasTouch: bool)

  datatype TimingStats = TimingStats(
    reports: nat, windowUs: nat,
    intervalMeanUs: nat, intervalMinUs: nat, intervalMaxUs: nat,
    latencyMeanUs: nat, latencyMaxUs: nat)

  datatype Output = Output(red: int, green: int, blue: int, rumbleLeft: int, rumbleRight: int)

  datatype Option<T> = None | Some(value: T)

  // ------------------------------------------------------------------- buttons and touches

  /** The three HID button bytes: d-pad nibble, then one bit per button. */
  function ButtonBytes(buttons: Buttons, dpad: byte): (bytes: seq<byte>)
    ensures |bytes| == 3
  {
    var b0 := BitsOf(dpad, 8)[..4] + buttons[..4];      // square cross circle triangle
    var b1 := buttons[4..12];                           // l1 r1 l2 r2 share options l3 r3
    var b2 := buttons[12..14] + Zeros(6);               // ps touchpad
    [ByteOf(b0), ByteOf(b1), ByteOf(b2)]
  }

  /** decode_buttons */
  function DecodeButtons(bytes: seq<byte>): (Buttons, byte)
    requires |bytes| == 3
  {
    var b0, b1, b2 := BitsOf(bytes[0], 8), BitsOf(bytes[1], 8), BitsOf(bytes[2], 8);
    (b0[4..] + b1 + b2[..2] + Zeros(2), LowNibble(bytes[0]))
  }

  /** b & 0x0F */
  function LowNibble(b: byte): byte {
    BitsOfNatOf(BitsOf(b, 8)[..4]);
    assert Pow2(4) == 16;
    NatOfBound(BitsOf(b, 8)[..4]);
    NatOf(BitsOf(b, 8)[..4])
  }

  lemma {:induction false} BitsOfPrefix(v: nat, n: nat, k: nat)
    requires k <= n
    ensures BitsOf(v, n)[..k] == BitsOf(v, k)
    decreases k
  {
    if k > 0 {
      BitsOfPrefix(v / 2, n - 1, k - 1);
      assert BitsOf(v, n)[..k] == [v % 2 == 1] + BitsOf(v / 2, n - 1)[..k - 1];
    }
  }

  lemma SameNibble(b: byte, d: byte)
    requires BitsOf(b, 8)[..4] == BitsOf(d, 8)[..4]
    ensures LowNibble(b) == LowNibble(d)
  {
  }

  lemma NibbleIsAll(d: byte)
    ensures LowNibble(d) == d <==> d < 16
    ensures LowNibble(d) < 16
  {
    NatOfBound(BitsOf(d, 8)[..4]);
    assert Pow2(4) == 16;
    if d < 16 {
      BitsOfPrefix(d, 8, 4);
      NatOfBitsOf(d, 4);
    }
  }

  /** A mask with no bit above the touchpad button, and a d-pad nibble, survive the bytes. */
  lemma ButtonsSurvive(buttons: Buttons, dpad: byte)
    requires dpad < 16
    ensures DecodeButtons(ButtonBytes(buttons, dpad)) == (buttons[..14] + Zeros(2), dpad)
  {
    hide BitsOf, LowNibble, ByteOf, Zeros;
    var bytes := ButtonBytes(buttons, dpad);
    var b0 := BitsOf(bytes[0], 8);
    assert b0[..4] == BitsOf(dpad, 8)[..4] && b0[4..] == buttons[..4];
    assert BitsOf(bytes[2], 8)[..2] == buttons[12..14];
    assert buttons[..4] + buttons[4..12] + buttons[12..14] == buttons[..14];
    SameNibble(bytes[0], dpad);
    NibbleIsAll(dpad);
  }

  /** decode_touch_point: x and y are 12 bits each, sharing the third byte. */
  function DecodeTouchPoint(bytes: seq<byte>): TouchPoint
    requires |bytes| == 4
  {
    var xLow: int, shared: int, yHigh: int := bytes[1], bytes[2], bytes[3];
    TouchPoint(bytes[0] < 0x80, xLow + 256 * (shared % 16), shared / 16 + 16 * yHigh)
  }

  /** How a pad packs a contact: the counter, whose top bit says there is none, and two numbers of
      12 bits, lowest bits first. */
  function PackTouchPoint(counter: byte, x: nat, y: nat): (bytes: seq<byte>)
    requires x < 4096 && y < 4096
    ensures |bytes| == 4
  {
    [counter, x % 256, 16 * (y % 16) + x / 256, y / 16]
  }

  /** Every contact is decoded to exactly what was packed ... */
  lemma TouchPointRoundTrip(counter: byte, x: nat, y: nat)
    requires x < 4096 && y < 4096
    ensures DecodeTouchPoint(PackTouchPoint(counter, x, y)) == TouchPoint(counter < 128, x, y)
  {
    var shared := 16 * (y % 16) + x / 256;
    assert shared % 16 == x / 256 && shared / 16 == y % 16;
  }

  /** ... and there are no other bytes than packed ones. */
  lemma EveryTouchPointIsPacked(bytes: seq<byte>)
    requires |bytes| == 4
    ensures var p := DecodeTouchPoint(bytes);
      0 <= p.x < 4096 && 0 <= p.y < 4096 && bytes == PackTouchPoint(bytes[0], p.x, p.y)
  {
    var p := DecodeTouchPoint(bytes);
    var shared: int := bytes[2];
    assert shared == 16 * (shared / 16) + shared % 16;
    assert p.x % 256 == bytes[1] && p.x / 256 == shared % 16;
    assert p.y % 16 == shared / 16 && p.y / 16 == bytes[3];
  }

  /** So two contacts differ exactly if their bytes do, up to the counter. */
  lemma TouchPointsAreDistinct(a: seq<byte>, b: seq<byte>)
    requires |a| == |b| == 4
    ensures DecodeTouchPoint(a) == DecodeTouchPoint(b) <==>
              (a[0] < 0x80 <==> b[0] < 0x80) && a[1..] == b[1..]
    ensures 0 <= DecodeTouchPoint(a).x < 4096 && 0 <= DecodeTouchPoint(a).y < 4096
  {
    EveryTouchPointIsPacked(a);
    EveryTouchPointIsPacked(b);
    var p, q := DecodeTouchPoint(a), DecodeTouchPoint(b);
    TouchPointRoundTrip(a[0], p.x, p.y);
    TouchPointRoundTrip(b[0], q.x, q.y);
    if a[1..] == b[1..] {
      assert b == [b[0]] + a[1..] == PackTouchPoint(b[0], p.x, p.y);
      TouchPointRoundTrip(b[0], p.x, p.y);
    }
  }

  // ----------------------------------------------------------------------------- printing

  /** snprintf into a buffer of `size` bytes. */
  function Snprintf(text: string, size: nat): string
    requires size > 0
  {
    if |text| < size then text else text[..size - 1]
  }

  function Active(t: TouchPoint): int {
    if t.active then 1 else 0
  }

  /** The first ten tokens: what every daemon version prints. */
  function BaseTokens(s: InputState): (t: seq<string>)
    ensures |t| == 10
  {
    AxisTokens(s) + ButtonTokens(s)
  }

  function AxisTokens(s: InputState): (t: seq<string>)
    ensures |t| == 7
  {
    [s.source, Print(s.lx, 10), Print(s.ly, 10), Print(s.rx, 10), Print(s.ry, 10), Print(s.l2, 10), Print(s.r2, 10)]
  }

  function ButtonTokens(s: InputState): (t: seq<string>)
    ensures |t| == 3
  {
    var b := ButtonBytes(s.buttons, s.dpad);
    [PrintHex2(b[0]), PrintHex2(b[1]), PrintHex2(b[2])]
  }

  function MotionTokens(s: InputState): (t: seq<string>)
    ensures |t| == 6
  {
    [PrintInt(s.gyro.0), PrintInt(s.gyro.1), PrintInt(s.gyro.2),
     PrintInt(s.accel.0), PrintInt(s.accel.1), PrintInt(s.accel.2)]
  }

  function TouchTokens(s: InputState): (t: seq<string>)
    ensures |t| == 6
  {
    [PrintInt(Active(s.touch0)), PrintInt(s.touch0.x), PrintInt(s.touch0.y),
     PrintInt(Active(s.touch1)), PrintInt(s.touch1.x), PrintInt(s.touch1.y)]
  }

  /** format_state_line */
  function FormatState(s: InputState): string
  {
    Snprintf("STATE" + Fields(BaseTokens(s) + MotionTokens(s) + TouchTokens(s)) + "\n", 256)
  }

  function TimingTokens(t: TimingStats): (ts: seq<string>)
    ensures |ts| == 7
  {
    [Print(t.reports, 10), Print(t.windowUs, 10), Print(t.intervalMeanUs, 10), Print(t.intervalMinUs, 10),
     Print(t.intervalMaxUs, 10), Print(t.latencyMeanUs, 10), Print(t.latencyMaxUs, 10)]
  }

  /** format_timing_line */
  function FormatTiming(t: TimingStats): string {
    Snprintf("TIMING" + Fields(TimingTokens(t)) + "\n", 128)
  }

  function OutputTokens(o: Output): (ts: seq<string>)
    ensures |ts| == 5
  {
    [PrintInt(o.red), PrintInt(o.green), PrintInt(o.blue), PrintInt(o.rumbleLeft), PrintInt(o.rumbleRight)]
  }

  /** format_output_line */
  function FormatOutput(o: Output): string {
    Snprintf("OUTPUT" + Fields(OutputTokens(o)) + "\n", 64)
  }

  // ------------------------------------------------------------------------------ parsing

  const STATE_FORMAT: seq<Conversion> :=
    [Word(15), Decimal, Decimal, Decimal, Decimal, Decimal, Decimal, Hex, Hex, Hex,
     Int, Int, Int, Int, Int, Int, Int, Int, Int, Int, Int, Int]
  const TIMING_FORMAT: seq<Conversion> := [Decimal, Long, Decimal, Decimal, Decimal, Decimal, Decimal]
  const OUTPUT_FORMAT: seq<Conversion> := [Decimal, Decimal, Decimal, Decimal, Decimal]

  function NumAt(vs: seq<Value>, i: nat): int {
    if i < |vs| && vs[i].Num? then vs[i].i else 0
  }

  /** static_cast<uint8_t> and static_cast<int16_t> */
  function Byte(i: int): (b: byte)
    ensures 0 <= i < 256 ==> b == i
  {
    i % 256
  }

  function Int16(i: int): (r: int)
    ensures IsInt16(i) ==> r == i
  {
    (i + 0x8000) % 0x1_0000 - 0x8000
  }

  /** The casts keep what fits and drop whole turns of the type. */
  lemma CastsWrap(i: int, k: int)
    ensures 0 <= i < 256 ==> Byte(i + 256 * k) == i
    ensures -0x8000 <= i < 0x8000 ==> Int16(i + 0x1_0000 * k) == i
  {
  }

  /** parse_state, from the scanned values on. */
  function StateOf(vs: seq<Value>): Option<InputState>
    requires vs != [] ==> vs[0].Str?
  {
    if |vs| != 22 && |vs| != 16 && |vs| != 10 then None
    else
      var (buttons, dpad) := DecodeButtons([Byte(NumAt(vs, 7)), Byte(NumAt(vs, 8)), Byte(NumAt(vs, 9))]);
      Some(InputState(
        vs[0].s,
        Byte(NumAt(vs, 1)), Byte(NumAt(vs, 2)), Byte(NumAt(vs, 3)), Byte(NumAt(vs, 4)), Byte(NumAt(vs, 5)), Byte(NumAt(vs, 6)),
        buttons, dpad,
        (Int16(NumAt(vs, 10)), Int16(NumAt(vs, 11)), Int16(NumAt(vs, 12))),
        (Int16(NumAt(vs, 13)), Int16(NumAt(vs, 14)), Int16(NumAt(vs, 15))),
        TouchPoint(NumAt(vs, 16) != 0, NumAt(vs, 17), NumAt(vs, 18)),
        TouchPoint(NumAt(vs, 19) != 0, NumAt(vs, 20), NumAt(vs, 21)),
        |vs| >= 16, |vs| == 22))
  }

  /** parse_state */
  function ParseState(line: string): Option<InputState> {
    if "STATE " <= line then StateOf(ScanAll(STATE_FORMAT, line[5..])) else None
  }

  /** parse_timing */
  function ParseTiming(line: string): Option<TimingStats> {
    if "TIMING " <= line then TimingOf(ScanAll(TIMING_FORMAT, line[6..])) else None
  }

  function TimingOf(vs: seq<Value>): Option<TimingStats>
    requires forall i :: 0 <= i < |vs| ==> vs[i].Num? && vs[i].i >= 0
  {
    if |vs| != 7 then None
    else Some(TimingStats(vs[0].i, vs[1].i, vs[2].i, vs[3].i, vs[4].i, vs[5].i, vs[6].i))
  }

  /** parse_output: scanned as unsigned, stored as int. */
  function ParseOutput(line: string): Option<Output> {
    if "OUTPUT " <= line then OutputOf(ScanAll(OUTPUT_FORMAT, line[6..])) else None
  }

  function OutputOf(vs: seq<Value>): Option<Output> {
    if |vs| != 5 then None
    else Some(Output(Wrap32(NumAt(vs, 0)), Wrap32(NumAt(vs, 1)), Wrap32(NumAt(vs, 2)), Wrap32(NumAt(vs, 3)), Wrap32(NumAt(vs, 4))))
  }

  // --------------------------------------------------------------- printed, then parsed

  /** The states the daemon can print: every field inside the type it is declared with. */
  ghost predicate InRange(s: InputState) {
    && 0 < |s.source| <= 15 && (forall i :: 0 <= i < |s.source| ==> !IsSpace(s.source[i]))
    && s.buttons[14..] == Zeros(2) && s.dpad < 16
    && IsInt16(s.gyro.0) && IsInt16(s.gyro.1) && IsInt16(s.gyro.2)
    && IsInt16(s.accel.0) && IsInt16(s.accel.1) && IsInt16(s.accel.2)
    && IsInt32(s.touch0.x) && IsInt32(s.touch0.y) && IsInt32(s.touch1.x) && IsInt32(s.touch1.y)
  }

  predicate IsInt16(i: int) {
    -0x8000 <= i < 0x8000
  }

  predicate IsInt32(i: int) {
    -(U32 / 2) <= i < U32 / 2
  }

  function StateTokens(s: InputState): (t: seq<string>)
    ensures |t| == 22
  {
    BaseTokens(s) + MotionTokens(s) + TouchTokens(s)
  }

  function BaseValues(s: InputState): (v: seq<Value>)
    ensures |v| == 10
  {
    AxisValues(s) + ButtonValues(s)
  }

  function AxisValues(s: InputState): seq<Value> {
    [Str(s.source), Num(s.lx), Num(s.ly), Num(s.rx), Num(s.ry), Num(s.l2), Num(s.r2)]
  }

  function ButtonValues(s: InputState): seq<Value> {
    var b := ButtonBytes(s.buttons, s.dpad);
    [Num(b[0]), Num(b[1]), Num(b[2])]
  }

  function MotionValues(s: InputState): (v: seq<Value>)
    ensures |v| == 6
  {
    [Num(s.gyro.0), Num(s.gyro.1), Num(s.gyro.2), Num(s.accel.0), Num(s.accel.1), Num(s.accel.2)]
  }

  function TouchValues(s: InputState): (v: seq<Value>)
    ensures |v| == 6
  {
    [Num(Active(s.touch0)), Num(s.touch0.x), Num(s.touch0.y), Num(Active(s.touch1)), Num(s.touch1.x), Num(s.touch1.y)]
  }

  /** Token by token. */
  ghost predicate AllRead(cs: seq<Conversion>, tokens: seq<string>, vs: seq<Value>) {
    |tokens| == |vs| <= |cs| && forall i :: 0 <= i < |tokens| ==> ReadsAs(cs[i], tokens[i], vs[i])
  }

  lemma AllReadAppend(cs: seq<Conversion>, t: seq<string>, v: seq<Value>, ds: seq<Conversion>, u: seq<string>, w: seq<Value>)
    requires |cs| == |t| && AllRead(cs, t, v) && AllRead(ds, u, w)
    ensures AllRead(cs + ds, t + u, v + w)
  {
    hide ReadsAs;
    forall i | 0 <= i < |t + u|
      ensures ReadsAs((cs + ds)[i], (t + u)[i], (v + w)[i])
    {
      if i >= |t| {
        assert ReadsAs(ds[i - |t|], u[i - |t|], w[i - |t|]);
      }
    }
  }

  lemma AxisTokensRead(s: InputState)
    requires InRange(s)
    ensures AllRead(STATE_FORMAT[..7], AxisTokens(s), AxisValues(s))
  {
    hide ReadsAs, Print;
    WordReads(s.source, 15);
    PrintedReads(Decimal, s.lx);
    PrintedReads(Decimal, s.ly);
    PrintedReads(Decimal, s.rx);
    PrintedReads(Decimal, s.ry);
    PrintedReads(Decimal, s.l2);
    PrintedReads(Decimal, s.r2);
  }

  lemma ButtonTokensRead(s: InputState)
    ensures AllRead(STATE_FORMAT[7..10], ButtonTokens(s), ButtonValues(s))
  {
    hide ReadsAs;
    var b := ButtonBytes(s.buttons, s.dpad);
    DigitsRead(Hex, PrintHex2(b[0]), b[0]);
    DigitsRead(Hex, PrintHex2(b[1]), b[1]);
    DigitsRead(Hex, PrintHex2(b[2]), b[2]);
  }

  lemma MotionTokensRead(s: InputState)
    requires InRange(s)
    ensures AllRead(STATE_FORMAT[10..16], MotionTokens(s), MotionValues(s))
  {
    hide ReadsAs, PrintInt;
    PrintedIntReads(s.gyro.0);
    PrintedIntReads(s.gyro.1);
    PrintedIntReads(s.gyro.2);
    PrintedIntReads(s.accel.0);
    PrintedIntReads(s.accel.1);
    PrintedIntReads(s.accel.2);
  }

  lemma TouchTokensRead(s: InputState)
    requires InRange(s)
    ensures AllRead(STATE_FORMAT[16..], TouchTokens(s), TouchValues(s))
  {
    hide ReadsAs, PrintInt;
    PrintedIntReads(Active(s.touch0));
    PrintedIntReads(s.touch0.x);
    PrintedIntReads(s.touch0.y);
    PrintedIntReads(Active(s.touch1));
    PrintedIntReads(s.touch1.x);
    PrintedIntReads(s.touch1.y);
  }

  /** What a line cut after `n` tokens tells: the fields it has, the others zero. */
  function Known(s: InputState, n: nat): InputState {
    var none := TouchPoint(false, 0, 0);
    s.(gyro := if n >= 16 then s.gyro else (0, 0, 0), accel := if n >= 16 then s.accel else (0, 0, 0),
       touch0 := if n == 22 then s.touch0 else none, touch1 := if n == 22 then s.touch1 else none,
       hasMotion := n >= 16, hasTouch := n == 22)
  }

  lemma FieldsStart(tokens: seq<string>)
    requires tokens != []
    ensures Fields(tokens) != "" && Fields(tokens)[0] == ' '
  {
  }

  lemma NameThenFields(name: string, fields: string)
    requires fields != "" && fields[0] == ' '
    ensures name + " " <= name + fields && (name + fields)[|name|..] == fields
  {
  }

  /** Any number of a line's tokens scans as their values. */
  lemma TokensScan(cs: seq<Conversion>, tokens: seq<string>, vs: seq<Value>, n: nat)
    requires AllRead(cs, tokens, vs) && 0 < n <= |tokens|
    ensures ScanAll(cs, Fields(tokens[..n])) == vs[..n]
    ensures Fields(tokens[..n]) != "" && Fields(tokens[..n])[0] == ' '
  {
    hide ReadsAs, ScanAll, Fields;
    ScanAllFields(cs, tokens[..n], vs[..n]);
    FieldsStart(tokens[..n]);
  }

  /** The line without its newline reads back as the state -- and the 16- and 10-field lines of
      older daemons read back as its motion and base part, with the flags saying so. */
  lemma StateLineParses(s: InputState, n: nat)
    requires InRange(s) && (n == 10 || n == 16 || n == 22)
    ensures ParseState("STATE" + Fields(StateTokens(s)[..n])) == Some(Known(s, n))
  {
    hide ReadsAs, AllRead, ScanAll, Fields, StateOf, Known, StateTokens, BaseValues, MotionValues, TouchValues;
    var tokens, values := StateTokens(s), BaseValues(s) + MotionValues(s) + TouchValues(s);
    AllReadOf(s);
    TokensScan(STATE_FORMAT, tokens, values, n);
    NameThenFields("STATE", Fields(tokens[..n]));
    ValuesOf(s, n, values[..n]);
  }

  lemma AllReadOf(s: InputState)
    requires InRange(s)
    ensures AllRead(STATE_FORMAT, StateTokens(s), BaseValues(s) + MotionValues(s) + TouchValues(s))
  {
    hide AllRead;
    AxisTokensRead(s);
    ButtonTokensRead(s);
    MotionTokensRead(s);
    TouchTokensRead(s);
    AllReadAppend(STATE_FORMAT[..7], AxisTokens(s), AxisValues(s), STATE_FORMAT[7..10], ButtonTokens(s), ButtonValues(s));
    assert STATE_FORMAT[..7] + STATE_FORMAT[7..10] == STATE_FORMAT[..10];
    AllReadAppend(STATE_FORMAT[..10], BaseTokens(s), BaseValues(s), STATE_FORMAT[10..16], MotionTokens(s), MotionValues(s));
    assert STATE_FORMAT[..10] + STATE_FORMAT[10..16] + STATE_FORMAT[16..] == STATE_FORMAT;
    AllReadAppend(STATE_FORMAT[..10] + STATE_FORMAT[10..16], BaseTokens(s) + MotionTokens(s), BaseValues(s) + MotionValues(s),
                  STATE_FORMAT[16..], TouchTokens(s), TouchValues(s));
  }

  lemma ValuesOf(s: InputState, n: nat, vs: seq<Value>)
    requires InRange(s) && (n == 10 || n == 16 || n == 22)
    requires vs == (BaseValues(s) + MotionValues(s) + TouchValues(s))[..n]
    ensures StateOf(vs) == Some(Known(s, n))
  {
    hide DecodeButtons, ButtonBytes, Byte, Int16, Zeros;
    ButtonsSurvive(s.buttons, s.dpad);
    assert s.buttons[..14] + s.buttons[14..] == s.buttons;
    var b := ButtonBytes(s.buttons, s.dpad);
    assert b == [b[0], b[1], b[2]];
  }

  // ------------------------------------------------------------------- whole lines, whole

  /** `text` is one line: a newline at the end and nowhere else. */
  ghost predicate IsLine(text: string) {
    text != "" && text[|text| - 1] == '\n' && '\n' !in text[..|text| - 1]
  }

  /** The line without its newline: what the framing loop hands on. */
  function Stripped(text: string): string
    requires text != ""
  {
    text[..|text| - 1]
  }

  lemma ShortLine(name: string, fields: string, size: nat)
    requires '\n' !in name && '\n' !in fields && |name| + |fields| + 1 < size
    ensures Snprintf(name + fields + "\n", size) == name + fields + "\n"
    ensures IsLine(name + fields + "\n") && Stripped(name + fields + "\n") == name + fields
  {
    var text := name + fields + "\n";
    assert text[..|text| - 1] == name + fields;
  }

  lemma FiveMoreDigits(k: nat)
    ensures Power(10, k + 5) == 100000 * Power(10, k)
  {
    assert Power(10, k + 2) == 10 * Power(10, k + 1) && Power(10, k + 1) == 10 * Power(10, k);
    assert Power(10, k + 4) == 10 * Power(10, k + 3) && Power(10, k + 3) == 10 * Power(10, k + 2);
  }

  lemma PowersOfTen()
    ensures Power(10, 10) == 10000000000 && Power(10, 20) == 100000000000000000000
  {
    FiveMoreDigits(0);
    FiveMoreDigits(5);
    FiveMoreDigits(10);
    FiveMoreDigits(15);
  }

  lemma BytesAreShort(b: byte)
    ensures IsWord(Print(b, 10), 3)
  {
    assert Power(10, 3) == 10 * 10 * 10;
    PrintedIsWord(b, 10, 3);
  }

  lemma IntsAreShort(i: int)
    requires IsInt32(i)
    ensures IsWord(PrintInt(i), 11)
  {
    hide Power;
    PowersOfTen();
    PrintedIntIsWord(i, 10);
  }

  lemma HexPairIsShort(b: byte)
    ensures IsWord(PrintHex2(b), 3)
  {
    var s := PrintHex2(b);
    assert DigitValue(s[0]) < 16 && DigitValue(s[1]) < 16;
  }

  lemma BaseTokensShape(s: InputState)
    requires InRange(s)
    ensures |Fields(BaseTokens(s))| <= 52 && '\n' !in Fields(BaseTokens(s))
  {
    hide IsWord, Print, PrintHex2;
    var tokens, b := BaseTokens(s), ButtonBytes(s.buttons, s.dpad);
    BytesAreShort(s.lx);
    BytesAreShort(s.ly);
    BytesAreShort(s.rx);
    BytesAreShort(s.ry);
    BytesAreShort(s.l2);
    BytesAreShort(s.r2);
    HexPairIsShort(b[0]);
    HexPairIsShort(b[1]);
    HexPairIsShort(b[2]);
    FieldsShape(tokens[1..], 3);
    assert '\n' !in s.source by { assert forall c :: c in s.source ==> !IsSpace(c); }
  }

  lemma MotionAndTouchShape(s: InputState)
    requires InRange(s)
    ensures |Fields(MotionTokens(s) + TouchTokens(s))| <= 144 && '\n' !in Fields(MotionTokens(s) + TouchTokens(s))
  {
    hide IsWord, PrintInt;
    IntsAreShort(s.gyro.0);
    IntsAreShort(s.gyro.1);
    IntsAreShort(s.gyro.2);
    IntsAreShort(s.accel.0);
    IntsAreShort(s.accel.1);
    IntsAreShort(s.accel.2);
    IntsAreShort(Active(s.touch0));
    IntsAreShort(s.touch0.x);
    IntsAreShort(s.touch0.y);
    IntsAreShort(Active(s.touch1));
    IntsAreShort(s.touch1.x);
    IntsAreShort(s.touch1.y);
    FieldsShape(MotionTokens(s) + TouchTokens(s), 11);
  }

  /** A STATE line fits its buffer and parses back to the state it was printed from. */
  lemma StateRoundTrip(s: InputState)
    requires InRange(s)
    ensures |FormatState(s)| < 256 && IsLine(FormatState(s))
    ensures ParseState(Stripped(FormatState(s))) == Some(s.(hasMotion := true, hasTouch := true))
  {
    hide IsLine, ParseState, Fields, BaseTokens, MotionTokens, TouchTokens, Snprintf, InRange;
    BaseTokensShape(s);
    MotionAndTouchShape(s);
    assert StateTokens(s) == BaseTokens(s) + (MotionTokens(s) + TouchTokens(s));
    FieldsAppend(BaseTokens(s), MotionTokens(s) + TouchTokens(s));
    ShortLine("STATE", Fields(StateTokens(s)), 256);
    assert StateTokens(s)[..22] == StateTokens(s);
    StateLineParses(s, 22);
  }

  /** The statistics the daemon can print: each counter in its type. */
  predicate TimingInRange(t: TimingStats) {
    && t.reports < U32 && t.windowUs < U64
    && t.intervalMeanUs < U32 && t.intervalMinUs < U32 && t.intervalMaxUs < U32
    && t.latencyMeanUs < U32 && t.latencyMaxUs < U32
  }

  function TimingValues(t: TimingStats): seq<Value> {
    [Num(t.reports), Num(t.windowUs), Num(t.intervalMeanUs), Num(t.intervalMinUs), Num(t.intervalMaxUs),
     Num(t.latencyMeanUs), Num(t.latencyMaxUs)]
  }

  lemma CounterToken(n: nat)
    requires n < U32
    ensures ReadsAs(Decimal, Print(n, 10), Num(n)) && IsWord(Print(n, 10), 10)
  {
    PrintedReads(Decimal, n);
    hide Power;
    PowersOfTen();
    PrintedIsWord(n, 10, 10);
  }

  lemma WindowToken(n: nat)
    requires n < U64
    ensures ReadsAs(Long, Print(n, 10), Num(n)) && IsWord(Print(n, 10), 20)
  {
    PrintedReads(Long, n);
    hide Power;
    PowersOfTen();
    PrintedIsWord(n, 10, 20);
  }

  lemma TimingTokensRead(t: TimingStats)
    requires TimingInRange(t)
    ensures AllRead(TIMING_FORMAT, TimingTokens(t), TimingValues(t))
  {
    hide ReadsAs, IsWord, Print;
    CounterToken(t.reports);
    WindowToken(t.windowUs);
    CounterToken(t.intervalMeanUs);
    CounterToken(t.intervalMinUs);
    CounterToken(t.intervalMaxUs);
    CounterToken(t.latencyMeanUs);
    CounterToken(t.latencyMaxUs);
  }

  lemma TimingTokensShape(t: TimingStats)
    requires TimingInRange(t)
    ensures |Fields(TimingTokens(t))| <= 87 && '\n' !in Fields(TimingTokens(t))
  {
    hide IsWord, Print, ReadsAs, Fields;
    CounterToken(t.reports);
    WindowToken(t.windowUs);
    CounterToken(t.intervalMeanUs);
    CounterToken(t.intervalMinUs);
    CounterToken(t.intervalMaxUs);
    CounterToken(t.latencyMeanUs);
    CounterToken(t.latencyMaxUs);
    var tokens := TimingTokens(t);
    assert tokens == tokens[..1] + tokens[1..2] + tokens[2..];
    FieldsAppend(tokens[..1] + tokens[1..2], tokens[2..]);
    FieldsAppend(tokens[..1], tokens[1..2]);
    FieldsShape(tokens[..1], 10);
    FieldsShape(tokens[1..2], 20);
    FieldsShape(tokens[2..], 10);
  }

  /** A TIMING line fits its buffer and parses back to the numbers it was printed from. */
  lemma TimingRoundTrip(t: TimingStats)
    requires TimingInRange(t)
    ensures |FormatTiming(t)| < 128 && IsLine(FormatTiming(t))
    ensures ParseTiming(Stripped(FormatTiming(t))) == Some(t)
  {
    hide IsLine, ReadsAs, AllRead, ScanAll, Fields, Snprintf, Stripped;
    var tokens, values := TimingTokens(t), TimingValues(t);
    TimingTokensRead(t);
    TimingTokensShape(t);
    ShortLine("TIMING", Fields(tokens), 128);
    assert tokens[..7] == tokens && values[..7] == values;
    TokensScan(TIMING_FORMAT, tokens, values, 7);
    NameThenFields("TIMING", Fields(tokens));
  }

  function OutputValues(o: Output): seq<Value> {
    [Num(o.red), Num(o.green), Num(o.blue), Num(o.rumbleLeft), Num(o.rumbleRight)]
  }

  predicate OutputInRange(o: Output) {
    0 <= o.red < 256 && 0 <= o.green < 256 && 0 <= o.blue < 256 && 0 <= o.rumbleLeft < 256 && 0 <= o.rumbleRight < 256
  }

  lemma LevelToken(n: int)
    requires 0 <= n < 256
    ensures ReadsAs(Decimal, PrintInt(n), Num(n)) && IsWord(PrintInt(n), 3)
  {
    PrintedReads(Decimal, n);
    BytesAreShort(n);
  }

  lemma OutputTokensRead(o: Output)
    requires OutputInRange(o)
    ensures AllRead(OUTPUT_FORMAT, OutputTokens(o), OutputValues(o))
    ensures |Fields(OutputTokens(o))| <= 20 && '\n' !in Fields(OutputTokens(o))
  {
    hide ReadsAs, IsWord, PrintInt;
    LevelToken(o.red);
    LevelToken(o.green);
    LevelToken(o.blue);
    LevelToken(o.rumbleLeft);
    LevelToken(o.rumbleRight);
    FieldsShape(OutputTokens(o), 3);
  }

  /** An OUTPUT line fits its buffer and parses back, although %d is printed and %u is read. */
  lemma OutputRoundTrip(o: Output)
    requires OutputInRange(o)
    ensures |FormatOutput(o)| < 64 && IsLine(FormatOutput(o))
    ensures ParseOutput(Stripped(FormatOutput(o))) == Some(o)
  {
    hide IsLine, ReadsAs, AllRead, ScanAll, Fields, Snprintf, Stripped;
    var tokens, values := OutputTokens(o), OutputValues(o);
    OutputTokensRead(o);
    ShortLine("OUTPUT", Fields(tokens), 64);
    assert tokens[..5] == tokens && values[..5] == values;
    TokensScan(OUTPUT_FORMAT, tokens, values, 5);
    NameThenFields("OUTPUT", Fields(tokens));
  }

  // ------------------------------------------------------------------------- the stream

  datatype Message = StateMessage(state: InputState) | TimingMessage(timing: TimingStats) | OutputMessage(output: Output)

  function Format(m: Message): string
  {
    match m
    case StateMessage(s) => FormatState(s)
    case TimingMessage(t) => FormatTiming(t)
    case OutputMessage(o) => FormatOutput(o)
  }

  ghost predicate Printable(m: Message) {
    match m
    case StateMessage(s) => InRange(s) && s.hasMotion && s.hasTouch
    case TimingMessage(t) => TimingInRange(t)
    case OutputMessage(o) => OutputInRange(o)
  }

  /** handleLine: the parsers in the order the reader tries them. */
  function Parse(line: string): Option<Message> {
    var output := ParseOutput(line);
    if output.Some? then Some(OutputMessage(output.value))
    else
      var timing := ParseTiming(line);
      if timing.Some? then Some(TimingMessage(timing.value))
      else
        var state := ParseState(line);
        if state.Some? then Some(StateMessage(state.value)) else None
  }

  lemma MessageRoundTrip(m: Message)
    requires Printable(m)
    ensures IsLine(Format(m)) && Parse(Stripped(Format(m))) == Some(m)
  {
    hide IsLine, StateOf, TimingOf, OutputOf, ScanAll, InRange, FormatState, FormatTiming, FormatOutput;
    match m
    case StateMessage(s) =>
      StateRoundTrip(s);
      assert s.(hasMotion := true, hasTouch := true) == s;
      StateLineStart(s);
    case TimingMessage(t) =>
      TimingRoundTrip(t);
      TimingLineStart(t);
    case OutputMessage(o) => OutputRoundTrip(o);
  }

  lemma TimingLineStart(t: TimingStats)
    requires TimingInRange(t)
    ensures FormatTiming(t) != "" && Stripped(FormatTiming(t)) != "" && Stripped(FormatTiming(t))[0] == 'T'
  {
    hide Fields, TimingTokens;
    TimingTokensShape(t);
    ShortLine("TIMING", Fields(TimingTokens(t)), 128);
  }

  lemma StateLineStart(s: InputState)
    requires InRange(s)
    ensures FormatState(s) != "" && Stripped(FormatState(s)) != "" && Stripped(FormatState(s))[0] == 'S'
  {
    assert StateTokens(s) == BaseTokens(s) + MotionTokens(s) + TouchTokens(s);
    assert |Fields(StateTokens(s))| > 0;
  }

  /** The complete lines of `text`, newlines removed, and what is left after the last one. */
  function Lines(text: string): seq<string> {
    if '\n' !in text then [] else
      var n := Newline(text);
      [text[..n]] + Lines(text[n + 1..])
  }

  function Leftover(text: string): string {
    if '\n' !in text then text else Leftover(text[Newline(text) + 1..])
  }

  /** find('\n') */
  function Newline(text: string): (n: nat)
    requires '\n' in text
    ensures n < |text| && text[n] == '\n' && '\n' !in text[..n]
  {
    if text[0] == '\n' then 0 else
      var n := Newline(text[1..]) + 1;
      assert text[..n] == [text[0]] + text[1..][..n - 1];
      n
  }

  lemma {:induction false} NewlineIsFirst(text: string, n: nat)
    requires n < |text| && text[n] == '\n' && '\n' !in text[..n]
    ensures '\n' in text && Newline(text) == n
  {
    if n > 0 {
      assert text[..n][0] == text[0] && text[..n][1..] == text[1..][..n - 1];
      NewlineIsFirst(text[1..], n - 1);
    }
  }

  lemma AppendAssociates<T>(a: seq<T>, b: seq<T>, c: seq<T>)
    ensures a + b + c == a + (b + c)
  {
  }

  lemma NewlineOfPrefix(a: string, b: string)
    requires '\n' in a
    ensures '\n' in a + b && Newline(a + b) == Newline(a)
    ensures var n := Newline(a); (a + b)[..n] == a[..n] && (a + b)[n + 1..] == a[n + 1..] + b
  {
    hide Newline;
    var n := Newline(a);
    assert (a + b)[..n] == a[..n] && (a + b)[n] == '\n';
    NewlineIsFirst(a + b, n);
  }

  /** Reading more input only continues from what was left over. */
  lemma {:induction false} LinesAppend(a: string, b: string)
    ensures Lines(a + b) == Lines(a) + Lines(Leftover(a) + b)
    ensures Leftover(a + b) == Leftover(Leftover(a) + b)
    decreases |a|
  {
    hide Newline;
    if '\n' in a {
      var rest := a[Newline(a) + 1..];
      NewlineOfPrefix(a, b);
      LinesAppend(rest, b);
      assert Lines(a + b) == [a[..Newline(a)]] + Lines(rest + b);
      assert Lines(a) == [a[..Newline(a)]] + Lines(rest);
      assert Leftover(a) == Leftover(rest) && Leftover(a + b) == Leftover(rest + b);
      AppendAssociates([a[..Newline(a)]], Lines(rest), Lines(Leftover(rest) + b));
    } else {
      assert Lines(a) == [] && Leftover(a) == a;
      assert [] + Lines(a + b) == Lines(a + b);
    }
  }

  function Concat(parts: seq<string>): string {
    if parts == [] then "" else parts[0] + Concat(parts[1..])
  }

  /** A line the daemon sends: a printed message, or one of the others -- the header, EVENT, NOTE
      and CAVEAT lines, whatever they say. */
  datatype Sent = Printed(message: Message) | Foreign(text: string)

  function TextOf(l: Sent): string {
    if l.Printed? then Format(l.message) else l.text
  }

  ghost predicate Sendable(l: Sent) {
    if l.Printed? then Printable(l.message)
    else IsLine(l.text) && !("OUTPUT " <= l.text) && !("TIMING " <= l.text) && !("STATE " <= l.text)
  }

  /** The lines of a connection one after the other. */
  function Transcript(ls: seq<Sent>): string {
    if ls == [] then "" else TextOf(ls[0]) + Transcript(ls[1..])
  }

  function MessagesIn(ls: seq<Sent>): seq<Message> {
    if ls == [] then [] else (if ls[0].Printed? then [ls[0].message] else []) + MessagesIn(ls[1..])
  }

  function ParseLine(line: string): seq<Message> {
    var m := Parse(line);
    if m.Some? then [m.value] else []
  }

  function ParseAll(lines: seq<string>): seq<Message> {
    if lines == [] then [] else ParseLine(lines[0]) + ParseAll(lines[1..])
  }

  lemma SentLineReads(l: Sent)
    requires Sendable(l)
    ensures IsLine(TextOf(l)) && ParseLine(Stripped(TextOf(l))) == MessagesIn([l])
  {
    hide ParseOutput, ParseTiming, ParseState, Format;
    assert MessagesIn([l][1..]) == [];
    if l.Printed? {
      MessageRoundTrip(l.message);
    } else {
      ForeignIsIgnored(l.text);
    }
  }

  lemma ForeignIsIgnored(text: string)
    requires Sendable(Foreign(text))
    ensures Parse(Stripped(text)).None?
  {
    hide StateOf, TimingOf, OutputOf, ScanAll;
    var line := Stripped(text);
    assert line <= text;
  }

  /** The stream of a connection, cut off anywhere, holds exactly the messages printed up to
      there, whatever other lines stand between them. */
  lemma {:induction false} StreamRoundTrip(ls: seq<Sent>, tail: string)
    requires (forall l :: l in ls ==> Sendable(l)) && '\n' !in tail
    ensures ParseAll(Lines(Transcript(ls) + tail)) == MessagesIn(ls) && Leftover(Transcript(ls) + tail) == tail
  {
    hide ParseLine, TextOf, Sendable, Lines, Leftover, IsLine, MessagesIn;
    if ls == [] {
      assert "" + tail == tail;
      NoMoreLines(tail);
      NoMessages();
    } else {
      var first, rest := TextOf(ls[0]), Transcript(ls[1..]) + tail;
      assert ls[0] in ls;
      SentLineReads(ls[0]);
      assert Transcript(ls) + tail == first + rest;
      LineFirst(first, rest);
      StreamRoundTrip(ls[1..], tail);
      ParseFirst(Stripped(first), Lines(rest));
      MessagesFirst(ls);
    }
  }

  lemma LineFirst(line: string, rest: string)
    requires IsLine(line)
    ensures line != ""
    ensures Lines(line + rest) == [Stripped(line)] + Lines(rest) && Leftover(line + rest) == Leftover(rest)
  {
    var n := |line| - 1;
    assert (line + rest)[..n] == line[..n] && (line + rest)[n] == '\n';
    NewlineIsFirst(line + rest, n);
    assert (line + rest)[n + 1..] == rest;
  }

  lemma ParseFirst(line: string, rest: seq<string>)
    ensures ParseAll([line] + rest) == ParseLine(line) + ParseAll(rest)
  {
    hide ParseLine;
    assert ([line] + rest)[1..] == rest;
  }

  lemma NoMessages()
    ensures MessagesIn([]) == []
  {
  }

  lemma MessagesFirst(ls: seq<Sent>)
    requires ls != []
    ensures MessagesIn(ls) == MessagesIn([ls[0]]) + MessagesIn(ls[1..])
  {
    assert MessagesIn([ls[0]][1..]) == [];
  }

  lemma {:induction false} ParseAllAppend(a: seq<string>, b: seq<string>)
    ensures ParseAll(a + b) == ParseAll(a) + ParseAll(b)
  {
    hide ParseLine;
    if a == [] {
      assert a + b == b;
    } else {
      ParseAllAppend(a[1..], b);
      assert (a + b)[0] == a[0] && (a + b)[1..] == a[1..] + b;
      AppendAssociates(ParseLine(a[0]), ParseAll(a[1..]), ParseAll(b));
    }
  }

  lemma {:induction false} ConcatSnoc(parts: seq<string>, last: string)
    ensures Concat(parts + [last]) == Concat(parts) + last
  {
    if parts == [] {
      assert [last][1..] == [];
    } else {
      assert (parts + [last])[1..] == parts[1..] + [last];
      ConcatSnoc(parts[1..], last);
    }
  }

  lemma OneLine(text: string)
    requires '\n' in text
    ensures var n := Newline(text);
      && ParseAll(Lines(text)) == ParseAll([text[..n]]) + ParseAll(Lines(text[n + 1..]))
      && Leftover(text) == Leftover(text[n + 1..])
  {
    hide Newline, ParseAll;
    var n := Newline(text);
    assert Lines(text) == [text[..n]] + Lines(text[n + 1..]);
    ParseAllAppend([text[..n]], Lines(text[n + 1..]));
  }

  lemma NoMoreLines(text: string)
    requires '\n' !in text
    ensures ParseAll(Lines(text)) == [] && Leftover(text) == text
  {
  }

  lemma ParseOne(line: string)
    ensures ParseAll([line]) == ParseLine(line)
  {
    hide ParseLine;
    assert ParseAll([line][1..]) == [];
  }

  /** The framing loop: every complete line is handled and erased from the buffer. */
  method HandleLines(text: string) returns (handled: seq<Message>, buffer: string)
    ensures handled == ParseAll(Lines(text)) && buffer == Leftover(text)
  {
    hide Parse, ParseAll, Lines, Leftover;
    handled, buffer := [], text;
    while '\n' in buffer
      invariant ParseAll(Lines(text)) == handled + ParseAll(Lines(buffer))
      invariant Leftover(text) == Leftover(buffer)
      decreases |buffer|
    {
      var newline := Newline(buffer);
      var m := Parse(buffer[..newline]);
      if m.Some? {
        handled := handled + [m.value];
      }
      OneLine(buffer);
      ParseOne(buffer[..newline]);
      buffer := buffer[newline + 1..];
    }
    NoMoreLines(buffer);
  }

  /** onReadable over a whole connection: each chunk is appended to the buffer, then its
      complete lines are handled.  However the bytes were cut up, the messages handled are those
      of the whole stream. */
  method ReadStream(chunks: seq<string>) returns (handled: seq<Message>, buffer: string)
    ensures handled == ParseAll(Lines(Concat(chunks))) && buffer == Leftover(Concat(chunks))
  {
    hide Parse;
    handled, buffer := [], "";
    for i := 0 to |chunks|
      invariant handled == ParseAll(Lines(Concat(chunks[..i]))) && buffer == Leftover(Concat(chunks[..i]))
    {
      var more;
      ghost var before := Concat(chunks[..i]);
      assert chunks[..i + 1] == chunks[..i] + [chunks[i]];
      ConcatSnoc(chunks[..i], chunks[i]);
      LinesAppend(before, chunks[i]);
      ParseAllAppend(Lines(before), Lines(buffer + chunks[i]));
      more, buffer := HandleLines(buffer + chunks[i]);
      handled := handled + more;
    }
    assert chunks[..|chunks|] == chunks;
  }

  /** The whole path: whatever is sent, wherever the connection ends and however the stream is
      cut, the reader recovers exactly the messages printed, in order, and its buffer holds the
      line that was not finished. */
  method ReadPrinted(ls: seq<Sent>, tail: string, chunks: seq<string>) returns (handled: seq<Message>, buffer: string)
    requires (forall l :: l in ls ==> Sendable(l)) && '\n' !in tail
    requires Concat(chunks) == Transcript(ls) + tail
    ensures handled == MessagesIn(ls) && buffer == tail
  {
    handled, buffer := ReadStream(chunks);
    StreamRoundTrip(ls, tail);
  }
}

// The output report the daemon sends to a physical controller (src/main.cpp,
// write_physical_output_report) and the check it applies to the reports it reads back.
module Reports {
  import opened Crc32
  import opened CrcNumbers

  /** Rumble motors and light bar: the complete state every output report carries. */
  datatype OutputState = OutputState(motorLeft: byte, motorRight: byte, r: byte, g: byte, b: byte)

  const OUTPUT_SEED: byte := 0xA2
  const INPUT_SEED: byte := 0xA1

  function BodyByte(s: OutputState, i: nat): byte {
    match i
    case 0 => 0x11 // report id
    case 1 => 0xC0 // HID | CRC32
    case 3 => 0x07 // motor | led | led_blink
    case 6 => s.motorRight
    case 7 => s.motorLeft
    case 8 => s.r
    case 9 => s.g
    case 10 => s.b
    case _ => 0
  }

  /** The first 74 bytes of a Bluetooth output report: everything the CRC covers. */
  function BluetoothBody(s: OutputState): (body: seq<byte>)
    ensures |body| == 74
  {
    seq(74, i requires 0 <= i => BodyByte(s, i))
  }

  /** The whole report. */
  function BluetoothOutput(s: OutputState): seq<byte> {
    BluetoothBody(s) + Trailer(Crc(OUTPUT_SEED, BluetoothBody(s)))
  }

  /** The state a Bluetooth output report carries, read back from its offsets. */
  function StateOf(report: seq<byte>): OutputState
    requires |report| == 78
  {
    OutputState(report[7], report[6], report[8], report[9], report[10])
  }

  lemma OutputCarriesState(s: OutputState)
    ensures var report := BluetoothOutput(s);
      |report| == 78 && Accepts(OUTPUT_SEED, report) && StateOf(report) == s
  {
    var report := BluetoothOutput(s);
    assert report[..74] == BluetoothBody(s) && report[74..] == Trailer(Crc(OUTPUT_SEED, BluetoothBody(s)));
  }

  method FillBody(buf: array<byte>, s: OutputState)
    requires buf.Length == 78 && forall i :: 0 <= i < 78 ==> buf[i] == 0
    modifies buf
    ensures forall i :: 0 <= i < 74 ==> buf[i] == BodyByte(s, i)
  {
    buf[0] := 0x11;
    buf[1] := 0xC0;
    buf[2] := 0x00;
    buf[3] := 0x07;
    buf[4] := 0x00;
    buf[5] := 0x00;
    buf[6] := s.motorRight;
    buf[7] := s.motorLeft;
    buf[8] := s.r;
    buf[9] := s.g;
    buf[10] := s.b;
    forall i | 0 <= i < 74
      ensures buf[i] == BodyByte(s, i)
    {
    }
  }

  /** Builds the 78-byte Bluetooth report: the state at its offsets, zeros elsewhere, and a
      little-endian trailer that the receiving end's check accepts. */
  method BuildBluetoothReport(table: CrcTable, s: OutputState) returns (buf: array<byte>)
    requires table.Valid()
    modifies table, table.table
    ensures table.Valid() && fresh(buf) && buf.Length == 78
    ensures buf[..] == BluetoothOutput(s)
    ensures Accepts(OUTPUT_SEED, buf[..])
  {
    hide BodyByte, Crc, ByteBits, TableEntry;
    buf := new byte[78](_ => 0);
    FillBody(buf, s);
    assert buf[..74] == BluetoothBody(s);
    var crc := table.Calculate(OUTPUT_SEED, buf[..74]);
    var t := Trailer(crc);
    ghost var body := buf[..74];
    buf[74] := t[0];
    buf[75] := t[1];
    buf[76] := t[2];
    buf[77] := t[3];
    assert buf[..74] == body;
    assert buf[..][74..] == t && buf[..][..74] == body;
  }

  /** What a read from the physical controller is taken for. */
  datatype Classified = UsbReport | BluetoothReport | Ignored

  function Classify(data: seq<byte>): Classified {
    if |data| >= 64 && data[0] == 0x01 then UsbReport
    else if |data| >= 78 && data[0] == 0x11 && Accepts(INPUT_SEED, data[..78]) then BluetoothReport
    else Ignored
  }

  /** The daemon's decision on one read, computing the CRC the way the source does. */
  method ClassifyRead(table: CrcTable, data: seq<byte>) returns (c: Classified)
    requires table.Valid()
    modifies table, table.table
    ensures table.Valid() && c == Classify(data)
  {
    c := Ignored;
    if |data| >= 64 && data[0] == 0x01 {
      c := UsbReport;
    } else if |data| >= 78 && data[0] == 0x11 {
      var computed := table.Calculate(INPUT_SEED, data[..74]);
      assert data[..78][..74] == data[..74] && data[..78][74..] == data[74..78];
      if ByteBits(data[74..78]) == computed {
        c := BluetoothReport;
      }
    }
  }

  /** Which reads count as input: 64 bytes and more of report 1, unchecked, and 78 and more of
      report 17 whose first 78, behind the header byte 0xA1, leave the register of an intact
      message. */
  lemma TakenAsInputIff(data: seq<byte>)
    ensures Classify(data) == UsbReport <==> |data| >= 64 && data[0] == 1
    ensures Classify(data) == BluetoothReport <==>
      |data| >= 78 && data[0] == 17 && Feed(Register(0xFFFF_FFFF), ByteBits([0xA1] + data[..78])) == Register(0xDEBB20E3)
  {
    hide Register, Feed, ByteBits, Accepts;
    if |data| >= 78 {
      AcceptsIffNumber(0xA1, data[..78]);
    }
  }

  /** What is sent is intact in the same sense, behind the header byte 0xA2. */
  lemma OutputIsIntact(s: OutputState)
    ensures |BluetoothOutput(s)| == 78
    ensures Feed(Register(0xFFFF_FFFF), ByteBits([0xA2] + BluetoothOutput(s))) == Register(0xDEBB20E3)
  {
    hide Register, Feed, ByteBits, Accepts, BluetoothOutput;
    OutputCarriesState(s);
    AcceptsIffNumber(0xA2, BluetoothOutput(s));
  }

  /** A Bluetooth report damaged inside any 32 consecutive bits is never taken for a good
      Bluetooth report.  It is not ignored either in exactly one case: the damage turned its
      identifier into the USB one, whose reports carry no CRC. */
  lemma DamagedReport(good: seq<byte>, bad: seq<byte>, at: nat, n: nat)
    requires |good| == |bad| == 78 && good != bad
    requires Classify(good) == BluetoothReport
    requires n <= 32 && DifferOnlyWithin(ByteBits(good), ByteBits(bad), at, n)
    ensures Classify(bad) == if bad[0] == 0x01 then UsbReport else Ignored
  {
    assert good[..78] == good && bad[..78] == bad;
    CorruptedMessageRejected(INPUT_SEED, good, bad, at, n);
  }

  /** One flipped bit is enough for that case, whatever the report carried. */
  lemma OneBitTurnsBluetoothIntoUsb(good: seq<byte>)
    requires |good| == 78 && Classify(good) == BluetoothReport
    ensures DifferOnlyWithin(ByteBits(good), ByteBits([0x01] + good[1..]), 4, 1)
    ensures Classify([0x01] + good[1..]) == UsbReport
  {
    hide Accepts, Crc, BitsOf, ByteBits, DifferOnlyWithin;
    var bad := [0x01] + good[1..];
    assert good == [0x11] + good[1..];
    ByteBitsAppend([0x11], good[1..]);
    ByteBitsAppend([0x01], good[1..]);
    IdentifierBits();
    SameAround([true, false, false, false], [true], [false], [false, false, false] + ByteBits(good[1..]));
    assert ByteBits(good) == [true, false, false, false] + [true] + ([false, false, false] + ByteBits(good[1..]));
    assert ByteBits(bad) == [true, false, false, false] + [false] + ([false, false, false] + ByteBits(good[1..]));
  }

  lemma IdentifierBits()
    ensures ByteBits([0x11]) == [true, false, false, false, true, false, false, false]
    ensures ByteBits([0x01]) == [true, false, false, false, false, false, false, false]
  {
    assert BitsOf(0, 3) == [false, false, false];
    assert BitsOf(0x11, 8) == [true, false, false, false] + BitsOf(1, 4);
    assert BitsOf(0x01, 8) == [true, false, false, false] + BitsOf(0, 4);
    assert ByteBits([0x11]) == BitsOf(0x11, 8) + ByteBits([]);
    assert ByteBits([0x01]) == BitsOf(0x01, 8) + ByteBits([]);
  }
}

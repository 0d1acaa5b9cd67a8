// The virtual controller tester, end to end: ds4-ctl prints an `input` command (src/ctl.cpp),
// the daemon parses it and packs a HID report (src/main.cpp), and a live monitor sees the same
// buttons again as a STATE line.
module Tester {
  import opened Crc32
  import opened Text
  import opened LineProtocol

  /** ds4-ctl's view: a button mask and the d-pad hat. */
  datatype UiState = UiState(buttons: Buttons, dpad: byte)

  const L2: nat := 6
  const R2: nat := 7

  function Trigger(pressed: bool): byte {
    if pressed then 255 else 0
  }

  function CommandTokens(s: UiState): (t: seq<string>)
    ensures |t| == 8
  {
    [Print(NatOf(s.buttons), 16), Print(s.dpad, 10), Print(128, 10), Print(128, 10), Print(128, 10), Print(128, 10),
     Print(Trigger(s.buttons[L2]), 10), Print(Trigger(s.buttons[R2]), 10)]
  }

  /** send_ui_state */
  function InputCommand(s: UiState): string {
    Snprintf("input" + Fields(CommandTokens(s)), 128)
  }

  /** The daemon's synthetic state, filled from the command. */
  datatype SyntheticState = SyntheticState(
    buttons: Buttons, dpad: byte, lx: byte, ly: byte, rx: byte, ry: byte, l2: byte, r2: byte)

  /** parse_unsigned_token: strtoul over the whole token, within unsigned int. */
  function ParseUnsigned(token: string, base: nat): Option<nat> {
    var n := ReadNumber(SkipSpaces(token), base);
    if n.NoNumber? || n.rest != "" || n.magnitude >= U64 || Unsigned(n) >= U32 then None
    else Some(Unsigned(n))
  }

  /** istringstream >> token, until it fails. */
  function Tokens(text: string): seq<string>
    decreases |text|
  {
    var s := SkipSpaces(text);
    SkipSpacesShortens(text);
    var n := WordRun(s, |s|);
    if n == 0 then [] else [s[..n]] + Tokens(s[n..])
  }

  lemma {:induction false} SkipSpacesShortens(text: string)
    ensures |SkipSpaces(text)| <= |text|
  {
    if text != "" && IsSpace(text[0]) {
      SkipSpacesShortens(text[1..]);
    }
  }

  /** The daemon's handling of `input `: eight numbers, each stored in its field's type. */
  function ParseInput(command: string): Option<SyntheticState> {
    if !("input " <= command) then None
    else
      var t := Tokens(command[6..]);
      if |t| != 8 then None
      else
        var v := seq(8, i requires 0 <= i < 8 => ParseUnsigned(t[i], if i == 0 then 16 else 10));
        if exists i :: 0 <= i < 8 && v[i] == None then None
        else Some(SyntheticState(BitsOf(v[0].value, 16), Byte(v[1].value), Byte(v[2].value), Byte(v[3].value),
                                 Byte(v[4].value), Byte(v[5].value), Byte(v[6].value), Byte(v[7].value)))
  }

  /** build_synthetic_common: the three button bytes, the last one sharing its upper six bits
      with the report counter. */
  function SyntheticBytes(s: SyntheticState, counter: byte): (bytes: seq<byte>)
    ensures |bytes| == 3
  {
    [ByteOf(BitsOf(s.dpad, 8)[..4] + s.buttons[..4]),
     ByteOf(s.buttons[4..12]),
     ByteOf(s.buttons[12..14] + BitsOf(counter, 8)[..6])]
  }

  /** test_broadcast_state's line for the emulated device while the tester drives it: no motion
      and no contact. */
  function VirtualState(s: SyntheticState, counter: byte): InputState {
    var (buttons, dpad) := DecodeButtons(SyntheticBytes(s, counter));
    var none := DecodeTouchPoint([0x80, 0, 0, 0]);
    InputState("VIRTUAL", s.lx, s.ly, s.rx, s.ry, s.l2, s.r2, buttons, dpad, (0, 0, 0), (0, 0, 0), none, none, true, true)
  }

  /** What the monitor ends up showing for what the tester sent. */
  function EndToEnd(s: UiState, counter: byte): Option<InputState> {
    var parsed := ParseInput(InputCommand(s));
    if parsed.None? then None
    else
      var line := FormatState(VirtualState(parsed.value, counter));
      if line == "" then None else ParseState(Stripped(line))
  }

  // ------------------------------------------------------------------ the command is read

  lemma {:induction false} TokensOfFields(tokens: seq<string>)
    requires forall i :: 0 <= i < |tokens| ==> tokens[i] != "" && IsWord(tokens[i], |tokens[i]|)
    ensures Tokens(Fields(tokens)) == tokens
    decreases |tokens|
  {
    if tokens != [] {
      hide Tokens, Fields, IsWord;
      TokensOfFields(tokens[1..]);
      var first, tail := tokens[0], Fields(tokens[1..]);
      SpaceFirst(tokens);
      FirstToken(first, tail);
      TokensSkipSpace(Fields(tokens));
    } else {
      NoTokens();
    }
  }

  lemma NoTokens()
    ensures Tokens(Fields([])) == []
  {
  }

  lemma SpaceFirst(tokens: seq<string>)
    requires tokens != []
    ensures var tail := Fields(tokens[1..]);
      && Fields(tokens) != "" && IsSpace(Fields(tokens)[0]) && Fields(tokens)[1..] == tokens[0] + tail
      && (tail == "" || IsSpace(tail[0]))
  {
    assert Fields(tokens) == [' '] + (tokens[0] + Fields(tokens[1..]));
  }

  lemma FirstToken(first: string, tail: string)
    requires first != "" && IsWord(first, |first|) && (tail == "" || IsSpace(tail[0]))
    ensures Tokens(first + tail) == [first] + Tokens(tail)
  {
    assert (first + tail)[0] == first[0];
    WordRunOfWord(first, tail, |first + tail|);
    assert (first + tail)[..|first|] == first && (first + tail)[|first|..] == tail;
  }

  /** A leading space makes no difference: the command is cut after `input `. */
  lemma TokensSkipSpace(text: string)
    requires text != "" && IsSpace(text[0])
    ensures Tokens(text[1..]) == Tokens(text)
  {
  }

  lemma PrintedTokenParses(n: nat, base: nat, k: nat)
    requires (base == 10 || base == 16) && n < U32 && 0 < k && n < Power(base, k)
    ensures var s := Print(n, base);
      ParseUnsigned(s, base) == Some(n) && IsWord(s, |s|) && IsWord(s, k)
  {
    hide ReadNumber;
    var s := Print(n, base);
    ValueOfPrint(n, base);
    PrintedHasNoSpace(n, base);
    PrintedIsWord(n, base, k);
    ReadDigits(s, "", base);
    assert s + "" == s;
  }

  /** A number is taken exactly if it fits an unsigned int; it is never cut to fit. */
  lemma PrintedNumberParsesIff(n: nat, base: nat)
    requires base == 10 || base == 16
    ensures ParseUnsigned(Print(n, base), base) == if n < 0x1_0000_0000 then Some(n) else None
  {
    hide ReadNumber;
    var s := Print(n, base);
    ValueOfPrint(n, base);
    PrintedHasNoSpace(n, base);
    ReadDigits(s, "", base);
    assert s + "" == s;
  }

  lemma MaskIsSmall(buttons: Buttons)
    ensures NatOf(buttons) < 0x1_0000
  {
    NatOfBound(buttons);
    assert Pow2(16) == 2 * 2 * 2 * 2 * 2 * 2 * 2 * 2 * Pow2(8) && Pow2(8) == 2 * 2 * 2 * 2 * 2 * 2 * 2 * 2 * Pow2(0);
  }

  /** Each token is short and parses to the number it was printed from. */
  lemma CommandTokensParse(s: UiState)
    ensures var t := CommandTokens(s);
      && (forall i :: 0 <= i < 8 ==> t[i] != "" && IsWord(t[i], |t[i]|) && IsWord(t[i], 4))
      && ParseUnsigned(t[0], 16) == Some(NatOf(s.buttons)) && ParseUnsigned(t[1], 10) == Some(s.dpad)
      && (forall i :: 2 <= i < 6 ==> ParseUnsigned(t[i], 10) == Some(128))
      && ParseUnsigned(t[6], 10) == Some(Trigger(s.buttons[L2])) && ParseUnsigned(t[7], 10) == Some(Trigger(s.buttons[R2]))
  {
    hide Print, ParseUnsigned, IsWord;
    MaskIsSmall(s.buttons);
    assert Power(16, 4) == 16 * 16 * 16 * 16 * Power(16, 0) && Power(10, 4) == 10 * 10 * 10 * 10 * Power(10, 0);
    PrintedTokenParses(NatOf(s.buttons), 16, 4);
    PrintedTokenParses(s.dpad, 10, 4);
    PrintedTokenParses(128, 10, 4);
    PrintedTokenParses(Trigger(s.buttons[L2]), 10, 4);
    PrintedTokenParses(Trigger(s.buttons[R2]), 10, 4);
  }

  /** The daemon reads every command ds4-ctl prints, and reads what was meant. */
  lemma CommandIsRead(s: UiState)
    ensures ParseInput(InputCommand(s)) ==
              Some(SyntheticState(s.buttons, s.dpad, 128, 128, 128, 128, Trigger(s.buttons[L2]), Trigger(s.buttons[R2])))
  {
    hide ParseUnsigned, Print, IsWord, Tokens;
    var tokens := CommandTokens(s);
    CommandTokensParse(s);
    FieldsShape(tokens, 4);
    TokensOfFields(tokens);
    var command := InputCommand(s);
    assert command == "input" + Fields(tokens);
    assert command[5..] == Fields(tokens) && command[6..] == Fields(tokens)[1..] && command[..6] == "input ";
    TokensSkipSpace(Fields(tokens));
    BitsOfNatOf(s.buttons);
  }

  /** A command as anybody may type it: any mask and seven numbers. */
  function NumberTokens(mask: nat, ns: seq<nat>): (t: seq<string>)
    ensures |t| == |ns| + 1
  {
    [Print(mask, 16)] + seq(|ns|, i requires 0 <= i < |ns| => Print(ns[i], 10))
  }

  lemma NumberTokensParse(mask: nat, ns: seq<nat>)
    requires mask < U32 && forall i :: 0 <= i < |ns| ==> ns[i] < U32
    ensures var t := NumberTokens(mask, ns);
      && (forall i :: 0 <= i < |t| ==> t[i] != "" && IsWord(t[i], |t[i]|))
      && ParseUnsigned(t[0], 16) == Some(mask)
      && forall i :: 0 < i < |t| ==> ParseUnsigned(t[i], 10) == Some(ns[i - 1])
  {
    hide ParseUnsigned, Print, IsWord;
    TenDigits();
    PrintedTokenParses(mask, 16, 10);
    var t := NumberTokens(mask, ns);
    forall i | 0 < i < |t|
      ensures t[i] != "" && IsWord(t[i], |t[i]|) && ParseUnsigned(t[i], 10) == Some(ns[i - 1])
    {
      PrintedTokenParses(ns[i - 1], 10, 10);
    }
  }

  lemma TenDigits()
    ensures U32 <= Power(10, 10) && U32 <= Power(16, 10)
  {
    assert Power(10, 10) == 10 * 10 * 10 * 10 * 10 * Power(10, 5) && Power(10, 5) == 10 * 10 * 10 * 10 * 10 * Power(10, 0);
    assert Power(16, 10) == 16 * 16 * 16 * 16 * 16 * Power(16, 5) && Power(16, 5) == 16 * 16 * 16 * 16 * 16 * Power(16, 0);
  }

  /** It is taken exactly if there are eight numbers, and of each what its field holds. */
  lemma AnyCommandIsRead(mask: nat, ns: seq<nat>)
    requires mask < U32 && forall i :: 0 <= i < |ns| ==> ns[i] < U32
    ensures ParseInput("input" + Fields(NumberTokens(mask, ns))) ==
      if |ns| != 7 then None
      else Some(SyntheticState(BitsOf(mask, 16), ns[0] % 256, ns[1] % 256, ns[2] % 256, ns[3] % 256, ns[4] % 256,
                               ns[5] % 256, ns[6] % 256))
  {
    hide ParseUnsigned, Print, IsWord, Tokens, BitsOf;
    var tokens := NumberTokens(mask, ns);
    NumberTokensParse(mask, ns);
    TokensOfFields(tokens);
    SpaceFirst(tokens);
    var command := "input" + Fields(tokens);
    assert command[5..] == Fields(tokens) && command[6..] == Fields(tokens)[1..] && command[..6] == "input ";
    TokensSkipSpace(Fields(tokens));
  }

  // --------------------------------------------------------------------------- round trip

  lemma PackedBytes(s: SyntheticState, counter: byte)
    ensures DecodeButtons(SyntheticBytes(s, counter)) == (s.buttons[..14] + Zeros(2), LowNibble(s.dpad))
    ensures LowNibble(s.dpad) < 16
  {
    hide BitsOf, LowNibble, ByteOf, Zeros;
    var bytes := SyntheticBytes(s, counter);
    assert BitsOf(bytes[0], 8)[4..] == s.buttons[..4] && BitsOf(bytes[0], 8)[..4] == BitsOf(s.dpad, 8)[..4];
    assert BitsOf(bytes[2], 8)[..2] == s.buttons[12..14];
    assert s.buttons[..4] + s.buttons[4..12] + s.buttons[12..14] == s.buttons[..14];
    SameNibble(bytes[0], s.dpad);
    NibbleIsAll(s.dpad);
  }

  /** Whatever the report counter's value, the buttons and the d-pad come back -- the bits a
      report has room for, that is: fourteen buttons and four d-pad bits. */
  lemma TesterRoundTrip(s: UiState, counter: byte)
    ensures EndToEnd(s, counter) == Some(InputState(
      "VIRTUAL", 128, 128, 128, 128, Trigger(s.buttons[L2]), Trigger(s.buttons[R2]),
      s.buttons[..14] + Zeros(2), LowNibble(s.dpad),
      (0, 0, 0), (0, 0, 0), TouchPoint(false, 0, 0), TouchPoint(false, 0, 0), true, true))
  {
    hide ParseInput, FormatState, ParseState, DecodeButtons, SyntheticBytes, InputCommand, Stripped;
    CommandIsRead(s);
    var parsed := ParseInput(InputCommand(s)).value;
    PackedBytes(parsed, counter);
    StateRoundTrip(VirtualState(parsed, counter));
  }

  function Scaled(bits: seq<bool>, k: nat): nat {
    if k == 0 then NatOf(bits) else 2 * Scaled(bits, k - 1)
  }

  lemma {:induction false} NatOfAppend(a: seq<bool>, b: seq<bool>)
    ensures NatOf(a + b) == NatOf(a) + Scaled(b, |a|)
  {
    if a == [] {
      assert a + b == b;
    } else {
      assert (a + b)[0] == a[0] && (a + b)[1..] == a[1..] + b;
      NatOfAppend(a[1..], b);
    }
  }

  lemma {:induction false} ScaledBound(bits: seq<bool>, k: nat)
    ensures if NatOf(bits) == 0 then Scaled(bits, k) == 0 else Scaled(bits, k) >= Pow2(k)
  {
    if k > 0 {
      ScaledBound(bits, k - 1);
    }
  }

  lemma HighBits(buttons: Buttons)
    ensures NatOf(buttons) < 0x4000 <==> buttons[14..] == Zeros(2)
  {
    var low, high := buttons[..14], buttons[14..];
    assert buttons == low + high;
    NatOfAppend(low, high);
    ScaledBound(high, 14);
    NatOfBound(low);
    assert Pow2(14) == 2 * 2 * 2 * 2 * 2 * 2 * Pow2(8) && Pow2(8) == 2 * 2 * 2 * 2 * 2 * 2 * 2 * 2 * Pow2(0);
    assert NatOf(high) == (if high[0] then 1 else 0) + 2 * NatOf(high[1..]);
    assert NatOf(high[1..]) == (if high[1] then 1 else 0) + 2 * NatOf(high[2..]);
    if high == Zeros(2) {
      assert !high[0] && !high[1];
    } else {
      assert high[0] || high[1];
    }
  }

  /** So the monitor shows exactly what the tester holds if and only if the mask stays below
      2^14 and the hat below 16. */
  lemma TesterIsFaithfulIff(s: UiState, counter: byte)
    ensures EndToEnd(s, counter).Some?
    ensures (EndToEnd(s, counter).value.buttons == s.buttons && EndToEnd(s, counter).value.dpad == s.dpad)
              <==> (NatOf(s.buttons) < 0x4000 && s.dpad < 16)
  {
    hide EndToEnd;
    TesterRoundTrip(s, counter);
    HighBits(s.buttons);
    NibbleIsAll(s.dpad);
    assert s.buttons == s.buttons[..14] + s.buttons[14..];
    assert (s.buttons[..14] + Zeros(2))[14..] == Zeros(2);
  }
}

// What stands where on the lines of the live-input protocol and in the tester's command, word by
// word.  Round trips do not say it: printer and parser could agree on another order.
module WireFormat {
  import opened Crc32
  import opened CrcNumbers
  import opened Text
  import opened LineProtocol
  import Tester

  /** Not empty, and no white space in it. */
  ghost predicate IsOne(w: string) {
    w != "" && IsWord(w, |w|)
  }

  ghost predicate AreWords(tokens: seq<string>) {
    forall i :: 0 <= i < |tokens| ==> IsOne(tokens[i])
  }

  lemma NumberIsOne(n: nat, base: nat)
    requires base == 10 || base == 16
    ensures IsOne(Print(n, base))
  {
    PrintedHasNoSpace(n, base);
  }

  lemma IntIsOne(i: int)
    ensures IsOne(PrintInt(i))
  {
    PrintedHasNoSpace(if i < 0 then -i else i, 10);
  }

  lemma HexIsOne(b: byte)
    ensures IsOne(PrintHex2(b))
  {
    var s := PrintHex2(b);
    assert DigitValue(s[0]) < 16 && DigitValue(s[1]) < 16;
  }

  lemma NamesAreWords()
    ensures IsOne("STATE") && IsOne("TIMING") && IsOne("OUTPUT") && IsOne("input")
  {
  }

  /** A name and its fields, taken apart at the spaces. */
  lemma WordsOf(name: string, tokens: seq<string>)
    requires AreWords([name] + tokens)
    ensures Tester.Tokens(name + Fields(tokens)) == [name] + tokens
    ensures '\n' !in name + Fields(tokens)
  {
    hide Tester.Tokens;
    assert ([name] + tokens)[0] == name && IsOne(name);
    forall i | 0 <= i < |tokens|
      ensures tokens[i] != "" && IsWord(tokens[i], |tokens[i]|)
    {
      assert ([name] + tokens)[i + 1] == tokens[i] && IsOne(tokens[i]);
    }
    Tester.TokensOfFields(tokens);
    if tokens != [] {
      Tester.SpaceFirst(tokens);
    } else {
      assert Fields(tokens) == "";
    }
    Tester.FirstToken(name, Fields(tokens));
    NoBreaks(tokens);
    WordHasNoBreak(name);
  }

  lemma WordHasNoBreak(w: string)
    requires IsWord(w, |w|)
    ensures '\n' !in w
  {
    forall i | 0 <= i < |w|
      ensures w[i] != '\n'
    {
      assert !IsSpace(w[i]);
    }
  }

  lemma {:induction false} NoBreaks(tokens: seq<string>)
    requires AreWords(tokens)
    ensures '\n' !in Fields(tokens)
  {
    if tokens != [] {
      WordHasNoBreak(tokens[0]);
      NoBreaks(tokens[1..]);
    }
  }

  /** A line that ends where it should was not cut off. */
  lemma Uncut(text: string, size: nat)
    requires size > 0 && '\n' !in text && IsLine(Snprintf(text + "\n", size))
    ensures Stripped(Snprintf(text + "\n", size)) == text
  {
    var all := text + "\n";
    assert forall i :: 0 <= i < |text| ==> all[i] == text[i] && text[i] != '\n';
    if |all| >= size {
      assert false;
    }
    assert all[..|all| - 1] == text;
  }

  lemma LineWords(name: string, tokens: seq<string>, size: nat)
    requires size > 0 && AreWords([name] + tokens) && IsLine(Snprintf(name + Fields(tokens) + "\n", size))
    ensures Tester.Tokens(Stripped(Snprintf(name + Fields(tokens) + "\n", size))) == [name] + tokens
  {
    hide Fields, Tester.Tokens, IsLine, Snprintf, Stripped;
    WordsOf(name, tokens);
    Uncut(name + Fields(tokens), size);
  }

  lemma OneWord(w: string)
    requires IsOne(w)
    ensures AreWords([w])
  {
  }

  lemma JoinWords(a: seq<string>, b: seq<string>)
    requires AreWords(a) && AreWords(b)
    ensures AreWords(a + b)
  {
  }

  /** Colour, then the left motor, then the right one. */
  lemma OutputWords(o: Output)
    requires OutputInRange(o)
    ensures FormatOutput(o) != ""
    ensures Tester.Tokens(Stripped(FormatOutput(o))) ==
      ["OUTPUT", PrintInt(o.red), PrintInt(o.green), PrintInt(o.blue), PrintInt(o.rumbleLeft), PrintInt(o.rumbleRight)]
  {
    hide Tester.Tokens, PrintInt, ParseOutput, IsOne;
    NamesAreWords();
    OutputRoundTrip(o);
    IntIsOne(o.red);
    IntIsOne(o.green);
    IntIsOne(o.blue);
    IntIsOne(o.rumbleLeft);
    IntIsOne(o.rumbleRight);
    var tokens := [PrintInt(o.red), PrintInt(o.green), PrintInt(o.blue), PrintInt(o.rumbleLeft), PrintInt(o.rumbleRight)];
    assert AreWords(["OUTPUT"] + tokens);
    LineWords("OUTPUT", tokens, 64);
  }

  /** The window: reports, length, then mean, smallest and largest interval, mean and largest latency. */
  lemma TimingWords(t: TimingStats)
    requires TimingInRange(t)
    ensures FormatTiming(t) != ""
    ensures Tester.Tokens(Stripped(FormatTiming(t))) ==
      ["TIMING", Print(t.reports, 10), Print(t.windowUs, 10), Print(t.intervalMeanUs, 10), Print(t.intervalMinUs, 10),
       Print(t.intervalMaxUs, 10), Print(t.latencyMeanUs, 10), Print(t.latencyMaxUs, 10)]
  {
    hide Tester.Tokens, Print, ParseTiming, IsOne;
    NamesAreWords();
    TimingRoundTrip(t);
    NumberIsOne(t.reports, 10);
    NumberIsOne(t.windowUs, 10);
    NumberIsOne(t.intervalMeanUs, 10);
    NumberIsOne(t.intervalMinUs, 10);
    NumberIsOne(t.intervalMaxUs, 10);
    NumberIsOne(t.latencyMeanUs, 10);
    NumberIsOne(t.latencyMaxUs, 10);
    var tokens := [Print(t.reports, 10), Print(t.windowUs, 10), Print(t.intervalMeanUs, 10), Print(t.intervalMinUs, 10),
                   Print(t.intervalMaxUs, 10), Print(t.latencyMeanUs, 10), Print(t.latencyMaxUs, 10)];
    assert AreWords(["TIMING"] + tokens);
    LineWords("TIMING", tokens, 128);
  }

  /** The source; the sticks, left then right; the triggers; three button bytes. */
  lemma AxisWords(s: InputState)
    requires InRange(s)
    ensures var b := ButtonBytes(s.buttons, s.dpad);
      var axes := [s.source, Print(s.lx, 10), Print(s.ly, 10), Print(s.rx, 10), Print(s.ry, 10), Print(s.l2, 10), Print(s.r2, 10)];
      var buttons := [PrintHex2(b[0]), PrintHex2(b[1]), PrintHex2(b[2])];
      AreWords(axes + buttons) && BaseTokens(s) == axes + buttons
  {
    hide Print, PrintHex2, ButtonBytes, IsOne;
    SourceIsOne(s);
    NumberIsOne(s.lx, 10);
    NumberIsOne(s.ly, 10);
    NumberIsOne(s.rx, 10);
    NumberIsOne(s.ry, 10);
    NumberIsOne(s.l2, 10);
    NumberIsOne(s.r2, 10);
    var b := ButtonBytes(s.buttons, s.dpad);
    HexIsOne(b[0]);
    HexIsOne(b[1]);
    HexIsOne(b[2]);
  }

  lemma SourceIsOne(s: InputState)
    requires InRange(s)
    ensures IsOne(s.source)
  {
  }

  /** Gyroscope and accelerometer, each by axis; the two contacts. */
  lemma MotionWords(s: InputState)
    ensures var motion := [PrintInt(s.gyro.0), PrintInt(s.gyro.1), PrintInt(s.gyro.2),
                           PrintInt(s.accel.0), PrintInt(s.accel.1), PrintInt(s.accel.2)];
      var touch := [PrintInt(if s.touch0.active then 1 else 0), PrintInt(s.touch0.x), PrintInt(s.touch0.y),
                    PrintInt(if s.touch1.active then 1 else 0), PrintInt(s.touch1.x), PrintInt(s.touch1.y)];
      && AreWords(motion) && AreWords(touch) && MotionTokens(s) == motion && TouchTokens(s) == touch
  {
    hide PrintInt, IsOne;
    IntIsOne(s.gyro.0);
    IntIsOne(s.gyro.1);
    IntIsOne(s.gyro.2);
    IntIsOne(s.accel.0);
    IntIsOne(s.accel.1);
    IntIsOne(s.accel.2);
    IntIsOne(Active(s.touch0));
    IntIsOne(s.touch0.x);
    IntIsOne(s.touch0.y);
    IntIsOne(Active(s.touch1));
    IntIsOne(s.touch1.x);
    IntIsOne(s.touch1.y);
  }

  lemma StateWords(s: InputState)
    requires InRange(s)
    ensures FormatState(s) != ""
    ensures var b := ButtonBytes(s.buttons, s.dpad);
      Tester.Tokens(Stripped(FormatState(s))) ==
        ["STATE", s.source, Print(s.lx, 10), Print(s.ly, 10), Print(s.rx, 10), Print(s.ry, 10), Print(s.l2, 10), Print(s.r2, 10),
         PrintHex2(b[0]), PrintHex2(b[1]), PrintHex2(b[2]),
         PrintInt(s.gyro.0), PrintInt(s.gyro.1), PrintInt(s.gyro.2), PrintInt(s.accel.0), PrintInt(s.accel.1), PrintInt(s.accel.2),
         PrintInt(if s.touch0.active then 1 else 0), PrintInt(s.touch0.x), PrintInt(s.touch0.y),
         PrintInt(if s.touch1.active then 1 else 0), PrintInt(s.touch1.x), PrintInt(s.touch1.y)]
  {
    hide Tester.Tokens, Print, PrintInt, PrintHex2, ButtonBytes, InRange, AreWords;
    StateLine(s);
    AxisWords(s);
    MotionWords(s);
  }

  lemma StateLine(s: InputState)
    requires InRange(s)
    ensures FormatState(s) != ""
    ensures Tester.Tokens(Stripped(FormatState(s))) == ["STATE"] + (BaseTokens(s) + MotionTokens(s) + TouchTokens(s))
  {
    hide Tester.Tokens, ParseState, InRange, AreWords, BaseTokens, MotionTokens, TouchTokens;
    StateRoundTrip(s);
    AxisWords(s);
    MotionWords(s);
    var tokens := BaseTokens(s) + MotionTokens(s) + TouchTokens(s);
    NamesAreWords();
    JoinWords(BaseTokens(s), MotionTokens(s));
    JoinWords(BaseTokens(s) + MotionTokens(s), TouchTokens(s));
    OneWord("STATE");
    JoinWords(["STATE"], tokens);
    LineWords("STATE", tokens, 256);
  }

  /** The three button bytes, by weight. */
  lemma ButtonWeights(buttons: Buttons, dpad: byte)
    ensures var b := ButtonBytes(buttons, dpad);
      && b[0] == LowNibble(dpad) + 16 * BitValue(buttons[0]) + 32 * BitValue(buttons[1]) + 64 * BitValue(buttons[2]) + 128 * BitValue(buttons[3])
      && b[1] == BitValue(buttons[4]) + 2 * BitValue(buttons[5]) + 4 * BitValue(buttons[6]) + 8 * BitValue(buttons[7])
                 + 16 * BitValue(buttons[8]) + 32 * BitValue(buttons[9]) + 64 * BitValue(buttons[10]) + 128 * BitValue(buttons[11])
      && b[2] == BitValue(buttons[12]) + 2 * BitValue(buttons[13])
  {
    hide BitsOf, NatOf;
    var d := BitsOf(dpad, 8)[..4];
    Weights(d + buttons[..4]);
    FourBits(d);
    assert d[4..] == [];
    Weights(buttons[4..12]);
    Weights(buttons[12..14] + Zeros(6));
    NoWeight();
  }

  lemma NoWeight()
    ensures NatOf([]) == 0
  {
  }

  lemma Weights(b: seq<bool>)
    requires |b| == 8
    ensures NatOf(b) == BitValue(b[0]) + 2 * BitValue(b[1]) + 4 * BitValue(b[2]) + 8 * BitValue(b[3])
                        + 16 * BitValue(b[4]) + 32 * BitValue(b[5]) + 64 * BitValue(b[6]) + 128 * BitValue(b[7])
  {
    hide NatOf;
    FourBits(b);
    FourBits(b[4..]);
    NoWeight();
    assert b[4..][4..] == [];
  }

  /** The tester's command: the mask in hex, the hat, four centred sticks, L2 and R2. */
  lemma InputWords(s: Tester.UiState)
    ensures Tester.Tokens(Tester.InputCommand(s)) ==
      ["input", Print(NatOf(s.buttons), 16), Print(s.dpad, 10), Print(128, 10), Print(128, 10), Print(128, 10), Print(128, 10),
       Print(if s.buttons[6] then 255 else 0, 10), Print(if s.buttons[7] then 255 else 0, 10)]
  {
    hide Tester.Tokens, Print, Tester.ParseUnsigned, IsOne;
    Tester.CommandTokensParse(s);
    FieldsShape(Tester.CommandTokens(s), 4);
    NumberIsOne(NatOf(s.buttons), 16);
    NumberIsOne(s.dpad, 10);
    NumberIsOne(128, 10);
    NumberIsOne(if s.buttons[6] then 255 else 0, 10);
    NumberIsOne(if s.buttons[7] then 255 else 0, 10);
    var tokens := Tester.CommandTokens(s);
    NamesAreWords();
    assert AreWords(["input"] + tokens);
    WordsOf("input", tokens);
  }
}

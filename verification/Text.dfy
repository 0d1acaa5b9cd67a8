// printf and scanf as the line protocol uses them: decimal and hexadecimal printing, and the
// conversions of sscanf and strtoul, which accept more than is ever printed.
module Text {

  const U32: int := 0x1_0000_0000
  const U64: int := 0x1_0000_0000_0000_0000

  predicate IsSpace(c: char) {
    c == ' ' || 9 <= c as int <= 13
  }

  /** The value of a digit, or 16 for a character that is none. */
  function DigitValue(c: char): (v: nat)
    ensures v <= 16
  {
    if '0' <= c <= '9' then (c - '0') as nat
    else if 'a' <= c <= 'f' then (c - 'a') as nat + 10
    else if 'A' <= c <= 'F' then (c - 'A') as nat + 10
    else 16
  }

  function DigitChar(v: nat): (c: char)
    requires v < 16
    ensures DigitValue(c) == v
  {
    if v < 10 then '0' + v as char else 'a' + (v - 10) as char
  }

  predicate Digits(s: string, base: nat) {
    forall i :: 0 <= i < |s| ==> DigitValue(s[i]) < base
  }

  // ---------------------------------------------------------------------------- printing

  function Front(n: nat, base: nat): (f: nat)
    requires base == 10 || base == 16
    ensures n >= base ==> f < n
  {
    if base == 10 then n / 10 else n / 16
  }

  function Last(n: nat, base: nat): (d: nat)
    requires base == 10 || base == 16
    ensures d < base && base * Front(n, base) + d == n
  {
    if base == 10 then n % 10 else n % 16
  }

  /** %u (base 10) and %x (base 16). */
  function Print(n: nat, base: nat): (s: string)
    requires base == 10 || base == 16
    ensures s != "" && Digits(s, base)
    decreases n
  {
    if n < base then [DigitChar(n)] else Print(Front(n, base), base) + [DigitChar(Last(n, base))]
  }

  /** %d */
  function PrintInt(i: int): (s: string)
    ensures s != ""
  {
    if i < 0 then "-" + Print(-i, 10) else Print(i, 10)
  }

  /** %02x of a byte */
  function PrintHex2(b: nat): (s: string)
    requires b < 256
    ensures Digits(s, 16) && |s| == 2 && ValueOf(s, 16) == b
  {
    assert ValueOf([DigitChar(b / 16)], 16) == b / 16;
    assert [DigitChar(b / 16), DigitChar(b % 16)][..1] == [DigitChar(b / 16)];
    [DigitChar(b / 16), DigitChar(b % 16)]
  }

  // ---------------------------------------------------------------------------- reading

  function ValueOf(s: string, base: nat): nat
    requires Digits(s, base)
  {
    if s == "" then 0 else base * ValueOf(s[..|s| - 1], base) + DigitValue(s[|s| - 1])
  }

  lemma ValueOfSnoc(s: string, c: char, base: nat)
    requires Digits(s, base) && DigitValue(c) < base
    ensures Digits(s + [c], base) && ValueOf(s + [c], base) == base * ValueOf(s, base) + DigitValue(c)
  {
    assert (s + [c])[..|s|] == s;
  }

  lemma {:induction false} ValueOfPrint(n: nat, base: nat)
    requires base == 10 || base == 16
    ensures ValueOf(Print(n, base), base) == n
    decreases n
  {
    if n < base {
      assert ValueOf([DigitChar(n)], base) == base * ValueOf("", base) + n;
    } else {
      ValueOfPrint(Front(n, base), base);
      ValueOfSnoc(Print(Front(n, base), base), DigitChar(Last(n, base)), base);
    }
  }

  /** A number as sscanf and strtoul see it, and what follows it. */
  datatype Number = NoNumber | Number(negative: bool, magnitude: nat, rest: string)

  function DigitRun(s: string, base: nat): (n: nat)
    ensures n <= |s| && Digits(s[..n], base)
    ensures n < |s| ==> DigitValue(s[n]) >= base
  {
    if s == "" || DigitValue(s[0]) >= base then 0
    else
      var n := DigitRun(s[1..], base) + 1;
      assert forall i :: 1 <= i < n ==> s[..n][i] == s[1..][..n - 1][i - 1];
      n
  }

  /** Sign, the 0x of base 16, and the digits. */
  function ReadNumber(s: string, base: nat): Number {
    var signed := s != "" && (s[0] == '-' || s[0] == '+');
    var t := if signed then s[1..] else s;
    var prefixed := base == 16 && |t| >= 2 && t[0] == '0' && (t[1] == 'x' || t[1] == 'X');
    var u := if prefixed then t[2..] else t;
    var n := DigitRun(u, base);
    if n == 0 then NoNumber
    else Number(signed && s[0] == '-', ValueOf(u[..n], base), u[n..])
  }

  /** The unsigned long a number converts to; out of range gives the largest. */
  function Unsigned(n: Number): nat
    requires n.Number?
  {
    if n.magnitude >= U64 then U64 - 1
    else if n.negative then (U64 - n.magnitude) % U64
    else n.magnitude
  }

  /** The long a number converts to, saturating. */
  function Signed(n: Number): int
    requires n.Number?
  {
    var m: int := n.magnitude;
    if n.negative then (if m > U64 / 2 then -(U64 / 2) else -m)
    else if m >= U64 / 2 then U64 / 2 - 1 else m
  }

  /** The int made of the low 32 bits. */
  function Wrap32(i: int): (w: int)
    ensures -(U32 / 2) <= w < U32 / 2
    ensures -(U32 / 2) <= i < U32 / 2 ==> w == i
  {
    (i + U32 / 2) % U32 - U32 / 2
  }

  function SkipSpaces(s: string): string {
    if s != "" && IsSpace(s[0]) then SkipSpaces(s[1..]) else s
  }

  function WordRun(s: string, limit: nat): (n: nat)
    ensures n <= |s| && n <= limit
  {
    if s == "" || limit == 0 || IsSpace(s[0]) then 0 else 1 + WordRun(s[1..], limit - 1)
  }

  // ------------------------------------------------------------------- sscanf conversions

  datatype Conversion =
    | Word(limit: nat)  // %<limit>s
    | Decimal           // %u
    | Long              // %llu
    | Hex               // %x
    | Int               // %d

  datatype Value = Str(s: string) | Num(i: int)

  datatype Scan = Failed | Scanned(v: Value, rest: string)

  /** One conversion: leading white space is skipped, and a number that does not fit is
      reduced the way storing it in the argument reduces it. */
  function Convert(c: Conversion, text: string): Scan {
    var s := SkipSpaces(text);
    match c
    case Word(limit) =>
      var n := WordRun(s, limit);
      if n == 0 then Failed else Scanned(Str(s[..n]), s[n..])
    case Int =>
      var n := ReadNumber(s, 10);
      if n.NoNumber? then Failed else Scanned(Num(Wrap32(Signed(n))), n.rest)
    case Long =>
      var n := ReadNumber(s, 10);
      if n.NoNumber? then Failed else Scanned(Num(Unsigned(n)), n.rest)
    case Decimal =>
      var n := ReadNumber(s, 10);
      if n.NoNumber? then Failed else Scanned(Num(Unsigned(n) % U32), n.rest)
    case Hex =>
      var n := ReadNumber(s, 16);
      if n.NoNumber? then Failed else Scanned(Num(Unsigned(n) % U32), n.rest)
  }

  predicate Stores(c: Conversion, v: Value) {
    match c
    case Word(_) => v.Str?
    case Int => v.Num? && -(U32 / 2) <= v.i < U32 / 2
    case Long => v.Num? && 0 <= v.i < U64
    case _ => v.Num? && 0 <= v.i < U32
  }

  /** The values sscanf assigns before the first conversion that fails. */
  function ScanAll(cs: seq<Conversion>, text: string): (vs: seq<Value>)
    ensures |vs| <= |cs| && forall i :: 0 <= i < |vs| ==> Stores(cs[i], vs[i])
  {
    if cs == [] then []
    else
      match Convert(cs[0], text)
      case Failed => []
      case Scanned(v, rest) => [v] + ScanAll(cs[1..], rest)
  }

  // ------------------------------------------------------------------ printed, then read

  /** A token read back, whatever white space or end of line follows it. */
  ghost predicate ReadsAs(c: Conversion, token: string, v: Value) {
    && token != "" && !IsSpace(token[0])
    && forall tail :: tail == "" || IsSpace(tail[0]) ==> Convert(c, token + tail) == Scanned(v, tail)
  }

  lemma {:induction false} DigitRunOfDigits(s: string, tail: string, base: nat)
    requires base <= 16 && Digits(s, base) && (tail == "" || IsSpace(tail[0]))
    ensures DigitRun(s + tail, base) == |s|
  {
    if s == "" {
      assert s + tail == tail;
    } else {
      assert (s + tail)[1..] == s[1..] + tail;
      DigitRunOfDigits(s[1..], tail, base);
    }
  }

  /** No sign and no 0x in front of digits. */
  lemma StartsPlainly(s: string, tail: string, base: nat)
    requires base <= 16 && s != "" && Digits(s, base) && (tail == "" || IsSpace(tail[0]))
    ensures var text := s + tail;
      text[0] != '-' && text[0] != '+' && (|text| >= 2 ==> text[1] != 'x' && text[1] != 'X')
  {
    assert (s + tail)[0] == s[0] && DigitValue(s[0]) < base;
    assert |s| >= 2 ==> (s + tail)[1] == s[1] && DigitValue(s[1]) < base;
    assert |s| == 1 && tail != "" ==> (s + tail)[1] == tail[0];
  }

  lemma ReadDigits(s: string, tail: string, base: nat)
    requires base == 10 || base == 16
    requires s != "" && Digits(s, base) && (tail == "" || IsSpace(tail[0]))
    ensures ReadNumber(s + tail, base) == Number(false, ValueOf(s, base), tail)
  {
    hide Digits, DigitValue, ValueOf, DigitRun, IsSpace;
    StartsPlainly(s, tail, base);
    DigitRunOfDigits(s, tail, base);
    assert (s + tail)[..|s|] == s && (s + tail)[|s|..] == tail;
  }

  lemma ReadNegative(s: string, tail: string)
    requires s != "" && Digits(s, 10) && (tail == "" || IsSpace(tail[0]))
    ensures ReadNumber(("-" + s) + tail, 10) == Number(true, ValueOf(s, 10), tail)
  {
    assert (("-" + s) + tail)[1..] == s + tail;
    DigitRunOfDigits(s, tail, 10);
    assert (s + tail)[..|s|] == s && (s + tail)[|s|..] == tail;
  }

  /** From the number scanned to the value stored. */
  lemma ScannedAs(c: Conversion, s: string, tail: string, base: nat, number: Number)
    requires s != "" && !IsSpace(s[0]) && (tail == "" || IsSpace(tail[0])) && !c.Word?
    requires base == if c.Hex? then 16 else 10
    requires number.Number? && number.rest == tail && ReadNumber(s + tail, base) == number
    ensures Convert(c, s + tail) == Scanned(Stored(c, number), tail)
  {
    hide ReadNumber;
    assert (s + tail)[0] == s[0];
    assert SkipSpaces(s + tail) == s + tail;
  }

  function Stored(c: Conversion, n: Number): Value
    requires n.Number? && !c.Word?
  {
    match c
    case Int => Num(Wrap32(Signed(n)))
    case Long => Num(Unsigned(n))
    case _ => Num(Unsigned(n) % U32)
  }

  lemma DigitsRead(c: Conversion, s: string, n: nat)
    requires (c.Hex? || c.Decimal? || c.Long?) && n < if c.Long? then U64 else U32
    requires var base := if c.Hex? then 16 else 10; s != "" && Digits(s, base) && ValueOf(s, base) == n
    ensures ReadsAs(c, s, Num(n))
  {
    hide ReadNumber, Convert;
    var base := if c.Hex? then 16 else 10;
    assert DigitValue(s[0]) < base;
    forall tail | tail == "" || IsSpace(tail[0])
      ensures Convert(c, s + tail) == Scanned(Num(n), tail)
    {
      ReadDigits(s, tail, base);
      ScannedAs(c, s, tail, base, Number(false, n, tail));
    }
  }

  lemma PrintedReads(c: Conversion, n: nat)
    requires (c.Decimal? && n < U32) || (c.Hex? && n < U32) || (c.Long? && n < U64)
    ensures ReadsAs(c, Print(n, if c.Hex? then 16 else 10), Num(n))
  {
    ValueOfPrint(n, if c.Hex? then 16 else 10);
    DigitsRead(c, Print(n, if c.Hex? then 16 else 10), n);
  }

  lemma PrintedIntReads(i: int)
    requires -(U32 / 2) <= i < U32 / 2
    ensures ReadsAs(Int, PrintInt(i), Num(i))
  {
    hide ReadNumber, Convert;
    var s := PrintInt(i);
    var m := if i < 0 then -i else i;
    ValueOfPrint(m, 10);
    assert DigitValue(Print(m, 10)[0]) < 10;
    forall tail | tail == "" || IsSpace(tail[0])
      ensures Convert(Int, s + tail) == Scanned(Num(i), tail)
    {
      if i < 0 {
        ReadNegative(Print(m, 10), tail);
      } else {
        ReadDigits(s, tail, 10);
      }
      ScannedAs(Int, s, tail, 10, Number(i < 0, m, tail));
    }
  }

  /** What becomes of numbers that do not fit: past 64 bits strtoul stops at the largest, and
      storing in 32 bits drops whole turns. */
  lemma AnyNumberReads(n: nat)
    ensures Convert(Decimal, Print(n, 10)) ==
      Scanned(Num(if n < 0x1_0000_0000_0000_0000 then n % 0x1_0000_0000 else 0xFFFF_FFFF), "")
    ensures Convert(Long, Print(n, 10)) ==
      Scanned(Num(if n < 0x1_0000_0000_0000_0000 then n else 0xFFFF_FFFF_FFFF_FFFF), "")
  {
    hide ReadNumber, Convert, ValueOf, Print, IsSpace;
    var s := Print(n, 10);
    ValueOfPrint(n, 10);
    ReadDigits(s, "", 10);
    PlainStart(s);
    ScannedAs(Decimal, s, "", 10, Number(false, n, ""));
    ScannedAs(Long, s, "", 10, Number(false, n, ""));
    assert s + "" == s;
  }

  lemma PlainStart(s: string)
    requires s != "" && Digits(s, 10)
    ensures !IsSpace(s[0]) && SkipSpaces(s) == s
  {
    assert DigitValue(s[0]) < 10;
  }

  /** ... and %d keeps the low 32 bits of what fits a long. */
  lemma AnyIntReads(i: int, k: int)
    requires -0x8000_0000 <= i < 0x8000_0000
    requires -0x8000_0000_0000_0000 <= i + 0x1_0000_0000 * k < 0x8000_0000_0000_0000
    ensures Convert(Int, PrintInt(i + 0x1_0000_0000 * k)) == Scanned(Num(i), "")
  {
    hide ReadNumber;
    var j := i + 0x1_0000_0000 * k;
    var m := if j < 0 then -j else j;
    var s := Print(m, 10);
    ValueOfPrint(m, 10);
    PlainStart(s);
    WholeTurns(i, k);
    if j < 0 {
      ReadNegative(s, "");
      assert SkipSpaces("-" + s) == "-" + s;
      assert ("-" + s) + "" == "-" + s;
    } else {
      ReadDigits(s, "", 10);
      assert s + "" == s;
    }
  }

  lemma WholeTurns(i: int, k: int)
    requires -(U32 / 2) <= i < U32 / 2
    ensures Wrap32(i + U32 * k) == i
  {
  }

  /** White space of any kind may come before a field. */
  lemma {:induction false} BlanksAreSkipped(c: Conversion, blank: string, text: string)
    requires forall i :: 0 <= i < |blank| ==> blank[i] in {' ', '\t', '\n', '\r', '\U{0B}', '\U{0C}'}
    ensures Convert(c, blank + text) == Convert(c, text)
    decreases |blank|
  {
    if blank == "" {
      assert blank + text == text;
    } else {
      hide ReadNumber, WordRun;
      BlanksAreSkipped(c, blank[1..], text);
      assert (blank + text)[1..] == blank[1..] + text && (blank + text)[0] == blank[0];
      SameAfterSkip(c, blank + text, blank[1..] + text);
    }
  }

  lemma SameAfterSkip(c: Conversion, a: string, b: string)
    requires SkipSpaces(a) == SkipSpaces(b)
    ensures Convert(c, a) == Convert(c, b)
  {
  }

  lemma ReadPlus(s: string)
    requires s != "" && Digits(s, 10)
    ensures ReadNumber("+" + s, 10) == Number(false, ValueOf(s, 10), "")
  {
    hide ValueOf;
    DigitRunOfDigits(s, "", 10);
    assert s + "" == s && s[..|s|] == s && ("+" + s)[1..] == s;
  }

  lemma ReadPrefixed(s: string)
    requires s != "" && Digits(s, 16)
    ensures ReadNumber("0x" + s, 16) == Number(false, ValueOf(s, 16), "")
  {
    hide ValueOf;
    DigitRunOfDigits(s, "", 16);
    assert s + "" == s && s[..|s|] == s && ("0x" + s)[2..] == s;
  }

  /** A plus sign, and the 0x of a number in base 16, may be there. */
  lemma PrefixesAreRead(n: nat)
    requires n < 0x1_0000_0000
    ensures Convert(Decimal, "+" + Print(n, 10)) == Scanned(Num(n), "")
    ensures Convert(Hex, "0x" + Print(n, 16)) == Scanned(Num(n), "")
  {
    hide ReadNumber, Print, Convert, ValueOf;
    var d, h := "+" + Print(n, 10), "0x" + Print(n, 16);
    ValueOfPrint(n, 10);
    ValueOfPrint(n, 16);
    ReadPlus(Print(n, 10));
    ReadPrefixed(Print(n, 16));
    assert d + "" == d && h + "" == h && d[0] == '+' && h[0] == '0';
    ScannedAs(Decimal, d, "", 10, Number(false, n, ""));
    ScannedAs(Hex, h, "", 16, Number(false, n, ""));
  }

  lemma {:induction false} WordRunOfWord(s: string, tail: string, limit: nat)
    requires |s| <= limit && (forall i :: 0 <= i < |s| ==> !IsSpace(s[i])) && (tail == "" || IsSpace(tail[0]))
    ensures WordRun(s + tail, limit) == |s|
  {
    if s == "" {
      assert s + tail == tail;
    } else {
      assert (s + tail)[1..] == s[1..] + tail;
      WordRunOfWord(s[1..], tail, limit - 1);
    }
  }

  lemma WordReads(s: string, limit: nat)
    requires 0 < |s| <= limit && (forall i :: 0 <= i < |s| ==> !IsSpace(s[i]))
    ensures ReadsAs(Word(limit), s, Str(s))
  {
    forall tail | tail == "" || IsSpace(tail[0])
      ensures Convert(Word(limit), s + tail) == Scanned(Str(s), tail)
    {
      assert (s + tail)[0] == s[0];
      WordRunOfWord(s, tail, limit);
      assert (s + tail)[..|s|] == s && (s + tail)[|s|..] == tail;
    }
  }

  /** The tokens of a line, each after one space. */
  function Fields(tokens: seq<string>): string {
    if tokens == [] then "" else " " + tokens[0] + Fields(tokens[1..])
  }

  /** A line of tokens reads back as their values -- and a line that stops early reads back as
      the values it has, which is how an older daemon's shorter line is recognised. */
  lemma {:induction false} ScanAllFields(cs: seq<Conversion>, tokens: seq<string>, vs: seq<Value>)
    requires |tokens| == |vs| <= |cs|
    requires forall i :: 0 <= i < |tokens| ==> ReadsAs(cs[i], tokens[i], vs[i])
    ensures ScanAll(cs, Fields(tokens)) == vs
    decreases |tokens|
  {
    hide ReadsAs;
    if tokens == [] {
      if cs != [] {
        NothingToRead(cs[0]);
      }
    } else {
      ReadsFirst(cs[0], tokens[0], vs[0], Fields(tokens[1..]));
      forall i | 0 <= i < |tokens| - 1
        ensures ReadsAs(cs[1..][i], tokens[1..][i], vs[1..][i])
      {
        assert ReadsAs(cs[i + 1], tokens[i + 1], vs[i + 1]);
      }
      ScanAllFields(cs[1..], tokens[1..], vs[1..]);
    }
  }

  lemma NothingToRead(c: Conversion)
    ensures Convert(c, "") == Failed
  {
  }

  lemma ReadsFirst(c: Conversion, token: string, v: Value, tail: string)
    requires ReadsAs(c, token, v) && (tail == "" || IsSpace(tail[0]))
    ensures Convert(c, " " + token + tail) == Scanned(v, tail)
  {
    hide ReadNumber, WordRun;
    assert (" " + token + tail)[1..] == token + tail;
    assert SkipSpaces(" " + token + tail) == SkipSpaces(token + tail);
    assert (token + tail)[0] == token[0];
    assert Convert(c, token + tail) == Scanned(v, tail);
  }

  // ---------------------------------------------------------------------- shape of a line

  /** At most `limit` characters, none of them white space. */
  ghost predicate IsWord(token: string, limit: nat) {
    |token| <= limit && forall i :: 0 <= i < |token| ==> !IsSpace(token[i])
  }

  function Power(base: nat, k: nat): nat {
    if k == 0 then 1 else base * Power(base, k - 1)
  }

  lemma {:induction false} PrintedIsWord(n: nat, base: nat, k: nat)
    requires base == 10 || base == 16
    requires k > 0 && n < Power(base, k)
    ensures IsWord(Print(n, base), k)
    decreases k
  {
    PrintedHasNoSpace(n, base);
    if n >= base {
      assert k > 1 by { assert Power(base, 1) == base * Power(base, 0); }
      assert Front(n, base) < Power(base, k - 1);
      PrintedIsWord(Front(n, base), base, k - 1);
    }
  }

  lemma PrintedHasNoSpace(n: nat, base: nat)
    requires base == 10 || base == 16
    ensures forall i :: 0 <= i < |Print(n, base)| ==> !IsSpace(Print(n, base)[i])
  {
    var s := Print(n, base);
    forall i | 0 <= i < |s|
      ensures !IsSpace(s[i])
    {
      assert DigitValue(s[i]) < base;
    }
  }

  lemma PrintedIntIsWord(i: int, k: nat)
    requires k > 0 && 0 < i + Power(10, k) && i < Power(10, k)
    ensures IsWord(PrintInt(i), k + 1)
  {
    PrintedIsWord(if i < 0 then -i else i, 10, k);
  }

  lemma {:induction false} FieldsShape(tokens: seq<string>, limit: nat)
    requires forall i :: 0 <= i < |tokens| ==> IsWord(tokens[i], limit)
    ensures |Fields(tokens)| <= |tokens| * (limit + 1)
    ensures '\n' !in Fields(tokens)
  {
    if tokens != [] {
      assert IsWord(tokens[0], limit);
      FieldsShape(tokens[1..], limit);
      assert |tokens| * (limit + 1) == (|tokens| - 1) * (limit + 1) + (limit + 1);
    }
  }

  lemma {:induction false} FieldsAppend(a: seq<string>, b: seq<string>)
    ensures Fields(a + b) == Fields(a) + Fields(b)
  {
    if a == [] {
      assert a + b == b;
    } else {
      assert (a + b)[1..] == a[1..] + b;
      FieldsAppend(a[1..], b);
    }
  }
}

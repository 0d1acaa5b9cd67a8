// Which function the CRC-32 is.  The register of Crc32 is a list of bits; here it is the uint32_t
// of src/main.cpp, and what the standard fixes is checked against it: the generator polynomial,
// the residue an intact message leaves, and the check value.
module CrcNumbers {
  import opened Crc32

  predicate Low(c: bv32) {
    c & 1 == 1
  }

  function Half(c: bv32): bv32 {
    c >> 1
  }

  function Mix(a: bv32, b: bv32): bv32 {
    a ^ b
  }

  /** The `n` low bits of a uint32_t, lowest first. */
  function Bits(c: bv32, n: nat): (bits: seq<bool>)
    ensures |bits| == n
    decreases n
  {
    if n == 0 then [] else [Low(c)] + Bits(Half(c), n - 1)
  }

  /** The register as a list of bits. */
  function Register(c: bv32): Word {
    Bits(c, 32)
  }

  /** c >> n */
  function Down(c: bv32, n: nat): bv32
    decreases n
  {
    if n == 0 then c else Down(Half(c), n - 1)
  }

  /** One step of the source's inner loop. */
  function Shifted(c: bv32): bv32 {
    if c & 1 == 1 then 0xEDB88320 ^ (c >> 1) else c >> 1
  }

  function ShiftedTimes(c: bv32, n: nat): bv32
    decreases n
  {
    if n == 0 then c else ShiftedTimes(Shifted(c), n - 1)
  }

  // ------------------------------------------------------------------ numbers and bits

  lemma XorFirst(a: bv32, b: bv32)
    ensures Half(Mix(a, b)) == Mix(Half(a), Half(b)) && (Low(Mix(a, b)) <==> Low(a) != Low(b))
  {
  }

  lemma DifferenceFirst(x: bool, y: bool, a: seq<bool>, b: seq<bool>)
    requires |a| == |b|
    ensures Difference([x] + a, [y] + b) == [x != y] + Difference(a, b)
  {
  }

  lemma {:induction false} XorBits(a: bv32, b: bv32, n: nat)
    ensures Bits(Mix(a, b), n) == Difference(Bits(a, n), Bits(b, n))
    decreases n
  {
    hide Difference, Low, Half, Mix;
    if n > 0 {
      XorFirst(a, b);
      XorBits(Half(a), Half(b), n - 1);
      DifferenceFirst(Low(a), Low(b), Bits(Half(a), n - 1), Bits(Half(b), n - 1));
    } else {
      assert Bits(a, 0) == Bits(b, 0) == Bits(Mix(a, b), 0) == [];
    }
  }

  lemma XorRegister(a: bv32, b: bv32)
    ensures Register(Mix(a, b)) == Xor(Register(a), Register(b))
  {
    hide Bits, Mix;
    XorBits(a, b, 32);
  }

  lemma {:induction false} BitsAppend(c: bv32, a: nat, b: nat)
    ensures Bits(c, a + b) == Bits(c, a) + Bits(Down(c, a), b)
    decreases a
  {
    if a > 0 {
      BitsAppend(Half(c), a - 1, b);
    }
  }

  lemma {:induction false} DownAdd(c: bv32, a: nat, b: nat)
    ensures Down(c, a + b) == Down(Down(c, a), b)
    decreases a
  {
    if a > 0 {
      DownAdd(Half(c), a - 1, b);
    }
  }

  lemma FourHalves(c: bv32)
    ensures Half(Half(Half(Half(c)))) == Four(c)
  {
  }

  function Four(c: bv32): bv32 {
    c >> 4
  }

  lemma DownFour(c: bv32)
    ensures Down(c, 4) == Four(c)
  {
    FourHalves(c);
    hide Half, Four;
    assert Down(c, 4) == Down(Half(Half(c)), 2);
    assert Down(Half(Half(c)), 2) == Down(Half(Half(Half(Half(c)))), 0);
  }

  lemma EightFours(c: bv32)
    ensures Four(Four(Four(Four(Four(Four(Four(Four(c)))))))) == 0
  {
  }

  lemma {:induction false} FoursDown(c: bv32, k: nat)
    ensures Down(c, 4 * k) == Fours(c, k)
    decreases k
  {
    hide Four;
    if k > 0 {
      DownAdd(c, 4, 4 * (k - 1));
      DownFour(c);
      FoursDown(Four(c), k - 1);
    }
  }

  function Fours(c: bv32, k: nat): bv32
    decreases k
  {
    if k == 0 then c else Fours(Four(c), k - 1)
  }

  lemma AllGone(c: bv32)
    ensures Down(c, 32) == 0
  {
    EightFours(c);
    FoursDown(c, 8);
    hide Four, Down;
    assert Fours(c, 8) == Fours(Four(Four(Four(Four(c)))), 4);
  }

  lemma ShiftRegister(c: bv32)
    ensures Register(Half(c)) == ShiftRight(Register(c), 1)
  {
    AllGone(c);
    assert Down(c, 32) == Down(Half(c), 31);
    BitsAppend(Half(c), 31, 1);
    assert Bits(0, 1) == [false];
    assert Bits(c, 32)[1..] == Bits(Half(c), 31);
  }

  // ------------------------------------------------------------------- the polynomial

  /** The generator of section 3.2.9 of IEEE 802.3, by the exponents of its terms. */
  const EXPONENTS: set<int> := {32, 26, 23, 22, 16, 12, 11, 10, 8, 7, 5, 4, 2, 1, 0}

  /** The same as bits in the order of transmission, highest exponent first. */
  function Generator(): (bits: seq<bool>)
    ensures |bits| == 33
  {
    seq(33, i => 32 - i in EXPONENTS)
  }

  function BitValue(b: bool): nat {
    if b then 1 else 0
  }

  predicate Sums(d: nat, b: seq<bool>)
    requires |b| == 4
  {
    d == BitValue(b[0]) + 2 * BitValue(b[1]) + 4 * BitValue(b[2]) + 8 * BitValue(b[3])
  }

  /** A byte by its eight bits. */
  lemma ByteBitsAre(d: byte, low: seq<bool>, high: seq<bool>)
    requires |low| == |high| == 4 && Sums(d % 16, low) && Sums(d / 16, high)
    ensures BitsOf(d, 8) == low + high
  {
    hide BitsOf;
    BitsOfNatOf(low + high);
    FourBits(low + high);
    FourBits(high);
    assert (low + high)[4..] == high && high[4..] == [] && NatOf([]) == 0;
  }

  lemma FourBits(b: seq<bool>)
    requires |b| >= 4
    ensures NatOf(b) == BitValue(b[0]) + 2 * BitValue(b[1]) + 4 * BitValue(b[2]) + 8 * BitValue(b[3]) + 16 * NatOf(b[4..])
  {
    assert NatOf(b) == BitValue(b[0]) + 2 * NatOf(b[1..]);
    assert NatOf(b[1..]) == BitValue(b[1]) + 2 * NatOf(b[2..]) by { assert b[1..][1..] == b[2..]; }
    assert NatOf(b[2..]) == BitValue(b[2]) + 2 * NatOf(b[3..]) by { assert b[2..][1..] == b[3..]; }
    assert NatOf(b[3..]) == BitValue(b[3]) + 2 * NatOf(b[4..]) by { assert b[3..][1..] == b[4..]; }
  }

  lemma ByteOfGenerator(at: nat, d: byte, low: seq<bool>, high: seq<bool>)
    requires at <= 25 && |low| == |high| == 4 && Sums(d % 16, low) && Sums(d / 16, high)
    requires forall i :: 0 <= i < 4 ==> low[i] == (32 - (at + i) in EXPONENTS) && high[i] == (32 - (at + 4 + i) in EXPONENTS)
    ensures Generator()[at..at + 8] == BitsOf(d, 8)
  {
    hide BitsOf;
    ByteBitsAre(d, low, high);
    var g := Generator();
    assert g[at..at + 8] == low + high;
  }

  lemma PolyIsGenerator()
    ensures Generator() == [true] + POLY
  {
    hide BitsOf;
    ByteOfGenerator(1, 0x20, [false, false, false, false], [false, true, false, false]);
    ByteOfGenerator(9, 0x83, [true, true, false, false], [false, false, false, true]);
    ByteOfGenerator(17, 0xB8, [false, false, false, true], [true, true, false, true]);
    ByteOfGenerator(25, 0xED, [true, false, true, true], [false, true, true, true]);
    var g := Generator();
    assert g == [g[0]] + g[1..9] + g[9..17] + g[17..25] + g[25..33];
  }

  lemma LowBits(c: bv32)
    ensures Low(Half(c)) <==> c & 2 == 2
    ensures Low(Half(Half(c))) <==> c & 4 == 4
    ensures Low(Half(Half(Half(c)))) <==> c & 8 == 8
  {
  }

  lemma FourOf(c: bv32)
    ensures Bits(c, 4) == [Low(c), Low(Half(c)), Low(Half(Half(c))), Low(Half(Half(Half(c))))]
  {
    hide Low, Half;
    assert Bits(c, 4) == [Low(c)] + ([Low(Half(c))] + Bits(Half(Half(c)), 2));
    assert Bits(Half(Half(c)), 2) == [Low(Half(Half(c)))] + ([Low(Half(Half(Half(c))))] + Bits(Half(Half(Half(Half(c)))), 0));
  }

  /** The two nibbles of the low byte, and what is above it. */
  lemma LowByteBits(c: bv32, n: nat)
    ensures Bits(c, 8 + n) == Bits(c, 4) + Bits(Four(c), 4) + Bits(Four(Four(c)), n)
  {
    hide Bits, Four;
    BitsAppend(c, 4, 4 + n);
    BitsAppend(Four(c), 4, n);
    DownFour(c);
    DownFour(Four(c));
  }

  lemma Nibble(c: bv32, b: seq<bool>)
    requires |b| == 4
    requires b[0] == (c & 1 == 1) && b[1] == (c & 2 == 2) && b[2] == (c & 4 == 4) && b[3] == (c & 8 == 8)
    ensures Bits(c, 4) == b
  {
    LowBits(c);
    FourOf(c);
    assert Low(c) == (c & 1 == 1);
    hide Bits, Half, Low;
  }

  predicate NibbleIs(c: bv32, b: seq<bool>)
    requires |b| == 4
  {
    b[0] == (c & 1 == 1) && b[1] == (c & 2 == 2) && b[2] == (c & 4 == 4) && b[3] == (c & 8 == 8)
  }

  /** The same byte as a number and as the low byte of a uint32_t. */
  lemma ByteAgrees(c: bv32, d: byte, low: seq<bool>, high: seq<bool>)
    requires |low| == |high| == 4 && NibbleIs(c, low) && NibbleIs(Four(c), high)
    requires Sums(d % 16, low) && Sums(d / 16, high)
    ensures Bits(c, 8) == BitsOf(d, 8)
  {
    Nibble(c, low);
    Nibble(Four(c), high);
    hide Bits, BitsOf, Four, NibbleIs, Sums;
    ByteBitsAre(d, low, high);
    LowByteBits(c, 0);
    assert Bits(Four(Four(c)), 0) == [];
  }

  lemma ByteUp(c: bv32, n: nat)
    ensures Bits(c, 8 + n) == Bits(c, 8) + Bits(Four(Four(c)), n)
  {
    hide Bits, Four;
    LowByteBits(c, 0);
    LowByteBits(c, n);
    assert Bits(Four(Four(c)), 0) == [];
  }

  lemma PolyBytes()
    ensures Four(Four(0xEDB88320)) == 0xEDB883 && Four(Four(0xEDB883)) == 0xEDB8 && Four(Four(0xEDB8)) == 0xED
    ensures Bits(0xEDB88320, 8) == BitsOf(0x20, 8) && Bits(0xEDB883, 8) == BitsOf(0x83, 8)
    ensures Bits(0xEDB8, 8) == BitsOf(0xB8, 8) && Bits(0xED, 8) == BitsOf(0xED, 8)
  {
    hide Bits, BitsOf;
    ByteAgrees(0xEDB88320, 0x20, [false, false, false, false], [false, true, false, false]);
    ByteAgrees(0xEDB883, 0x83, [true, true, false, false], [false, false, false, true]);
    ByteAgrees(0xEDB8, 0xB8, [false, false, false, true], [true, true, false, true]);
    ByteAgrees(0xED, 0xED, [true, false, true, true], [false, true, true, true]);
  }

  lemma PolyRegister()
    ensures POLY == Register(0xEDB88320)
  {
    PolyBytes();
    hide Bits, BitsOf, Four;
    ByteUp(0xEDB88320, 24);
    ByteUp(0xEDB883, 16);
    ByteUp(0xEDB8, 8);
  }

  // ------------------------------------------------------------------------ the steps

  lemma StepRegister(c: bv32)
    ensures Step(Register(c)) == Register(Shifted(c))
  {
    PolyRegister();
    ShiftRegister(c);
    XorRegister(0xEDB88320, Half(c));
    OneShift(c);
    FirstBit(c);
    hide POLY, Register, Xor, ShiftRight, Mix, Half, Low, Shifted;
  }

  lemma FirstBit(c: bv32)
    ensures Register(c)[0] == Low(c)
  {
  }

  lemma OneShift(c: bv32)
    ensures Shifted(c) == if Low(c) then Mix(0xEDB88320, Half(c)) else Half(c)
  {
  }

  lemma {:induction false} StepsRegister(c: bv32, n: nat)
    ensures Steps(Register(c), n) == Register(ShiftedTimes(c, n))
    decreases n
  {
    hide Step, Register, Shifted;
    if n > 0 {
      StepRegister(c);
      StepsRegister(Shifted(c), n - 1);
    }
  }

  lemma OnesRegister()
    ensures ALL_ONES == Register(0xFFFF_FFFF)
  {
    OnesBytes();
    hide Bits, BitsOf, Four;
    ByteUp(0xFFFF_FFFF, 24);
    ByteUp(0xFF_FFFF, 16);
    ByteUp(0xFFFF, 8);
    var ones: seq<bool> := ALL_ONES;
    assert ones == ones[..8] + ones[8..16] + ones[16..24] + ones[24..];
  }

  lemma OnesBytes()
    ensures Four(Four(0xFFFF_FFFF)) == 0xFF_FFFF && Four(Four(0xFF_FFFF)) == 0xFFFF && Four(Four(0xFFFF)) == 0xFF
    ensures Bits(0xFFFF_FFFF, 8) == Bits(0xFF_FFFF, 8) == Bits(0xFFFF, 8) == Bits(0xFF, 8) == seq(8, _ => true)
  {
    hide Bits, BitsOf;
    var t := [true, true, true, true];
    ByteAgrees(0xFFFF_FFFF, 255, t, t);
    ByteAgrees(0xFF_FFFF, 255, t, t);
    ByteAgrees(0xFFFF, 255, t, t);
    ByteAgrees(0xFF, 255, t, t);
    ByteBitsAre(255, t, t);
    assert t + t == seq(8, _ => true);
  }

  // ------------------------------------------------------- the pattern that slips through

  /** Sent as damage, the generator leaves nothing. */
  lemma GeneratorLeavesNothing()
    ensures Feed(Zeros(32), Generator()) == Zeros(32)
  {
    PolyIsGenerator();
    FirstStep();
    hide Feed, Steps, Step, Xor, POLY, Generator;
    FeedAppend(Zeros(32), [true], POLY);
    FeedWord(Zeros(32), [true]);
    FeedWord(POLY, POLY);
    ZeroIsNeutral(Pad([true]));
    XorIsZero(POLY, POLY);
    assert Pad(POLY) == POLY;
    StepsOfZero(32);
  }

  lemma FirstStep()
    ensures Steps(Pad([true]), 1) == POLY
  {
    hide POLY;
    assert ShiftRight(Pad([true]), 1) == Zeros(32);
    assert Xor(POLY, Zeros(32)) == POLY;
    assert Steps(Step(Pad([true])), 0) == Step(Pad([true]));
  }

  /** So of all damage within 33 consecutive bits exactly one passes the check: the generator. */
  lemma LongestBurstIsGenerator(seed: byte, p: seq<byte>, q: seq<byte>, at: nat)
    requires |p| >= 4 && Accepts(seed, p) && p != q
    requires DifferOnlyWithin(ByteBits(p), ByteBits(q), at, 33)
    ensures |q| == |p|
    ensures Accepts(seed, q) <==> Difference(ByteBits(p), ByteBits(q))[at..at + 33] == Generator()
  {
    hide Feed, Accepts, ByteBits, EXPONENTS, Slip, POLY, Difference;
    GeneratorLeavesNothing();
    SlipIsTheOnlyOne(Generator());
    assert Generator()[0] by { PolyIsGenerator(); }
    assert !Zeros(33)[0];
    LongestBurstIff(seed, p, q, at);
  }

  // ----------------------------------------------------------------------- the residue

  /** The register an intact message leaves, whatever the message (Crc32.AcceptsIffResidue). */
  lemma ResidueIs()
    ensures Steps(ALL_ONES, 32) == Register(0xDEBB20E3)
  {
    OnesRegister();
    ResidueNumber();
    hide ShiftedTimes, Register, Steps;
    StepsRegister(0xFFFF_FFFF, 32);
  }

  /** A message is accepted exactly when it leaves 0xDEBB20E3, whatever its seed and length. */
  lemma AcceptsIffNumber(seed: byte, p: seq<byte>)
    requires |p| >= 4
    ensures Accepts(seed, p) <==> Feed(Register(0xFFFF_FFFF), ByteBits([seed] + p)) == Register(0xDEBB20E3)
  {
    hide Register, Feed, Steps, ByteBits, Accepts;
    OnesRegister();
    ResidueIs();
    AcceptsIffResidue(seed, p);
  }

  lemma ResidueNumber()
    ensures ShiftedTimes(0xFFFF_FFFF, 32) == 0xDEBB20E3
  {
    assert ShiftedTimes(0xFFFF_FFFF, 8) == 0x2DFD1072 && ShiftedTimes(0x2DFD1072, 8) == 0xBE26ED00;
    assert ShiftedTimes(0xBE26ED00, 8) == 0x00BE26ED && ShiftedTimes(0x00BE26ED, 8) == 0xDEBB20E3;
    hide ShiftedTimes;
    TimesAdd(0xFFFF_FFFF, 8, 24);
    TimesAdd(0x2DFD1072, 8, 16);
    TimesAdd(0xBE26ED00, 8, 8);
  }

  lemma {:induction false} TimesAdd(c: bv32, a: nat, b: nat)
    ensures ShiftedTimes(c, a + b) == ShiftedTimes(ShiftedTimes(c, a), b)
    decreases a
  {
    hide Shifted;
    if a > 0 {
      TimesAdd(Shifted(c), a - 1, b);
    }
  }

  // ------------------------------------------------------------------- the check value

  /** A byte as a uint32_t. */
  ghost predicate SameByte(d: byte, c: bv32) {
    Pad(BitsOf(d, 8)) == Register(c)
  }

  /** The digit with value `k`, in ASCII. */
  lemma DigitIs(d: byte, c: bv32, low: seq<bool>)
    requires |low| == 4 && NibbleIs(c, low) && Four(c) == 3 && Sums(d % 16, low) && d / 16 == 3
    ensures SameByte(d, c)
  {
    hide Bits, BitsOf;
    ByteAgrees(c, d, low, [true, true, false, false]);
    ByteUp(c, 24);
    assert Four(Four(c)) == 0;
    NoBits(24);
  }

  lemma {:induction false} NoBits(n: nat)
    ensures Bits(0, n) == Zeros(n)
    decreases n
  {
    if n > 0 {
      NoBits(n - 1);
      assert Zeros(n) == [false] + Zeros(n - 1);
    }
  }

  lemma OneByte(c: bv32, d: byte, e: bv32, n: bv32, rest: seq<byte>)
    requires SameByte(d, e) && n == ShiftedTimes(Mix(c, e), 8)
    ensures Feed(Register(c), ByteBits([d] + rest)) == Feed(Register(n), ByteBits(rest))
  {
    hide ShiftedTimes, Register, Steps, Feed, BitsOf, Xor, Mix;
    assert ([d] + rest)[1..] == rest;
    FeedAppend(Register(c), BitsOf(d, 8), ByteBits(rest));
    FeedWord(Register(c), BitsOf(d, 8));
    XorRegister(c, e);
    StepsRegister(Mix(c, e), 8);
  }

  /** The register from byte to byte. */
  ghost predicate Follows(cs: seq<bv32>, ds: seq<byte>, es: seq<bv32>) {
    && |cs| == |ds| + 1 && |es| == |ds|
    && forall i :: 0 <= i < |ds| ==> SameByte(ds[i], es[i]) && cs[i + 1] == ShiftedTimes(Mix(cs[i], es[i]), 8)
  }

  lemma {:induction false} FeedsThrough(cs: seq<bv32>, ds: seq<byte>, es: seq<bv32>)
    requires Follows(cs, ds, es)
    ensures Feed(Register(cs[0]), ByteBits(ds)) == Register(cs[|ds|])
    decreases |ds|
  {
    hide ShiftedTimes, Register, SameByte, Mix;
    if ds != [] {
      OneByte(cs[0], ds[0], es[0], cs[1], ds[1..]);
      assert [ds[0]] + ds[1..] == ds;
      FeedsThrough(cs[1..], ds[1..], es[1..]);
    }
  }

  lemma Digits()
    ensures SameByte(0x31, 0x31) && SameByte(0x32, 0x32) && SameByte(0x33, 0x33) && SameByte(0x34, 0x34) && SameByte(0x35, 0x35)
    ensures SameByte(0x36, 0x36) && SameByte(0x37, 0x37) && SameByte(0x38, 0x38) && SameByte(0x39, 0x39)
  {
    hide SameByte;
    DigitIs(0x31, 0x31, [true, false, false, false]);
    DigitIs(0x32, 0x32, [false, true, false, false]);
    DigitIs(0x33, 0x33, [true, true, false, false]);
    DigitIs(0x34, 0x34, [false, false, true, false]);
    DigitIs(0x35, 0x35, [true, false, true, false]);
    DigitIs(0x36, 0x36, [false, true, true, false]);
    DigitIs(0x37, 0x37, [true, true, true, false]);
    DigitIs(0x38, 0x38, [false, false, false, true]);
    DigitIs(0x39, 0x39, [true, false, false, true]);
  }

  lemma CheckRegisters()
    ensures ShiftedTimes(Mix(0xFFFF_FFFF, 0x31), 8) == 0x7C231048
    ensures ShiftedTimes(Mix(0x7C231048, 0x32), 8) == 0xB0ACBB32
    ensures ShiftedTimes(Mix(0xB0ACBB32, 0x33), 8) == 0x77B79C2D
    ensures ShiftedTimes(Mix(0x77B79C2D, 0x34), 8) == 0x641C1F5C
    ensures ShiftedTimes(Mix(0x641C1F5C, 0x35), 8) == 0x340AC5E3
    ensures ShiftedTimes(Mix(0x340AC5E3, 0x36), 8) == 0xF68D2C9E
    ensures ShiftedTimes(Mix(0xF68D2C9E, 0x37), 8) == 0xAFFC9660
    ensures ShiftedTimes(Mix(0xAFFC9660, 0x38), 8) == 0x651F2550
    ensures ShiftedTimes(Mix(0x651F2550, 0x39), 8) == 0x340BC6D9
  {
  }

  /** "123456789" */
  const DIGITS: seq<byte> := [0x31, 0x32, 0x33, 0x34, 0x35, 0x36, 0x37, 0x38, 0x39]
  const NUMBERS: seq<bv32> := [0x31, 0x32, 0x33, 0x34, 0x35, 0x36, 0x37, 0x38, 0x39]
  const REGISTERS: seq<bv32> :=
    [0xFFFF_FFFF, 0x7C231048, 0xB0ACBB32, 0x77B79C2D, 0x641C1F5C,
     0x340AC5E3, 0xF68D2C9E, 0xAFFC9660, 0x651F2550, 0x340BC6D9]

  lemma CheckFollows()
    ensures Follows(REGISTERS, DIGITS, NUMBERS)
  {
    hide ShiftedTimes, Mix, SameByte;
    Digits();
    CheckRegisters();
  }

  lemma CrcOf(cs: seq<bv32>, ds: seq<byte>, es: seq<bv32>)
    requires Follows(cs, ds, es) && ds != [] && cs[0] == 0xFFFF_FFFF
    ensures Crc(ds[0], ds[1..]) == Not(Register(cs[|ds|]))
  {
    hide Register, Feed, ByteBits, Follows;
    OnesRegister();
    FeedsThrough(cs, ds, es);
    assert [ds[0]] + ds[1..] == ds;
  }

  /** The check value of this CRC: the one of "123456789", the first digit in the seed's place. */
  lemma CheckValue()
    ensures Crc(DIGITS[0], DIGITS[1..]) == Register(0xCBF43926)
  {
    Complement(0x340BC6D9, 0xCBF43926);
    CheckFollows();
    hide Register, Follows, Crc, Not;
    CrcOf(REGISTERS, DIGITS, NUMBERS);
  }

  lemma Complement(c: bv32, n: bv32)
    requires n == Mix(c, 0xFFFF_FFFF)
    ensures Not(Register(c)) == Register(n)
  {
    hide Register, Mix;
    XorRegister(c, 0xFFFF_FFFF);
    OnesRegister();
    assert Not(Register(c)) == Xor(Register(c), ALL_ONES);
  }
}

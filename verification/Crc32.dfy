// The CRC-32 of src/main.cpp: a lazily filled 256-entry table driving a byte-at-a-time loop.
//
// The reference is the bit-serial reflected register of the IEEE 802.3 frame check sequence
// (section 3.2.9): bits enter least significant first, one `Step` each.  The table form is
// proved equal to it, and what the daemon relies on -- that a corrupted report cannot carry a
// matching trailer -- is then proved about the bit-serial form.
module Crc32 {

  type byte = x: int | 0 <= x < 256

  /** A uint32_t as its 32 bits, least significant first. */
  type Word = w: seq<bool> | |w| == 32 witness BitsOf(0, 32)

  function Zeros(n: nat): (z: seq<bool>)
    ensures |z| == n
  {
    seq(n, _ => false)
  }

  /** The `n` low bits of `v`, least significant first. */
  function BitsOf(v: nat, n: nat): (bits: seq<bool>)
    ensures |bits| == n
  {
    if n == 0 then [] else [v % 2 == 1] + BitsOf(v / 2, n - 1)
  }

  function NatOf(bits: seq<bool>): nat {
    if bits == [] then 0 else (if bits[0] then 1 else 0) + 2 * NatOf(bits[1..])
  }

  function Pad(bits: seq<bool>): Word
    requires |bits| <= 32
  {
    bits + Zeros(32 - |bits|)
  }

  function Xor(a: Word, b: Word): Word {
    seq(32, i requires 0 <= i < 32 => a[i] != b[i])
  }

  function Not(a: Word): Word {
    seq(32, i requires 0 <= i < 32 => !a[i])
  }

  function ShiftRight(a: Word, k: nat): Word
    requires k <= 32
  {
    a[k..] + Zeros(k)
  }

  // 0xEDB88320, lowest byte first.
  const POLY: Word := BitsOf(0x20, 8) + BitsOf(0x83, 8) + BitsOf(0xB8, 8) + BitsOf(0xED, 8)
  const ALL_ONES: Word := Not(Zeros(32))

  function Shift(poly: Word, c: Word): Word {
    if c[0] then Xor(poly, ShiftRight(c, 1)) else ShiftRight(c, 1)
  }

  function Unshift(poly: Word, c: Word): Word {
    if c[31] then [true] + Xor(c, poly)[..31] else [false] + c[..31]
  }

  /** One shift of the register. */
  function Step(c: Word): Word {
    Shift(POLY, c)
  }

  function Unstep(c: Word): Word {
    Unshift(POLY, c)
  }

  function Steps(c: Word, n: nat): Word
    decreases n, c
  {
    if n == 0 then c else Steps(Step(c), n - 1)
  }

  function Unsteps(c: Word, n: nat): Word
    decreases n, c
  {
    if n == 0 then c else Unstep(Unsteps(c, n - 1))
  }

  /** Feeds a stream of bits to the register, first bit first. */
  function Feed(c: Word, bits: seq<bool>): Word
    decreases |bits|
  {
    if bits == [] then c else Feed(Step(Xor(c, Pad(bits[..1]))), bits[1..])
  }

  function ByteBits(data: seq<byte>): (bits: seq<bool>)
    ensures |bits| == 8 * |data|
  {
    if data == [] then [] else BitsOf(data[0], 8) + ByteBits(data[1..])
  }

  /** The register after the seed byte and the data. */
  function Digest(seed: byte, data: seq<byte>): Word {
    Feed(ALL_ONES, ByteBits([seed] + data))
  }

  /** The reference: bit-serial CRC-32 over the seed byte followed by the data. */
  function Crc(seed: byte, data: seq<byte>): Word {
    Not(Digest(seed, data))
  }

  // ------------------------------------------------------------------- bits and numbers

  lemma {:induction false} BitsOfNatOf(bits: seq<bool>)
    ensures BitsOf(NatOf(bits), |bits|) == bits
  {
    if bits != [] {
      BitsOfNatOf(bits[1..]);
    }
  }

  /** The byte whose bits these are. */
  function ByteOf(bits: seq<bool>): (d: byte)
    requires |bits| == 8
    ensures BitsOf(d, 8) == bits
  {
    BitsOfNatOf(bits);
    NatOfBound(bits);
    assert Pow2(8) == 256;
    NatOf(bits)
  }

  function Pow2(n: nat): nat {
    if n == 0 then 1 else 2 * Pow2(n - 1)
  }

  lemma {:induction false} NatOfBound(bits: seq<bool>)
    ensures NatOf(bits) < Pow2(|bits|)
  {
    if bits != [] {
      NatOfBound(bits[1..]);
    }
  }

  lemma {:induction false} NatOfBitsOf(v: nat, n: nat)
    requires v < Pow2(n)
    ensures NatOf(BitsOf(v, n)) == v
    decreases n
  {
    if n > 0 {
      NatOfBitsOf(v / 2, n - 1);
      assert BitsOf(v, n)[1..] == BitsOf(v / 2, n - 1);
    }
  }

  // ------------------------------------------------------------- the register is linear

  lemma PolyTopBit()
    ensures POLY[31]
  {
    hide BitsOf;
    OneBitUp(0xED, 8, 7);
    OneBitUp(0x76, 7, 6);
    OneBitUp(0x3B, 6, 5);
    OneBitUp(0x1D, 5, 4);
    OneBitUp(0x0E, 4, 3);
    OneBitUp(0x07, 3, 2);
    OneBitUp(0x03, 2, 1);
    LowestBit(1, 1);
  }

  lemma OneBitUp(v: nat, n: nat, k: nat)
    requires 0 < k < n
    ensures BitsOf(v, n)[k] == BitsOf(v / 2, n - 1)[k - 1]
  {
  }

  lemma LowestBit(v: nat, n: nat)
    requires 0 < n
    ensures BitsOf(v, n)[0] == (v % 2 == 1)
  {
  }

  lemma ShiftIsLinear(poly: Word, a: Word, b: Word)
    ensures Shift(poly, Xor(a, b)) == Xor(Shift(poly, a), Shift(poly, b))
  {
    var x, y := Shift(poly, Xor(a, b)), Xor(Shift(poly, a), Shift(poly, b));
    forall i | 0 <= i < 32
      ensures x[i] == y[i]
    {
    }
  }

  lemma StepIsLinear(a: Word, b: Word)
    ensures Step(Xor(a, b)) == Xor(Step(a), Step(b))
  {
    hide Shift, Xor;
    ShiftIsLinear(POLY, a, b);
  }

  lemma ShiftIsInvertible(poly: Word, c: Word)
    requires poly[31]
    ensures Unshift(poly, Shift(poly, c)) == c
    ensures Shift(poly, Unshift(poly, c)) == c
  {
    assert ShiftRight(c, 1)[31] == false;
    assert ShiftRight(Unshift(poly, c), 1)[..31] == Unshift(poly, c)[1..];
  }

  lemma StepIsInvertible(c: Word)
    ensures Unstep(Step(c)) == c && Step(Unstep(c)) == c
  {
    PolyTopBit();
    ShiftIsInvertible(POLY, c);
  }

  lemma {:induction false} StepsIsLinear(a: Word, b: Word, n: nat)
    ensures Steps(Xor(a, b), n) == Xor(Steps(a, n), Steps(b, n))
    decreases n
  {
    hide Step, Xor;
    if n > 0 {
      StepIsLinear(a, b);
      StepsIsLinear(Step(a), Step(b), n - 1);
    }
  }

  /** Shifting the register any number of times loses nothing ... */
  lemma {:induction false} StepsIsInjective(a: Word, b: Word, n: nat)
    requires Steps(a, n) == Steps(b, n)
    ensures a == b
    decreases n
  {
    hide Step, Unstep;
    if n > 0 {
      StepsIsInjective(Step(a), Step(b), n - 1);
      StepIsInvertible(a);
      StepIsInvertible(b);
    }
  }

  /** ... and reaches every register value, so the 8-step update of one byte is a bijection. */
  lemma {:induction false} StepsIsSurjective(c: Word, n: nat)
    ensures Steps(Unsteps(c, n), n) == c
    decreases n
  {
    hide Shift, Unshift, Xor;
    if n > 0 {
      StepIsInvertible(Unsteps(c, n - 1));
      StepsIsSurjective(c, n - 1);
    }
  }

  lemma XorCancels(a: Word, b: Word, c: Word)
    requires Xor(a, c) == Xor(b, c) || Xor(c, a) == Xor(c, b)
    ensures a == b
  {
    forall i | 0 <= i < 32
      ensures a[i] == b[i]
    {
      assert Xor(a, c)[i] == (a[i] != c[i]) && Xor(b, c)[i] == (b[i] != c[i]);
      assert Xor(c, a)[i] == (c[i] != a[i]) && Xor(c, b)[i] == (c[i] != b[i]);
    }
  }

  /** The same bits fed to two different registers leave two different registers. */
  lemma {:induction false} FeedIsInjective(a: Word, b: Word, bits: seq<bool>)
    requires Feed(a, bits) == Feed(b, bits)
    ensures a == b
    decreases |bits|
  {
    hide Shift, Unshift, Xor;
    if bits != [] {
      var first := Pad(bits[..1]);
      FeedIsInjective(Step(Xor(a, first)), Step(Xor(b, first)), bits[1..]);
      StepIsInvertible(Xor(a, first));
      StepIsInvertible(Xor(b, first));
      XorCancels(a, b, first);
    }
  }

  // ----------------------------------------------------------- bits against whole words

  /** Up to 32 bits fed one by one are the same as mixing them in at once and shifting. */
  lemma {:induction false} FeedWord(c: Word, bits: seq<bool>)
    requires |bits| <= 32
    ensures Feed(c, bits) == Steps(Xor(c, Pad(bits)), |bits|)
    decreases |bits|
  {
    hide Step, Xor;
    if bits == [] {
      PadNothing(c);
    } else {
      var first := Pad(bits[..1]);
      var rest: Word := [false] + Pad(bits[1..])[..31];
      SplitFirst(c, bits);
      StepIsLinear(Xor(c, first), rest);
      ShiftedDown(bits[1..]);
      FeedWord(Step(Xor(c, first)), bits[1..]);
    }
  }

  lemma PadNothing(c: Word)
    ensures Xor(c, Pad([])) == c
  {
  }

  lemma SplitFirst(c: Word, bits: seq<bool>)
    requires 0 < |bits| <= 32
    ensures Xor(c, Pad(bits)) == Xor(Xor(c, Pad(bits[..1])), [false] + Pad(bits[1..])[..31])
  {
  }

  lemma ShiftedDown(bits: seq<bool>)
    requires |bits| < 32
    ensures Step([false] + Pad(bits)[..31]) == Pad(bits)
  {
  }

  lemma {:induction false} FeedAppend(c: Word, a: seq<bool>, b: seq<bool>)
    ensures Feed(c, a + b) == Feed(Feed(c, a), b)
    decreases |a|
  {
    hide Shift, Unshift, Xor;
    if a == [] {
      assert a + b == b;
    } else {
      assert (a + b)[1..] == a[1..] + b;
      assert (a + b)[..1] == a[..1];
      FeedAppend(Step(Xor(c, Pad(a[..1]))), a[1..], b);
    }
  }

  lemma {:induction false} ByteBitsAppend(a: seq<byte>, b: seq<byte>)
    ensures ByteBits(a + b) == ByteBits(a) + ByteBits(b)
  {
    if a == [] {
      assert a + b == b;
    } else {
      assert (a + b)[1..] == a[1..] + b;
      ByteBitsAppend(a[1..], b);
    }
  }

  lemma {:induction false} ByteBitsInjective(a: seq<byte>, b: seq<byte>)
    requires |a| == |b| && ByteBits(a) == ByteBits(b)
    ensures a == b
  {
    if a != [] {
      assert ByteBits(a)[..8] == BitsOf(a[0], 8) && ByteBits(b)[..8] == BitsOf(b[0], 8);
      assert ByteBits(a)[8..] == ByteBits(a[1..]) && ByteBits(b)[8..] == ByteBits(b[1..]);
      assert Pow2(8) == 256;
      NatOfBitsOf(a[0], 8);
      NatOfBitsOf(b[0], 8);
      ByteBitsInjective(a[1..], b[1..]);
    }
  }

  // --------------------------------------------------------------------- the table form

  /** The value the source computes for one table slot. */
  function TableEntry(i: byte): Word {
    Steps(Pad(BitsOf(i, 8)), 8)
  }

  function LowByte(c: Word): byte {
    ByteOf(c[..8])
  }

  function TableUpdate(c: Word, d: byte): Word {
    Xor(TableEntry(LowByte(Xor(c, Pad(BitsOf(d, 8))))), ShiftRight(c, 8))
  }

  lemma {:induction false} ShiftedOut(c: Word, k: nat)
    requires k <= 32 && c[..k] == Zeros(k)
    ensures Steps(c, k) == ShiftRight(c, k)
    decreases k
  {
    if k > 0 {
      assert !c[0] by { assert c[..k][0] == false; }
      assert Step(c)[..k - 1] == c[..k][1..];
      ShiftedOut(Step(c), k - 1);
      assert ShiftRight(c, k) == ShiftRight(ShiftRight(c, 1), k - 1);
    } else {
      assert ShiftRight(c, 0) == c;
    }
  }

  lemma SplitLow(c: Word, bits: seq<bool>)
    requires |bits| == 8
    ensures var x := Xor(c, Pad(bits)); var low, high: Word := Pad(x[..8]), Zeros(8) + x[8..];
      x == Xor(low, high) && ShiftRight(high, 8) == ShiftRight(c, 8)
  {
  }

  /** One table lookup does the work of eight register steps. */
  lemma TableUpdateIsEightSteps(c: Word, d: byte)
    ensures TableUpdate(c, d) == Feed(c, BitsOf(d, 8))
  {
    hide Steps, Step, Feed, BitsOf, ByteOf, Xor;
    var x := Xor(c, Pad(BitsOf(d, 8)));
    var low, high: Word := Pad(x[..8]), Zeros(8) + x[8..];
    FeedWord(c, BitsOf(d, 8));
    SplitLow(c, BitsOf(d, 8));
    StepsIsLinear(low, high, 8);
    ShiftedOut(high, 8);
  }

  /** ... so one turn of the loop consumes one byte of what is left. */
  lemma TableUpdateConsumes(c: Word, data: seq<byte>)
    requires data != []
    ensures Feed(TableUpdate(c, data[0]), ByteBits(data[1..])) == Feed(c, ByteBits(data))
  {
    TableUpdateIsEightSteps(c, data[0]);
    FeedAppend(c, BitsOf(data[0], 8), ByteBits(data[1..]));
  }

  /** The function-local statics of `calculate_crc32`. */
  class CrcTable {
    const table: array<Word>
    var initialized: bool

    ghost predicate Valid()
      reads this, table
    {
      table.Length == 256 && (initialized ==> forall i :: 0 <= i < 256 ==> table[i] == TableEntry(i))
    }

    constructor ()
      ensures Valid() && fresh(table) && !initialized
    {
      table := new Word[256](_ => Zeros(32));
      initialized := false;
    }

    method Initialize()
      requires Valid() && !initialized
      modifies this, table
      ensures Valid() && initialized
    {
      hide BitsOf, Xor, ShiftRight;
      for i := 0 to 256
        invariant table.Length == 256
        invariant forall k :: 0 <= k < i ==> table[k] == TableEntry(k)
      {
        var c := Pad(BitsOf(i, 8));
        for j := 0 to 8
          invariant Steps(c, 8 - j) == TableEntry(i)
        {
          if c[0] {
            c := Xor(POLY, ShiftRight(c, 1));
          } else {
            c := ShiftRight(c, 1);
          }
        }
        table[i] := c;
      }
      initialized := true;
    }

    method Calculate(seed: byte, data: seq<byte>) returns (crc: Word)
      requires Valid()
      modifies this, table
      ensures Valid() && initialized
      ensures crc == Crc(seed, data)
    {
      if !initialized {
        Initialize();
      }
      crc := ALL_ONES;
      crc := Xor(table[LowByte(Xor(crc, Pad(BitsOf(seed, 8))))], ShiftRight(crc, 8));
      TableUpdateConsumes(ALL_ONES, [seed] + data);
      assert ([seed] + data)[1..] == data;
      for i := 0 to |data|
        invariant Valid() && initialized
        invariant Feed(crc, ByteBits(data[i..])) == Digest(seed, data)
      {
        TableUpdateConsumes(crc, data[i..]);
        assert data[i..][1..] == data[i + 1..];
        crc := Xor(table[LowByte(Xor(crc, Pad(BitsOf(data[i], 8))))], ShiftRight(crc, 8));
      }
      crc := Not(crc);
    }
  }

  // --------------------------------------------------------------------- error detection

  /** `a` and `b` agree everywhere outside the `n` bit positions from `at`. */
  ghost predicate DifferOnlyWithin(a: seq<bool>, b: seq<bool>, at: nat, n: nat) {
    |a| == |b| && at + n <= |a| && a[..at] == b[..at] && a[at + n..] == b[at + n..]
  }

  /** A burst of at most 32 bits always changes the register. */
  lemma BurstChangesRegister(c: Word, a: seq<bool>, b: seq<bool>, at: nat, n: nat)
    requires n <= 32 && DifferOnlyWithin(a, b, at, n)
    requires Feed(c, a) == Feed(c, b)
    ensures a == b
  {
    hide Shift, Feed, Xor, Steps;
    var before := Feed(c, a[..at]);
    var u, v := a[at..at + n], b[at..at + n];
    assert a == a[..at] + u + a[at + n..];
    assert b == b[..at] + v + b[at + n..];
    FeedAppend(c, a[..at] + u, a[at + n..]);
    FeedAppend(c, b[..at] + v, b[at + n..]);
    FeedAppend(c, a[..at], u);
    FeedAppend(c, b[..at], v);
    FeedIsInjective(Feed(before, u), Feed(before, v), a[at + n..]);
    FeedWord(before, u);
    FeedWord(before, v);
    StepsIsInjective(Xor(before, Pad(u)), Xor(before, Pad(v)), n);
    XorCancels(Pad(u), Pad(v), before);
    assert u == Pad(u)[..n] && v == Pad(v)[..n];
  }

  lemma SeedFirst(seed: byte, p: seq<byte>)
    ensures ByteBits([seed] + p) == BitsOf(seed, 8) + ByteBits(p)
  {
    assert ([seed] + p)[1..] == p;
  }

  /** Two different messages that differ only inside 32 consecutive bits have different CRCs. */
  lemma BurstDetected(seed: byte, p: seq<byte>, q: seq<byte>, at: nat, n: nat)
    requires n <= 32 && DifferOnlyWithin(ByteBits(p), ByteBits(q), at, n)
    requires p != q
    ensures Digest(seed, p) != Digest(seed, q) && Crc(seed, p) != Crc(seed, q)
  {
    var a, b := ByteBits([seed] + p), ByteBits([seed] + q);
    SeedFirst(seed, p);
    SeedFirst(seed, q);
    assert a[..8 + at] == BitsOf(seed, 8) + ByteBits(p)[..at];
    assert b[..8 + at] == BitsOf(seed, 8) + ByteBits(q)[..at];
    assert a[8 + at + n..] == ByteBits(p)[at + n..];
    assert b[8 + at + n..] == ByteBits(q)[at + n..];
    if Feed(ALL_ONES, a) == Feed(ALL_ONES, b) {
      BurstChangesRegister(ALL_ONES, a, b, 8 + at, n);
      assert ByteBits(p) == a[8..] && ByteBits(q) == b[8..];
      ByteBitsInjective(p, q);
    }
    if Crc(seed, p) == Crc(seed, q) {
      NotIsInjective(Digest(seed, p), Digest(seed, q));
    }
  }

  lemma NotIsInjective(a: Word, b: Word)
    requires Not(a) == Not(b)
    ensures a == b
  {
    forall i | 0 <= i < 32
      ensures a[i] == b[i]
    {
      assert Not(a)[i] == !a[i] && Not(b)[i] == !b[i];
    }
  }

  lemma ThreeParts(u: seq<byte>, x: seq<byte>, v: seq<byte>)
    ensures ByteBits(u + x + v) == ByteBits(u) + ByteBits(x) + ByteBits(v)
  {
    ByteBitsAppend(u + x, v);
    ByteBitsAppend(u, x);
  }

  lemma SameAround(u: seq<bool>, x: seq<bool>, y: seq<bool>, v: seq<bool>)
    requires |x| == |y|
    ensures DifferOnlyWithin(u + x + v, u + y + v, |u|, |x|)
  {
  }

  /** In bytes: differing only inside a window of at most four bytes is enough. */
  lemma ByteWindowDetected(seed: byte, p: seq<byte>, q: seq<byte>, at: nat, n: nat)
    requires n <= 4 && at + n <= |p| == |q| && p != q
    requires forall i :: 0 <= i < |p| && !(at <= i < at + n) ==> p[i] == q[i]
    ensures Crc(seed, p) != Crc(seed, q)
  {
    hide Crc, ByteBits, DifferOnlyWithin;
    var u, x, y, v := p[..at], p[at..at + n], q[at..at + n], p[at + n..];
    assert p == u + x + v && q == u + y + v;
    ThreeParts(u, x, v);
    ThreeParts(u, y, v);
    SameAround(ByteBits(u), ByteBits(x), ByteBits(y), ByteBits(v));
    BurstDetected(seed, p, q, 8 * at, 8 * n);
  }

  // ------------------------------------------------------- messages carrying their own CRC

  /** A word as four bytes, lowest first: how the trailer is stored and read back. */
  function Trailer(w: Word): (t: seq<byte>)
    ensures |t| == 4 && ByteBits(t) == w
  {
    TrailerBits(w);
    [WordByte(w, 0), WordByte(w, 8), WordByte(w, 16), WordByte(w, 24)]
  }

  lemma TrailerBits(w: Word)
    ensures ByteBits([WordByte(w, 0), WordByte(w, 8), WordByte(w, 16), WordByte(w, 24)]) == w
  {
    hide ByteBits, BitsOf, WordByte;
    ByteBitsOfFour(WordByte(w, 0), WordByte(w, 8), WordByte(w, 16), WordByte(w, 24));
    assert w == w[..8] + w[8..16] + w[16..24] + w[24..];
  }

  function WordByte(w: Word, k: nat): (d: byte)
    requires k <= 24
    ensures BitsOf(d, 8) == w[k..k + 8]
  {
    ByteOf(w[k..k + 8])
  }

  lemma ByteBitsOfFour(a: byte, b: byte, c: byte, d: byte)
    ensures ByteBits([a, b, c, d]) == BitsOf(a, 8) + BitsOf(b, 8) + BitsOf(c, 8) + BitsOf(d, 8)
  {
    assert [a, b, c, d] == [a, b] + [c, d];
    ByteBitsAppend([a, b], [c, d]);
    ByteBitsOfTwo(a, b);
    ByteBitsOfTwo(c, d);
  }

  lemma ByteBitsOfTwo(a: byte, b: byte)
    ensures ByteBits([a, b]) == BitsOf(a, 8) + BitsOf(b, 8)
  {
    assert [a, b][1..] == [b];
    assert ByteBits([b]) == BitsOf(b, 8) + ByteBits([]);
  }

  lemma XorIsAllOnes(d: Word, w: Word)
    ensures Xor(d, w) == ALL_ONES <==> w == Not(d)
  {
    if Xor(d, w) == ALL_ONES {
      forall i | 0 <= i < 32
        ensures w[i] == Not(d)[i]
      {
        assert ALL_ONES[i] && Xor(d, w)[i] == (d[i] != w[i]);
      }
    }
  }

  /** The last four bytes of `p` are the CRC of everything before them. */
  predicate Accepts(seed: byte, p: seq<byte>)
    requires |p| >= 4
  {
    ByteBits(p[|p| - 4..]) == Crc(seed, p[..|p| - 4])
  }

  /** A message is accepted exactly when feeding it, trailer included, leaves one fixed value. */
  lemma AcceptsIffResidue(seed: byte, p: seq<byte>)
    requires |p| >= 4
    ensures Accepts(seed, p) <==> Digest(seed, p) == Steps(ALL_ONES, 32)
  {
    var body, tail := p[..|p| - 4], p[|p| - 4..];
    var d, w: Word := Digest(seed, body), ByteBits(tail);
    assert [seed] + p == ([seed] + body) + tail;
    ByteBitsAppend([seed] + body, tail);
    FeedAppend(ALL_ONES, ByteBits([seed] + body), w);
    FeedWord(d, w);
    assert Pad(w) == w;
    XorIsAllOnes(d, w);
    if Steps(Xor(d, w), 32) == Steps(ALL_ONES, 32) {
      StepsIsInjective(Xor(d, w), ALL_ONES, 32);
    }
  }

  /** Corruption confined to 32 consecutive bits -- of the body, of the trailer, or straddling
      them -- never passes the check. */
  lemma CorruptedMessageRejected(seed: byte, p: seq<byte>, q: seq<byte>, at: nat, n: nat)
    requires |p| >= 4 && Accepts(seed, p) && p != q
    requires n <= 32 && DifferOnlyWithin(ByteBits(p), ByteBits(q), at, n)
    ensures |q| == |p| && !Accepts(seed, q)
  {
    AcceptsIffResidue(seed, p);
    AcceptsIffResidue(seed, q);
    BurstDetected(seed, p, q, at, n);
  }

  // ------------------------------------------------------------------- what slips through

  /** The bits in which two streams differ. */
  function Difference(a: seq<bool>, b: seq<bool>): (d: seq<bool>)
    requires |a| == |b|
    ensures |d| == |a|
  {
    seq(|a|, i requires 0 <= i < |a| => a[i] != b[i])
  }

  lemma XorExchange(a: Word, b: Word, x: Word, y: Word)
    ensures Xor(Xor(a, b), Xor(x, y)) == Xor(Xor(a, x), Xor(b, y))
  {
  }

  lemma XorIsZero(a: Word, b: Word)
    ensures Xor(a, b) == Zeros(32) <==> a == b
  {
    if Xor(a, b) == Zeros(32) {
      forall i | 0 <= i < 32
        ensures a[i] == b[i]
      {
        assert Xor(a, b)[i] == (a[i] != b[i]) && !Zeros(32)[i];
      }
    }
  }

  /** What two streams leave differs by what their difference leaves. */
  lemma {:induction false} FeedIsLinear(a: Word, b: Word, x: seq<bool>, y: seq<bool>)
    requires |x| == |y|
    ensures Feed(Xor(a, b), Difference(x, y)) == Xor(Feed(a, x), Feed(b, y))
    decreases |x|
  {
    hide Step, Xor;
    if x != [] {
      var p, q := Pad(x[..1]), Pad(y[..1]);
      assert Difference(x, y)[1..] == Difference(x[1..], y[1..]);
      FirstDiffers(x, y);
      XorExchange(a, b, p, q);
      StepIsLinear(Xor(a, p), Xor(b, q));
      FeedIsLinear(Step(Xor(a, p)), Step(Xor(b, q)), x[1..], y[1..]);
    }
  }

  lemma FirstDiffers(x: seq<bool>, y: seq<bool>)
    requires |x| == |y| > 0
    ensures Pad(Difference(x, y)[..1]) == Xor(Pad(x[..1]), Pad(y[..1]))
  {
  }

  /** Which damage goes unnoticed: exactly that whose bits, fed to the zero register, leave zero.
      It depends neither on the seed nor on the message. */
  lemma UnnoticedIff(seed: byte, p: seq<byte>, q: seq<byte>)
    requires |q| == |p| >= 4 && Accepts(seed, p)
    ensures Accepts(seed, q) <==> Feed(Zeros(32), Difference(ByteBits(p), ByteBits(q))) == Zeros(32)
  {
    hide Accepts, Feed, Xor, ByteBits, BitsOf;
    var c := Feed(ALL_ONES, BitsOf(seed, 8));
    AcceptsIffResidue(seed, p);
    AcceptsIffResidue(seed, q);
    SeedFirst(seed, p);
    SeedFirst(seed, q);
    FeedAppend(ALL_ONES, BitsOf(seed, 8), ByteBits(p));
    FeedAppend(ALL_ONES, BitsOf(seed, 8), ByteBits(q));
    FeedIsLinear(c, c, ByteBits(p), ByteBits(q));
    XorIsZero(c, c);
    XorIsZero(Digest(seed, p), Digest(seed, q));
  }

  lemma {:induction false} ZerosLeaveZero(n: nat)
    ensures Feed(Zeros(32), Zeros(n)) == Zeros(32)
    decreases n
  {
    if n > 0 {
      assert Pad(Zeros(n)[..1]) == Zeros(32) && Zeros(n)[1..] == Zeros(n - 1);
      ZeroIsNeutral(Zeros(32));
      ZeroStays();
      ZerosLeaveZero(n - 1);
    }
  }

  /** Unchanged bits around the damage make no difference. */
  lemma OnlyTheBurstCounts(before: nat, bits: seq<bool>, after: nat)
    ensures Feed(Zeros(32), Zeros(before) + bits + Zeros(after)) == Zeros(32) <==> Feed(Zeros(32), bits) == Zeros(32)
  {
    hide Feed;
    FeedAppend(Zeros(32), Zeros(before) + bits, Zeros(after));
    FeedAppend(Zeros(32), Zeros(before), bits);
    ZerosLeaveZero(before);
    ZerosLeaveZero(after);
    if Feed(Zeros(32), Zeros(before) + bits + Zeros(after)) == Zeros(32) {
      FeedIsInjective(Feed(Zeros(32), bits), Zeros(32), Zeros(after));
    }
  }

  /** The one pattern of 33 bits that leaves nothing. */
  function Slip(): (bits: seq<bool>)
    ensures |bits| == 33
  {
    Unsteps(Pad([true]), 32) + [true]
  }

  lemma LastBit(w: Word, last: bool)
    ensures Feed(Zeros(32), w + [last]) == Zeros(32) <==> Steps(w, 32) == Pad([last])
  {
    hide Steps, Step, Xor;
    FeedAppend(Zeros(32), w, [last]);
    FeedWord(Zeros(32), w);
    assert Pad(w) == w;
    ZeroIsNeutral(w);
    FeedWord(Steps(w, 32), [last]);
    OneStep(Xor(Steps(w, 32), Pad([last])));
    XorIsZero(Steps(w, 32), Pad([last]));
  }

  lemma ZeroIsNeutral(w: Word)
    ensures Xor(Zeros(32), w) == w
  {
  }

  lemma OneStep(c: Word)
    ensures Steps(c, 1) == Zeros(32) <==> c == Zeros(32)
  {
    hide Step;
    ZeroStays();
    assert Steps(c, 1) == Steps(Step(c), 0) && Steps(Zeros(32), 1) == Steps(Step(Zeros(32)), 0);
    if Steps(c, 1) == Zeros(32) {
      StepsIsInjective(c, Zeros(32), 1);
    }
  }

  lemma SlipIsTheOnlyOne(bits: seq<bool>)
    requires |bits| == 33
    ensures Feed(Zeros(32), bits) == Zeros(32) <==> bits == Slip() || bits == Zeros(33)
  {
    hide Feed, Steps, Unsteps;
    var w: Word, last := bits[..32], bits[32];
    assert bits == w + [last];
    LastBit(w, last);
    var goal := if last then Pad([true]) else Zeros(32);
    assert Pad([last]) == goal;
    StepsIsSurjective(Pad([true]), 32);
    StepsOfZero(32);
    if Steps(w, 32) == goal {
      StepsIsInjective(w, if last then Unsteps(Pad([true]), 32) else Zeros(32), 32);
      assert Zeros(33) == Zeros(32) + [false];
    }
    if bits == Zeros(33) {
      assert w == Zeros(32) && !last;
    }
  }

  lemma {:induction false} StepsOfZero(n: nat)
    ensures Steps(Zeros(32), n) == Zeros(32)
    decreases n
  {
    hide Step;
    if n > 0 {
      ZeroStays();
      StepsOfZero(n - 1);
    }
  }

  lemma ZeroStays()
    ensures Step(Zeros(32)) == Zeros(32)
  {
    hide BitsOf;
  }

  /** 32 bits is the whole of the guarantee: of all damage within 33 consecutive bits, exactly
      one pattern passes the check, wherever it falls and whatever the message. */
  lemma LongestBurstIff(seed: byte, p: seq<byte>, q: seq<byte>, at: nat)
    requires |p| >= 4 && Accepts(seed, p) && p != q
    requires DifferOnlyWithin(ByteBits(p), ByteBits(q), at, 33)
    ensures |q| == |p|
    ensures Accepts(seed, q) <==> Difference(ByteBits(p), ByteBits(q))[at..at + 33] == Slip()
  {
    hide Feed, ByteBits, Accepts;
    var a, b := ByteBits(p), ByteBits(q);
    var d := Difference(a, b);
    var bits := d[at..at + 33];
    UnnoticedIff(seed, p, q);
    SameOutside(a, b, at, 33);
    OnlyTheBurstCounts(at, bits, |a| - at - 33);
    SlipIsTheOnlyOne(bits);
    if bits == Zeros(33) {
      SameBits(a, b, at, 33);
      ByteBitsInjective(p, q);
    }
  }

  lemma SameOutside(a: seq<bool>, b: seq<bool>, at: nat, n: nat)
    requires DifferOnlyWithin(a, b, at, n)
    ensures var d := Difference(a, b); d == Zeros(at) + d[at..at + n] + Zeros(|a| - at - n)
  {
    var d := Difference(a, b);
    assert forall i :: 0 <= i < at ==> a[..at][i] == b[..at][i];
    assert forall i :: at + n <= i < |a| ==> a[i] == a[at + n..][i - at - n] && b[i] == b[at + n..][i - at - n];
  }

  lemma SameBits(a: seq<bool>, b: seq<bool>, at: nat, n: nat)
    requires DifferOnlyWithin(a, b, at, n) && Difference(a, b)[at..at + n] == Zeros(n)
    ensures a == b
  {
    SameOutside(a, b, at, n);
    var d := Difference(a, b);
    assert d == Zeros(|a|);
    forall i | 0 <= i < |a|
      ensures a[i] == b[i]
    {
      assert !d[i];
    }
  }
}

/**
 * The checksum of section 8 of RFC 1952 as what it is: the remainder of a polynomial division over the field of
 * two elements. Polynomials are lists of coefficients, the highest power first.
 */
module CrcDivision {
  import opened Crc32

  /** The powers of the generator. */
  const EXPONENTS: set<nat> := { 32, 26, 23, 22, 16, 12, 11, 10, 8, 7, 5, 4, 2, 1, 0 }

  const DEGREE := 32

  /** The generator below its highest power. */
  function Generator(): (g: seq<bool>)
    ensures |g| == DEGREE
  {
    seq(DEGREE, i requires 0 <= i < DEGREE => DEGREE - 1 - i in EXPONENTS)
  }

  function Zeros(n: nat): (z: seq<bool>)
    ensures |z| == n
  {
    seq(n, i => false)
  }

  /** Sum and difference of two polynomials. */
  function Plus(a: seq<bool>, b: seq<bool>): (s: seq<bool>)
    requires |a| == |b|
    ensures |s| == |a|
  {
    seq(|a|, i requires 0 <= i < |a| => a[i] != b[i])
  }

  function Scaled(b: bool, p: seq<bool>): (r: seq<bool>)
    ensures |r| == |p|
  {
    if b then p else Zeros(|p|)
  }

  /** Long division by the generator: its multiple that cancels the leading coefficient is taken away, until the rest is short. */
  function Remainder(p: seq<bool>): (r: seq<bool>)
    requires |p| >= DEGREE
    ensures |r| == DEGREE
    decreases |p|
  {
    if |p| == DEGREE then p
    else Remainder(Plus(p[1..DEGREE + 1], Scaled(p[0], Generator())) + p[DEGREE + 1..])
  }

  predicate Bit(word: bv32, mask: bv32) { word & mask != 0 }

  function Twice(mask: bv32): bv32 { mask << 1 }

  /** `n` bits of a word, each mask twice the one before. */
  function BitsFrom(word: bv32, mask: bv32, n: nat): (bits: seq<bool>)
    ensures |bits| == n
    decreases n
  {
    if n == 0 then [] else [Bit(word, mask)] + BitsFrom(word, Twice(mask), n - 1)
  }

  /** The bits of a byte in the order they are sent: the lowest first. */
  function BitsOf(b: bv8): seq<bool> {
    BitsFrom(b as bv32, 1, 8)
  }

  function Message(data: seq<bv8>): seq<bool> {
    if |data| == 0 then [] else Message(data[..|data| - 1]) + BitsOf(data[|data| - 1])
  }

  /** The first 32 coefficients are complemented. */
  function StartNegated(p: seq<bool>): (r: seq<bool>)
    ensures |r| == |p|
  {
    seq(|p|, i requires 0 <= i < |p| => p[i] != (i < DEGREE))
  }

  function Negated(p: seq<bool>): (r: seq<bool>)
    ensures |r| == |p|
  {
    seq(|p|, i requires 0 <= i < |p| => !p[i])
  }

  /** The message times the highest power of the generator, its first 32 coefficients complemented; the remainder is complemented too. */
  function Crc(message: seq<bool>): seq<bool> {
    Negated(Remainder(StartNegated(message + Zeros(DEGREE))))
  }

  /** The bits of a checksum, the lowest first: that is the order of the powers, the highest first. */
  function Bits(r: bv32): (bits: seq<bool>)
    ensures |bits| == DEGREE
  {
    BitsFrom(r, 1, DEGREE)
  }

  // --- Division is linear, and goes on where it stopped ---

  lemma PlusOfParts(a: seq<bool>, b: seq<bool>, c: seq<bool>, d: seq<bool>)
    requires |a| == |c| && |b| == |d|
    ensures Plus(a + b, c + d) == Plus(a, c) + Plus(b, d)
  {
  }

  /** One step of the division is linear. */
  lemma ScaledOfPlus(x: bool, y: bool, a: seq<bool>, b: seq<bool>, g: seq<bool>)
    requires |a| == |b| == |g|
    ensures Plus(Plus(a, b), Scaled(x != y, g)) == Plus(Plus(a, Scaled(x, g)), Plus(b, Scaled(y, g)))
  {
  }

  lemma {:induction false} RemainderIsLinear(p: seq<bool>, q: seq<bool>)
    requires |p| == |q| >= DEGREE
    ensures Remainder(Plus(p, q)) == Plus(Remainder(p), Remainder(q))
    decreases |p|
  {
    hide Generator, Scaled;
    if |p| > DEGREE {
      var g, s := Generator(), Plus(p, q);
      var pw, qw := p[1..DEGREE + 1], q[1..DEGREE + 1];
      var pt, qt := p[DEGREE + 1..], q[DEGREE + 1..];
      assert s[1..DEGREE + 1] == Plus(pw, qw) && s[DEGREE + 1..] == Plus(pt, qt);
      ScaledOfPlus(p[0], q[0], pw, qw, g);
      var p1, q1 := Plus(pw, Scaled(p[0], g)), Plus(qw, Scaled(q[0], g));
      PlusOfParts(p1, pt, q1, qt);
      RemainderIsLinear(p1 + pt, q1 + qt);
    }
  }

  /** One coefficient more. */
  function Next(r: seq<bool>, b: bool): seq<bool>
    requires |r| == DEGREE
  {
    Plus(r[1..] + [b], Scaled(r[0], Generator()))
  }

  lemma {:induction false} RemainderSnoc(p: seq<bool>, b: bool)
    requires |p| >= DEGREE
    ensures Remainder(p + [b]) == Next(Remainder(p), b)
    decreases |p|
  {
    hide Generator, Scaled, Plus;
    var more := p + [b];
    if |p| == DEGREE {
      assert more[1..DEGREE + 1] == p[1..] + [b] && more[DEGREE + 1..] == [];
      var r := Plus(p[1..] + [b], Scaled(p[0], Generator()));
      assert r + [] == r;
    } else {
      var window := Plus(p[1..DEGREE + 1], Scaled(p[0], Generator()));
      assert more[1..DEGREE + 1] == p[1..DEGREE + 1] && more[DEGREE + 1..] == p[DEGREE + 1..] + [b];
      RemainderSnoc(window + p[DEGREE + 1..], b);
      assert window + p[DEGREE + 1..] + [b] == window + (p[DEGREE + 1..] + [b]);
    }
  }

  /** One message bit alone, with the zeros that follow it. */
  lemma {:induction false} RemainderOfOne(n: nat, b: bool)
    ensures Remainder(Zeros(n) + [b] + Zeros(DEGREE)) == Scaled(b, Generator())
  {
    hide Generator;
    var p := Zeros(n) + [b] + Zeros(DEGREE);
    if n > 0 {
      RemainderOfOne(n - 1, b);
      assert Plus(p[1..DEGREE + 1], Scaled(p[0], Generator())) + p[DEGREE + 1..] == Zeros(n - 1) + [b] + Zeros(DEGREE);
    } else {
      assert Plus(p[1..DEGREE + 1], Scaled(p[0], Generator())) + p[DEGREE + 1..] == Scaled(b, Generator());
    }
  }

  // --- The shift register divides ---

  /** What the register does with one message bit, on lists of bits. */
  function Feed(r: seq<bool>, b: bool): (later: seq<bool>)
    requires |r| == DEGREE
    ensures |later| == DEGREE
  {
    Plus(r[1..] + [false], Scaled(r[0] != b, Generator()))
  }

  /** One message bit more is one tick more. */
  lemma OneBitMore(message: seq<bool>, b: bool)
    ensures Remainder(StartNegated(message + [b] + Zeros(DEGREE)))
         == Feed(Remainder(StartNegated(message + Zeros(DEGREE))), b)
  {
    hide Remainder, Generator;
    var before := StartNegated(message + Zeros(DEGREE));
    var one := Zeros(|message|) + [b] + Zeros(DEGREE);
    assert StartNegated(message + [b] + Zeros(DEGREE)) == Plus(before + [false], one);
    RemainderIsLinear(before + [false], one);
    RemainderSnoc(before, false);
    RemainderOfOne(|message|, b);
    var r := Remainder(before);
    ScaledTwice(r[0], b, r[1..] + [false]);
  }

  lemma ScaledTwice(x: bool, y: bool, a: seq<bool>)
    requires |a| == DEGREE
    ensures Plus(Plus(a, Scaled(x, Generator())), Scaled(y, Generator())) == Plus(a, Scaled(x != y, Generator()))
  {
    hide Generator;
  }

  // --- Words and their bits ---

  lemma ShiftedBit(r: bv32, mask: bv32)
    ensures Bit(r, Twice(mask)) == Bit(Shr(r), mask)
  {
  }

  lemma {:induction false} ShiftedBits(r: bv32, mask: bv32, n: nat)
    ensures BitsFrom(r, Twice(mask), n) == BitsFrom(Shr(r), mask, n)
    decreases n
  {
    hide Bit, Shr, Twice;
    if n > 0 {
      ShiftedBit(r, mask);
      ShiftedBits(r, Twice(mask), n - 1);
    }
  }

  /** The lowest `n` bits of a word, the lowest first. */
  function LowBits(word: bv32, n: nat): (bits: seq<bool>)
    ensures |bits| == n
    decreases n
  {
    if n == 0 then [] else [Odd(word)] + LowBits(Shr(word), n - 1)
  }

  lemma LowestBit(r: bv32)
    ensures Bit(r, 1) == Odd(r)
    ensures Twice(1) == 2
  {
  }

  lemma {:induction false} BitsAreLowBits(r: bv32, n: nat)
    ensures BitsFrom(r, 1, n) == LowBits(r, n)
    decreases n
  {
    hide Bit, Shr, Odd, Twice;
    if n > 0 {
      LowestBit(r);
      ShiftedBits(r, 1, n - 1);
      BitsAreLowBits(Shr(r), n - 1);
    }
  }

  lemma {:induction false} LowBitsOfXor(a: bv32, b: bv32, n: nat)
    ensures LowBits(Xor(a, b), n) == Plus(LowBits(a, n), LowBits(b, n))
    decreases n
  {
    hide Xor, Shr, Odd;
    if n > 0 {
      OddOfXor(a, b);
      ShrOfXor(a, b);
      LowBitsOfXor(Shr(a), Shr(b), n - 1);
    }
  }

  lemma BitsOfXor(a: bv32, b: bv32)
    ensures Bits(Xor(a, b)) == Plus(Bits(a), Bits(b))
  {
    hide Xor;
    BitsAreLowBits(a, DEGREE);
    BitsAreLowBits(b, DEGREE);
    BitsAreLowBits(Xor(a, b), DEGREE);
    LowBitsOfXor(a, b, DEGREE);
  }

  lemma {:induction false} LowBitsEnd(r: bv32, n: nat)
    ensures LowBits(r, n + 1) == LowBits(r, n) + [Odd(Shifted(r, n))]
    decreases n
  {
    hide Shr, Odd;
    if n > 0 { LowBitsEnd(Shr(r), n - 1); }
  }

  function Shifted(r: bv32, n: nat): bv32
    decreases n
  {
    if n == 0 then r else Shifted(Shr(r), n - 1)
  }

  lemma FourShifts(r: bv32, quarter: bv32, n: nat)
    requires quarter == Shr(Shr(Shr(Shr(r))))
    ensures Shifted(r, n + 4) == Shifted(quarter, n)
  {
    hide Shr;
    var r2 := Shr(Shr(r));
    assert Shifted(r, n + 4) == Shifted(r2, n + 2) == Shifted(Shr(Shr(r2)), n);
  }

  lemma FourAtOnce(r: bv32)
    ensures Shr(Shr(Shr(Shr(r)))) == r >> 4
  {
  }

  lemma AllShiftedOut(r: bv32)
    ensures !Odd(Shifted(Shr(r), 31))
  {
    hide Shr, Odd, Shifted;
    var r0 := Shr(r);
    var r1 := Shr(Shr(Shr(Shr(r0))));
    var r2 := Shr(Shr(Shr(Shr(r1))));
    var r3 := Shr(Shr(Shr(Shr(r2))));
    var r4 := Shr(Shr(Shr(Shr(r3))));
    var r5 := Shr(Shr(Shr(Shr(r4))));
    var r6 := Shr(Shr(Shr(Shr(r5))));
    var r7 := Shr(Shr(Shr(Shr(r6))));
    FourShifts(r0, r1, 27);
    FourShifts(r1, r2, 23);
    FourShifts(r2, r3, 19);
    FourShifts(r3, r4, 15);
    FourShifts(r4, r5, 11);
    FourShifts(r5, r6, 7);
    FourShifts(r6, r7, 3);
    ThreeShifts(r7);
    FourAtOnce(r0);
    FourAtOnce(r1);
    FourAtOnce(r2);
    FourAtOnce(r3);
    FourAtOnce(r4);
    FourAtOnce(r5);
    FourAtOnce(r6);
    NothingLeft(r0 >> 4 >> 4 >> 4 >> 4 >> 4 >> 4 >> 4, r);
  }

  lemma ThreeShifts(r: bv32)
    ensures Shifted(r, 3) == Shr(Shr(Shr(r)))
  {
    hide Shr;
    assert Shifted(Shr(r), 2) == Shifted(Shr(Shr(r)), 1);
  }

  lemma NothingLeft(s: bv32, r: bv32)
    requires s == Shr(r) >> 4 >> 4 >> 4 >> 4 >> 4 >> 4 >> 4
    ensures !Odd(Shr(Shr(Shr(s))))
  {
  }

  lemma BitsOfShift(r: bv32)
    ensures Bits(Shr(r)) == Bits(r)[1..] + [false]
  {
    hide Shr, Odd, Shifted;
    BitsAreLowBits(r, DEGREE);
    BitsAreLowBits(Shr(r), DEGREE);
    LowBitsEnd(Shr(r), DEGREE - 1);
    AllShiftedOut(r);
  }

  lemma OneBit(r: bv32, mask: bv32, next: bv32, n: nat)
    requires next == Twice(mask)
    ensures BitsFrom(r, mask, n + 1) == [Bit(r, mask)] + BitsFrom(r, next, n)
  {
    hide Bit, Twice;
  }

  /** Four bits of a word. */
  lemma FourBits(r: bv32, m0: bv32, m1: bv32, m2: bv32, m3: bv32, m4: bv32, n: nat)
    requires m1 == Twice(m0) && m2 == Twice(m1) && m3 == Twice(m2) && m4 == Twice(m3)
    ensures BitsFrom(r, m0, n + 4) == [Bit(r, m0), Bit(r, m1), Bit(r, m2), Bit(r, m3)] + BitsFrom(r, m4, n)
  {
    hide Bit, Twice, BitsFrom;
    OneBit(r, m3, m4, n);
    OneBit(r, m2, m3, n + 1);
    OneBit(r, m1, m2, n + 2);
    OneBit(r, m0, m1, n + 3);
  }

  /** The bits of a word, four at a time. */
  lemma AllBits(r: bv32)
    ensures Bits(r)
         == [Bit(r, 0x1), Bit(r, 0x2), Bit(r, 0x4), Bit(r, 0x8)]
            + ([Bit(r, 0x10), Bit(r, 0x20), Bit(r, 0x40), Bit(r, 0x80)]
            + ([Bit(r, 0x100), Bit(r, 0x200), Bit(r, 0x400), Bit(r, 0x800)]
            + ([Bit(r, 0x1000), Bit(r, 0x2000), Bit(r, 0x4000), Bit(r, 0x8000)]
            + ([Bit(r, 0x10000), Bit(r, 0x20000), Bit(r, 0x40000), Bit(r, 0x80000)]
            + ([Bit(r, 0x100000), Bit(r, 0x200000), Bit(r, 0x400000), Bit(r, 0x800000)]
            + ([Bit(r, 0x1000000), Bit(r, 0x2000000), Bit(r, 0x4000000), Bit(r, 0x8000000)]
            + ([Bit(r, 0x10000000), Bit(r, 0x20000000), Bit(r, 0x40000000), Bit(r, 0x80000000)] + [])))))))
  {
    hide Bit, BitsFrom;
    FourBits(r, 0x1, 0x2, 0x4, 0x8, 0x10, 28);
    FourBits(r, 0x10, 0x20, 0x40, 0x80, 0x100, 24);
    FourBits(r, 0x100, 0x200, 0x400, 0x800, 0x1000, 20);
    FourBits(r, 0x1000, 0x2000, 0x4000, 0x8000, 0x10000, 16);
    FourBits(r, 0x10000, 0x20000, 0x40000, 0x80000, 0x100000, 12);
    FourBits(r, 0x100000, 0x200000, 0x400000, 0x800000, 0x1000000, 8);
    FourBits(r, 0x1000000, 0x2000000, 0x4000000, 0x8000000, 0x10000000, 4);
    FourBits(r, 0x10000000, 0x20000000, 0x40000000, 0x80000000, 0, 0);
    NoBits(r);
  }

  lemma NoBits(r: bv32)
    ensures BitsFrom(r, 0, 0) == []
  {
  }

  lemma BitsOfPolynomial()
    ensures Bits(POLYNOMIAL) == Generator()
  {
    AllBits(POLYNOMIAL);
    hide Bits;
  }

  lemma FirstBit(r: bv32)
    ensures Bits(r)[0] == Odd(r)
  {
    LowestBit(r);
  }

  /** The register takes in one message bit as its list of bits does. */
  lemma ClockFeeds(r: bv32, b: bool)
    ensures Bits(Clock(r, b)) == Feed(Bits(r), b)
  {
    hide Bits, Generator, Xor, Shr, Odd;
    FirstBit(r);
    BitsOfShift(r);
    BitsOfXor(POLYNOMIAL, Shr(r));
    BitsOfPolynomial();
    PlusCommutes(Generator(), Bits(Shr(r)));
    PlusNothing(Bits(Shr(r)));
  }

  lemma PlusCommutes(a: seq<bool>, b: seq<bool>)
    requires |a| == |b|
    ensures Plus(a, b) == Plus(b, a)
  {
  }

  lemma PlusNothing(a: seq<bool>)
    ensures Plus(a, Zeros(|a|)) == a
  {
  }

  // --- The checksum is the division ---

  /** A register that holds the remainder of what has been sent. */
  ghost predicate Holds(r: bv32, message: seq<bool>) {
    Bits(r) == Remainder(StartNegated(message + Zeros(DEGREE)))
  }

  lemma ClockHolds(r: bv32, message: seq<bool>, b: bool)
    requires Holds(r, message)
    ensures Holds(Clock(r, b), message + [b])
  {
    hide Bits, Remainder, Feed, Clock;
    ClockFeeds(r, b);
    OneBitMore(message, b);
  }

  lemma {:induction false} ClockBitsHolds(r: bv32, message: seq<bool>, word: bv32, n: nat)
    requires Holds(r, message)
    ensures Holds(ClockBits(r, word, n), message + LowBits(word, n))
    decreases n
  {
    hide Holds, Clock, Shr, Odd;
    if n == 0 {
      assert message + [] == message;
    } else {
      ClockHolds(r, message, Odd(word));
      ClockBitsHolds(Clock(r, Odd(word)), message + [Odd(word)], Shr(word), n - 1);
      assert message + [Odd(word)] + LowBits(Shr(word), n - 1) == message + LowBits(word, n);
    }
  }

  lemma {:induction false} RegisterHolds(data: seq<bv8>)
    ensures Holds(ClockAll(0xffffffff, data), Message(data))
  {
    hide Holds, ClockBits;
    if |data| == 0 {
      StartHolds();
    } else {
      var init, b := data[..|data| - 1], data[|data| - 1];
      RegisterHolds(init);
      ClockBitsHolds(ClockAll(0xffffffff, init), Message(init), b as bv32, 8);
      BitsAreLowBits(b as bv32, 8);
    }
  }

  lemma StartHolds()
    ensures Holds(0xffffffff, [])
  {
    OnesAreTrue();
    hide Bits;
    assert [] + Zeros(DEGREE) == Zeros(DEGREE);
    assert StartNegated(Zeros(DEGREE)) == seq(DEGREE, i => true);
  }

  lemma OnesAreTrue()
    ensures Bits(0xffffffff) == seq(DEGREE, i => true)
  {
    AllBits(0xffffffff);
    hide Bits;
  }

  lemma ComplementStarts()
    ensures Complement(0) == 0xffffffff
  {
  }

  lemma BitsOfComplement(r: bv32)
    ensures Bits(Complement(r)) == Negated(Bits(r))
  {
    hide Bits, Complement, Xor;
    AllOnes(r);
    OnesAreTrue();
    BitsOfXor(r, 0xffffffff);
    OnesNegate(Bits(r));
  }

  lemma AllOnes(r: bv32)
    ensures Complement(r) == Xor(r, 0xffffffff)
  {
  }

  lemma OnesNegate(p: seq<bool>)
    requires |p| == DEGREE
    ensures Plus(p, seq(DEGREE, i => true)) == Negated(p)
  {
  }

  /** The checksum of any bytes is the remainder of their division, bit by bit. */
  lemma ChecksumDivides(data: seq<bv8>)
    ensures Bits(Checksum(data, 0)) == Crc(Message(data))
  {
    hide Bits, Complement, ClockAll, Remainder, Negated, StartNegated;
    ComplementStarts();
    RegisterHolds(data);
    BitsOfComplement(ClockAll(0xffffffff, data));
  }
}

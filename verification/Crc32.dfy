/** CRC-32 (cli/zip.ts): the table, the table-driven loop, and the shift register both stand for. */
module Crc32 {

  const POLYNOMIAL: bv32 := 0xEDB88320

  // Words, as far as the proofs look into them: three operations and their laws.

  function Xor(a: bv32, b: bv32): bv32 { a ^ b }

  function Shr(a: bv32): bv32 { a >> 1 }

  predicate Odd(a: bv32) { a & 1 == 1 }

  lemma XorAssociates(a: bv32, b: bv32, c: bv32)
    ensures Xor(Xor(a, b), c) == Xor(a, Xor(b, c))
  {
  }

  lemma XorCommutes(a: bv32, b: bv32)
    ensures Xor(a, b) == Xor(b, a)
  {
  }

  lemma XorCancels(a: bv32, b: bv32)
    ensures Xor(a, Xor(a, b)) == b
    ensures Xor(a, 0) == a
  {
  }

  lemma ShrOfXor(a: bv32, b: bv32)
    ensures Shr(Xor(a, b)) == Xor(Shr(a), Shr(b))
  {
  }

  lemma OddOfXor(a: bv32, b: bv32)
    ensures Odd(Xor(a, b)) <==> Odd(a) != Odd(b)
  {
    assert (a ^ b) & 1 == (a & 1) ^ (b & 1);
    assert (a & 1 == 0 || a & 1 == 1) && (b & 1 == 0 || b & 1 == 1);
  }

  // --- The definition: a reflected shift register, clocked once for every message bit ---

  /** One message bit enters the register (section 8 of RFC 1952: least significant bit first). */
  function Clock(register: bv32, bit: bool): bv32 {
    if Odd(register) != bit then Xor(POLYNOMIAL, Shr(register)) else Shr(register)
  }

  /** The lowest `n` bits of `message`, lowest first. */
  function ClockBits(register: bv32, message: bv32, n: nat): bv32
    decreases n
  {
    if n == 0 then register else ClockBits(Clock(register, Odd(message)), Shr(message), n - 1)
  }

  function ClockAll(register: bv32, data: seq<bv8>): bv32 {
    if |data| == 0 then register
    else ClockBits(ClockAll(register, data[..|data| - 1]), data[|data| - 1] as bv32, 8)
  }

  function Complement(a: bv32): bv32 { !a }

  lemma ComplementTwice(a: bv32)
    ensures Complement(Complement(a)) == a
  {
  }

  /** The checksum of `data` continued from `seed`: the register is complemented on the way in and out. */
  function Checksum(data: seq<bv8>, seed: bv32): bv32 {
    Complement(ClockAll(Complement(seed), data))
  }

  // --- The table ---

  /** One turn of the inner loop that fills the table. */
  function Fold(c: bv32): bv32 {
    if Odd(c) then Xor(POLYNOMIAL, Shr(c)) else Shr(c)
  }

  function FoldTimes(c: bv32, n: nat): bv32
    decreases n
  {
    if n == 0 then c else FoldTimes(Fold(c), n - 1)
  }

  function ShiftOut(c: bv32, n: nat): bv32
    decreases n
  {
    if n == 0 then c else ShiftOut(Shr(c), n - 1)
  }

  /** The `n` lowest bits are clear. */
  predicate LowClear(c: bv32, n: nat)
    decreases n
  {
    n == 0 || (!Odd(c) && LowClear(Shr(c), n - 1))
  }

  /** Folding is linear over exclusive or. */
  lemma FoldLinear(u: bv32, v: bv32)
    ensures Fold(Xor(u, v)) == Xor(Fold(u), Fold(v))
  {
    hide Xor, Shr, Odd;
    OddOfXor(u, v);
    ShrOfXor(u, v);
    var a, b := Shr(u), Shr(v);
    if Odd(u) {
      XorAssociates(POLYNOMIAL, a, b);
      if Odd(v) {
        XorAssociates(POLYNOMIAL, a, Xor(POLYNOMIAL, b));
        XorAssociates(a, POLYNOMIAL, b);
        XorCommutes(a, POLYNOMIAL);
        XorAssociates(POLYNOMIAL, a, b);
        XorCancels(POLYNOMIAL, Xor(a, b));
      }
    } else if Odd(v) {
      XorAssociates(a, POLYNOMIAL, b);
      XorCommutes(a, POLYNOMIAL);
      XorAssociates(POLYNOMIAL, a, b);
    }
  }

  lemma {:induction false} FoldTimesLinear(u: bv32, v: bv32, n: nat)
    ensures FoldTimes(Xor(u, v), n) == Xor(FoldTimes(u, n), FoldTimes(v, n))
    decreases n
  {
    hide Xor, Fold;
    if n > 0 {
      FoldLinear(u, v);
      FoldTimesLinear(Fold(u), Fold(v), n - 1);
    }
  }

  /** Clear low bits are only shifted out. */
  lemma {:induction false} FoldTimesShifts(c: bv32, n: nat)
    requires LowClear(c, n)
    ensures FoldTimes(c, n) == ShiftOut(c, n)
    decreases n
  {
    hide Xor, Shr, Odd;
    if n > 0 {
      FoldTimesShifts(Shr(c), n - 1);
    }
  }

  /** Clocking a bit in is folding the register with the whole rest of the message mixed in. */
  lemma Tick(register: bv32, message: bv32)
    ensures Xor(Clock(register, Odd(message)), Shr(message)) == Fold(Xor(register, message))
  {
    hide Xor, Shr, Odd;
    OddOfXor(register, message);
    ShrOfXor(register, message);
    XorAssociates(POLYNOMIAL, Shr(register), Shr(message));
  }

  lemma {:induction false} ClockBitsFolds(register: bv32, message: bv32, n: nat)
    ensures Xor(ClockBits(register, message, n), ShiftOut(message, n)) == FoldTimes(Xor(register, message), n)
    decreases n
  {
    hide Xor, Shr, Odd, Clock, Fold;
    if n > 0 {
      Tick(register, message);
      ClockBitsFolds(Clock(register, Odd(message)), Shr(message), n - 1);
    }
  }

  function Shr8(a: bv32): bv32 { a >> 8 }

  function Low8(a: bv32): bv32 { a & 0xff }

  function High24(a: bv32): bv32 { a & 0xffffff00 }

  lemma EightShifts(a: bv32)
    ensures Shr(Shr(Shr(Shr(Shr(Shr(Shr(Shr(a)))))))) == Shr8(a)
  {
  }

  lemma ShiftOut8(a: bv32)
    ensures ShiftOut(a, 8) == Shr8(a)
  {
    hide Shr, Shr8;
    EightShifts(a);
    var c1 := Shr(a);
    var c2 := Shr(c1);
    var c3 := Shr(c2);
    var c4 := Shr(c3);
    assert ShiftOut(c4, 4) == Shr(Shr(Shr(Shr(c4)))) by {
      var c6 := Shr(Shr(c4));
      assert ShiftOut(c6, 2) == Shr(Shr(c6));
      assert ShiftOut(c4, 4) == ShiftOut(c6, 2);
    }
    assert ShiftOut(a, 8) == ShiftOut(c2, 6) == ShiftOut(c4, 4);
  }

  lemma Halves(a: bv32)
    ensures a == Xor(Low8(a), High24(a))
    ensures Shr8(High24(a)) == Shr8(a)
  {
  }

  lemma ByteIsLow(b: bv32)
    requires b <= 0xff
    ensures Shr8(b) == 0
  {
  }

  lemma Shr8OfXor(a: bv32, b: bv32)
    ensures Shr8(Xor(a, b)) == Xor(Shr8(a), Shr8(b))
  {
  }

  lemma HighBits(a: bv32)
    ensures
      var h := High24(a);
      && !Odd(h) && !Odd(Shr(h)) && !Odd(Shr(Shr(h))) && !Odd(Shr(Shr(Shr(h))))
      && !Odd(Shr(Shr(Shr(Shr(h))))) && !Odd(Shr(Shr(Shr(Shr(Shr(h))))))
      && !Odd(Shr(Shr(Shr(Shr(Shr(Shr(h))))))) && !Odd(Shr(Shr(Shr(Shr(Shr(Shr(Shr(h))))))))
  {
  }

  lemma HighLowClear(a: bv32)
    ensures LowClear(High24(a), 8)
  {
    hide Shr, Odd, High24;
    HighBits(a);
    var h := High24(a);
    var h4 := Shr(Shr(Shr(Shr(h))));
    assert LowClear(Shr(Shr(h4)), 2);
    assert LowClear(h4, 4);
    assert LowClear(Shr(Shr(h)), 6);
  }

  /** A table step is eight clock ticks: the low byte selects the entry, the rest is only shifted. */
  lemma TableStep(register: bv32, b: bv32)
    requires b <= 0xff
    ensures ClockBits(register, b, 8) == Xor(Shr8(register), FoldTimes(Low8(Xor(register, b)), 8))
  {
    hide Xor, Shr, Odd, Shr8, Low8, High24, ClockBits, FoldTimes, ShiftOut;
    var mixed := Xor(register, b);
    var low, high := Low8(mixed), High24(mixed);
    ClockBitsFolds(register, b, 8);
    ShiftOut8(b);
    ByteIsLow(b);
    Shr8OfXor(register, b);
    XorCancels(Shr8(register), 0);
    Halves(mixed);
    XorCancels(ClockBits(register, b, 8), 0);
    FoldTimesLinear(low, high, 8);
    HighLowClear(mixed);
    FoldTimesShifts(high, 8);
    ShiftOut8(high);
    XorCommutes(FoldTimes(low, 8), Shr8(register));
  }

  ghost predicate IsTable(table: array<bv32>)
    reads table
  {
    table.Length == 256 && forall i | 0 <= i < 256 :: table[i] == FoldTimes(i as bv32, 8)
  }

  method MakeTable() returns (table: array<bv32>)
    ensures fresh(table) && IsTable(table)
  {
    hide Fold;
    table := new bv32[256];
    var i := 0;
    while i < 256
      invariant 0 <= i <= 256
      invariant forall j | 0 <= j < i :: table[j] == FoldTimes(j as bv32, 8)
    {
      var c := i as bv32;
      var k := 0;
      while k < 8
        invariant 0 <= k <= 8
        invariant FoldTimes(c, 8 - k) == FoldTimes(i as bv32, 8)
      {
        c := Fold(c);
        k := k + 1;
      }
      table[i] := c;
      i := i + 1;
    }
  }

  lemma IndexOfLow(a: bv32)
    ensures Low8(a) as int < 256 && (Low8(a) as int) as bv32 == Low8(a)
  {
  }

  lemma WideByte(b: bv8)
    ensures b as bv32 <= 0xff
  {
  }

  /** The table-driven loop computes the shift register's checksum, from any seed. */
  method Crc32(table: array<bv32>, data: seq<bv8>, seed: bv32) returns (crc: bv32)
    requires IsTable(table)
    ensures crc == Checksum(data, seed)
  {
    hide Xor, Shr8, Low8, Complement, FoldTimes, ClockBits;
    crc := Complement(seed);
    var i := 0;
    while i < |data|
      invariant 0 <= i <= |data|
      invariant crc == ClockAll(Complement(seed), data[..i])
    {
      var b := data[i] as bv32;
      WideByte(data[i]);
      var index := Low8(Xor(crc, b));
      TableStep(crc, b);
      IndexOfLow(Xor(crc, b));
      assert data[..i + 1][..i] == data[..i];
      crc := Xor(Shr8(crc), table[index as int]);
      i := i + 1;
    }
    assert data[..|data|] == data;
    crc := Complement(crc);
  }

  lemma {:induction false} ClockAllAppends(register: bv32, a: seq<bv8>, b: seq<bv8>)
    ensures ClockAll(register, a + b) == ClockAll(ClockAll(register, a), b)
  {
    hide ClockBits;
    if |b| == 0 {
      assert a + b == a;
    } else {
      ClockAllAppends(register, a, b[..|b| - 1]);
      assert (a + b)[..|a + b| - 1] == a + b[..|b| - 1];
    }
  }

  /** Continuing from a checksum is the checksum of everything so far. */
  lemma ChecksumContinues(a: seq<bv8>, b: seq<bv8>, seed: bv32)
    ensures Checksum(b, Checksum(a, seed)) == Checksum(a + b, seed)
  {
    hide Complement, ClockAll;
    ClockAllAppends(Complement(seed), a, b);
    ComplementTwice(ClockAll(Complement(seed), a));
  }

  function Concat(pieces: seq<seq<bv8>>): seq<bv8> {
    if |pieces| == 0 then [] else Concat(pieces[..|pieces| - 1]) + pieces[|pieces| - 1]
  }

  /** The checksum of a file does not depend on how its bytes arrive. */
  method CrcOfFile(table: array<bv32>, pieces: seq<seq<bv8>>) returns (crc: bv32)
    requires IsTable(table)
    ensures crc == Checksum(Concat(pieces), 0)
  {
    crc := 0;
    ComplementTwice(0);
    var i := 0;
    while i < |pieces|
      invariant 0 <= i <= |pieces|
      invariant crc == Checksum(Concat(pieces[..i]), 0)
    {
      ghost var before := Concat(pieces[..i]);
      ChecksumContinues(before, pieces[i], 0);
      assert pieces[..i + 1][..i] == pieces[..i];
      crc := Crc32(table, pieces[i], crc);
      i := i + 1;
    }
    assert pieces[..|pieces|] == pieces;
  }
}

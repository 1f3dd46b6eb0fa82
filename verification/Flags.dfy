/** The flags register of the machine: single flags in a word, and what comparison and addition set. */
module Flags {

  type Byte = b: nat | b < 0x100
  type Word = w: nat | w < 0x10000

  const ZF := 0x40
  const IF := 0x200

  predicate FlagSet(flags: Word, bit: nat)
    requires bit > 0
  {
    flags / bit % 2 == 1
  }

  function SetFlag(flags: Word, bit: nat, on: bool): Word
    requires bit in {0x1, 0x4, 0x10, 0x40, 0x80, 0x200, 0x800}
  {
    if FlagSet(flags, bit) == on then flags
    else if on then flags + bit
    else flags - bit
  }

  function Ones(b: nat): nat { if b == 0 then 0 else b % 2 + Ones(b / 2) }

  /** The arithmetic flags other than ZF, which is set last. */
  function ArithFlags(flags: Word, carry: bool, overflow: bool, adjust: bool, result: Byte): Word {
    var f1 := SetFlag(flags, 0x1, carry);
    var f2 := SetFlag(f1, 0x4, Ones(result) % 2 == 0);
    var f3 := SetFlag(f2, 0x10, adjust);
    var f4 := SetFlag(f3, 0x80, result >= 0x80);
    var f5 := SetFlag(f4, 0x800, overflow);
    SetFlag(f5, ZF, result == 0)
  }

  function CmpFlags(flags: Word, a: Byte, b: Byte): Word {
    var result := (a - b) % 0x100;
    ArithFlags(flags, a < b, (a >= 0x80) != (b >= 0x80) && (a >= 0x80) != (result >= 0x80), a % 16 < b % 16, result)
  }

  function AddFlags(flags: Word, a: Byte, b: Byte): Word {
    var result := (a + b) % 0x100;
    var overflow := (a >= 0x80) == (b >= 0x80) && (a >= 0x80) != (result >= 0x80);
    ArithFlags(flags, a + b >= 0x100, overflow, a % 16 + b % 16 >= 16, result)
  }

  /** What the parity flag counts: no bits in zero, and one more for each bit set at the low end. */
  lemma OnesCountsBits(bit: nat, rest: nat)
    requires bit < 2
    ensures Ones(0) == 0 && Ones(bit + 2 * rest) == bit + Ones(rest)
  {
    assert (bit + 2 * rest) % 2 == bit && (bit + 2 * rest) / 2 == rest;
  }

  // ---------------------------------------------------------------- one flag at a time

  lemma Monotone(a: int, c: int, b: nat)
    requires a <= c
    ensures a * b <= c * b
  {
    assert c * b - a * b == (c - a) * b;
  }

  lemma Quotient(x: nat, b: nat, q: int, e: nat)
    requires x == q * b + e && e < b
    ensures x / b == q
  {
    var p := x / b;
    assert p * b <= x < p * b + b;
    if p < q {
      Monotone(p + 1, q, b);
    } else if p > q {
      Monotone(q + 1, p, b);
    }
  }

  /** A flag is the lowest bit of the number of whole multiples of its place. */
  lemma FlagOf(flags: Word, bit: nat, q: int, e: nat)
    requires flags == q * bit + e && e < bit
    ensures FlagSet(flags, bit) <==> q % 2 == 1
  {
    Quotient(flags, bit, q, e);
  }

  lemma Parts(flags: Word, bit: nat) returns (q: nat, e: nat)
    requires bit > 0
    ensures flags == q * bit + e && e < bit && (FlagSet(flags, bit) <==> q % 2 == 1)
  {
    q, e := flags / bit, flags % bit;
  }

  lemma Sum(q: int, k: int, b: int)
    ensures (q + k) * b == q * b + k * b
  {
  }

  /** `x` is `flags` with the value of `bit` added `n` times; -1 takes it away. */
  lemma SameFlag(flags: Word, bit: nat, x: Word, n: int)
    requires bit > 0 && -1 <= n <= 1 && x == flags + n * bit
    ensures FlagSet(x, bit) == (FlagSet(flags, bit) == (n == 0))
  {
    hide FlagSet;
    var q, e := Parts(flags, bit);
    Sum(q, n, bit);
    FlagOf(x, bit, q + n, e);
  }

  lemma Product(n: int, m: nat, b: nat)
    ensures n * ((2 * m) * b) == (2 * (n * m)) * b
  {
  }

  lemma LowerFlag(flags: Word, bit: nat, x: Word, n: int, other: nat, m: nat)
    requires other > 0 && x == flags + n * bit && bit == (2 * m) * other
    ensures FlagSet(x, other) == FlagSet(flags, other)
  {
    hide FlagSet;
    var q, e := Parts(flags, other);
    Product(n, m, other);
    Sum(q, 2 * (n * m), other);
    FlagOf(x, other, q + 2 * (n * m), e);
  }

  /** The part of a number below a place stays below it when one lower flag changes. */
  lemma Below(q: nat, r: nat, n: int, m: nat, bit: nat)
    requires r < bit && q * bit + r < (2 * m) * bit && -1 <= n <= 1
    requires n == 1 ==> q % 2 == 0
    requires n == -1 ==> q % 2 == 1
    ensures 0 <= q * bit + r + n * bit < (2 * m) * bit
  {
    if q >= 2 * m {
      Monotone(2 * m, q, bit);
    }
    Monotone(0, q + n, bit);
    Monotone(q + n, 2 * m - 1, bit);
    assert (q + n) * bit == q * bit + n * bit && (2 * m - 1) * bit == (2 * m) * bit - bit;
  }

  lemma Split(x: nat, b: nat) returns (q: nat, r: nat)
    requires b > 0
    ensures x == q * b + r && r < b
  {
    q, r := x / b, x % b;
  }

  lemma HigherFlag(flags: Word, bit: nat, x: Word, n: int, other: nat, m: nat)
    requires bit > 0 && -1 <= n <= 1 && x == flags + n * bit && other == (2 * m) * bit && m > 0
    requires n == 1 ==> !FlagSet(flags, bit)
    requires n == -1 ==> FlagSet(flags, bit)
    ensures FlagSet(x, other) == FlagSet(flags, other)
  {
    hide FlagSet;
    var d, e := Parts(flags, other);
    assert flags == d * ((2 * m) * bit) + e;
    var q, r := Split(e, bit);
    Product(d, m, bit);
    Sum(2 * (d * m), q, bit);
    FlagOf(flags, bit, 2 * (d * m) + q, r);
    Below(q, r, n, m, bit);
    FlagOf(x, other, d, e + n * bit);
  }

  lemma Ratio(low: nat, high: nat) returns (m: nat)
    requires low in {0x1, 0x4, 0x10, 0x40, 0x80, 0x200, 0x800} && high in {0x1, 0x4, 0x10, 0x40, 0x80, 0x200, 0x800}
    requires low < high
    ensures m > 0 && high == (2 * m) * low
  {
    m := high / low / 2;
  }

  /** Setting a flag sets it as told and leaves every other one alone. */
  lemma SetFlagExactly(flags: Word, bit: nat, on: bool, other: nat)
    requires bit in {0x1, 0x4, 0x10, 0x40, 0x80, 0x200, 0x800} && other in {0x1, 0x4, 0x10, 0x40, 0x80, 0x200, 0x800}
    ensures FlagSet(SetFlag(flags, bit, on), other) == if other == bit then on else FlagSet(flags, other)
  {
    hide FlagSet;
    var n := if FlagSet(flags, bit) == on then 0 else if on then 1 else -1;
    var x := SetFlag(flags, bit, on);
    if other == bit {
      SameFlag(flags, bit, x, n);
    } else if other < bit {
      var m := Ratio(other, bit);
      LowerFlag(flags, bit, x, n, other, m);
    } else {
      var m := Ratio(bit, other);
      HigherFlag(flags, bit, x, n, other, m);
    }
  }

  /** What the flags are after an operation; the others keep their values. */
  lemma ArithFlagsExactly(flags: Word, carry: bool, overflow: bool, adjust: bool, result: Byte, other: nat)
    requires other in {0x1, 0x4, 0x10, 0x40, 0x80, 0x200, 0x800}
    ensures FlagSet(ArithFlags(flags, carry, overflow, adjust, result), other) ==
              if other == 0x1 then carry
              else if other == 0x4 then Ones(result) % 2 == 0
              else if other == 0x10 then adjust
              else if other == 0x40 then result == 0
              else if other == 0x80 then result >= 0x80
              else if other == 0x800 then overflow
              else FlagSet(flags, other)
  {
    hide FlagSet, SetFlag, Ones;
    var f1 := SetFlag(flags, 0x1, carry);
    var f2 := SetFlag(f1, 0x4, Ones(result) % 2 == 0);
    var f3 := SetFlag(f2, 0x10, adjust);
    var f4 := SetFlag(f3, 0x80, result >= 0x80);
    var f5 := SetFlag(f4, 0x800, overflow);
    SetFlagExactly(flags, 0x1, carry, other);
    SetFlagExactly(f1, 0x4, Ones(result) % 2 == 0, other);
    SetFlagExactly(f2, 0x10, adjust, other);
    SetFlagExactly(f3, 0x80, result >= 0x80, other);
    SetFlagExactly(f4, 0x800, overflow, other);
    SetFlagExactly(f5, 0x40, result == 0, other);
  }

  /** A byte read as a signed number. */
  function Signed(b: Byte): int { if b < 0x80 then b else b - 0x100 }

  /**
   After a comparison: ZF says whether the operands are equal, CF which is less as unsigned numbers, and SF and OF
   together which is less as signed ones; AF is the borrow out of the low half.
   */
  lemma CmpSetsFlags(flags: Word, a: Byte, b: Byte)
    ensures var f := CmpFlags(flags, a, b);
            && (FlagSet(f, 0x40) <==> a == b)
            && (FlagSet(f, 0x1) <==> a < b)
            && (FlagSet(f, 0x80) != FlagSet(f, 0x800) <==> Signed(a) < Signed(b))
            && (FlagSet(f, 0x800) <==> !(-0x80 <= Signed(a) - Signed(b) < 0x80))
            && (FlagSet(f, 0x10) <==> a % 16 < b % 16)
            && (FlagSet(f, 0x200) <==> FlagSet(flags, 0x200))
  {
    hide FlagSet, ArithFlags, Ones;
    var result := (a - b) % 0x100;
    assert result == if a >= b then a - b else a - b + 0x100;
    forall other | other in {0x1, 0x4, 0x10, 0x40, 0x80, 0x200, 0x800}
      ensures FlagSet(CmpFlags(flags, a, b), other) ==
                if other == 0x1 then a < b
                else if other == 0x4 then Ones(result) % 2 == 0
                else if other == 0x10 then a % 16 < b % 16
                else if other == 0x40 then result == 0
                else if other == 0x80 then result >= 0x80
                else if other == 0x800 then (a >= 0x80) != (b >= 0x80) && (a >= 0x80) != (result >= 0x80)
                else FlagSet(flags, other)
    {
      ArithFlagsExactly(flags, a < b, (a >= 0x80) != (b >= 0x80) && (a >= 0x80) != (result >= 0x80), a % 16 < b % 16,
                        result, other);
    }
  }

  /** ZF after a comparison says whether the operands are equal. */
  lemma CmpSetsZf(flags: Word, a: Byte, b: Byte)
    ensures FlagSet(CmpFlags(flags, a, b), ZF) <==> a == b
  {
    hide FlagSet, CmpFlags;
    CmpSetsFlags(flags, a, b);
  }

  /**
   After an addition: CF is the carry out of the byte, OF says that the signed sum does not fit, ZF that it is zero.
   */
  lemma AddSetsFlags(flags: Word, a: Byte, b: Byte)
    ensures var f := AddFlags(flags, a, b);
            && (FlagSet(f, 0x1) <==> a + b > 0xFF)
            && (FlagSet(f, 0x800) <==> !(-0x80 <= Signed(a) + Signed(b) < 0x80))
            && (FlagSet(f, 0x40) <==> (a + b) % 0x100 == 0)
            && (FlagSet(f, 0x80) <==> Signed((a + b) % 0x100) < 0)
            && (FlagSet(f, 0x10) <==> a % 16 + b % 16 > 15)
            && (FlagSet(f, 0x200) <==> FlagSet(flags, 0x200))
  {
    hide FlagSet, ArithFlags, Ones;
    var result := (a + b) % 0x100;
    assert result == if a + b < 0x100 then a + b else a + b - 0x100;
    var overflow := (a >= 0x80) == (b >= 0x80) && (a >= 0x80) != (result >= 0x80);
    var carry, adjust := a + b >= 0x100, a % 16 + b % 16 >= 16;
    ArithFlagsExactly(flags, carry, overflow, adjust, result, 0x1);
    ArithFlagsExactly(flags, carry, overflow, adjust, result, 0x800);
    ArithFlagsExactly(flags, carry, overflow, adjust, result, 0x40);
    ArithFlagsExactly(flags, carry, overflow, adjust, result, 0x80);
    ArithFlagsExactly(flags, carry, overflow, adjust, result, 0x10);
    ArithFlagsExactly(flags, carry, overflow, adjust, result, 0x200);
  }

  /** Clearing a register with XOR clears the carry and the overflow, and says zero, not negative, even. */
  lemma ClearedSetsFlags(flags: Word)
    ensures var f := ArithFlags(flags, false, false, FlagSet(flags, 0x10), 0);
            && !FlagSet(f, 0x1) && !FlagSet(f, 0x800) && FlagSet(f, 0x40) && !FlagSet(f, 0x80) && FlagSet(f, 0x4)
            && (FlagSet(f, 0x200) <==> FlagSet(flags, 0x200))
  {
    hide FlagSet, ArithFlags;
    var adjust := FlagSet(flags, 0x10);
    ArithFlagsExactly(flags, false, false, adjust, 0, 0x1);
    ArithFlagsExactly(flags, false, false, adjust, 0, 0x800);
    ArithFlagsExactly(flags, false, false, adjust, 0, 0x40);
    ArithFlagsExactly(flags, false, false, adjust, 0, 0x80);
    ArithFlagsExactly(flags, false, false, adjust, 0, 0x4);
    ArithFlagsExactly(flags, false, false, adjust, 0, 0x200);
  }
}

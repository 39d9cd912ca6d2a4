/** Mult in machine/mipssim.cc: a 64-bit product by shift and add on 32-bit words.  Words are ints in
    their range, with every wrap-around written out. */
module Multiplier {
  import opened BitWords
  import opened Codec

  function Wrap(n: int): uint32 { n % 0x1_0000_0000 }

  lemma WrapOnce(n: nat)
    requires n < 0x2_0000_0000
    ensures Wrap(n) == if n >= 0x1_0000_0000 then n - 0x1_0000_0000 else n
  {
  }

  /** A double word as a number. */
  function Double(hi: uint32, lo: uint32): nat { hi * 0x1_0000_0000 + lo }

  /** Negation of an int, which leaves the most negative one as it is. */
  function Negated(a: int32): int32 { if a == -0x8000_0000 then a else -a }

  /** lo += x with the carry going into hi, then hi += y. */
  function AddLo(lo: uint32, x: uint32): uint32 { Wrap(lo + x) }

  function AddHi(hi: uint32, lo: uint32, x: uint32, y: uint32): uint32 {
    var carried := if AddLo(lo, x) < x then Wrap(hi + 1) else hi;
    Wrap(carried + y)
  }

  lemma AddDouble(hi: uint32, lo: uint32, y: uint32, x: uint32)
    requires Double(hi, lo) + Double(y, x) < 0x1_0000_0000_0000_0000
    ensures Double(AddHi(hi, lo, x, y), AddLo(lo, x)) == Double(hi, lo) + Double(y, x)
  {
    WrapOnce(lo + x);
    WrapOnce(hi + 1);
    WrapOnce((if AddLo(lo, x) < x then Wrap(hi + 1) else hi) + y);
  }

  /** Shifting a double word left by one. */
  function ShiftHi(hi: uint32, lo: uint32): uint32 { Wrap(2 * hi) + if lo >= 0x8000_0000 then 1 else 0 }

  function ShiftLo(lo: uint32): uint32 { Wrap(2 * lo) }

  lemma ShiftDouble(hi: uint32, lo: uint32)
    requires 2 * Double(hi, lo) < 0x1_0000_0000_0000_0000
    ensures Double(ShiftHi(hi, lo), ShiftLo(lo)) == 2 * Double(hi, lo)
  {
    WrapOnce(2 * hi);
    WrapOnce(2 * lo);
  }

  /** The two's complement of a double word, as the last lines of Mult compute it. */
  function ComplementLo(lo: uint32): uint32 { Wrap(0xFFFF_FFFF - lo + 1) }

  function ComplementHi(hi: uint32, lo: uint32): uint32 {
    if ComplementLo(lo) == 0 then Wrap(0xFFFF_FFFF - hi + 1) else 0xFFFF_FFFF - hi
  }

  lemma ComplementDouble(hi: uint32, lo: uint32)
    requires 0 < Double(hi, lo)
    ensures Double(ComplementHi(hi, lo), ComplementLo(lo)) == 0x1_0000_0000_0000_0000 - Double(hi, lo)
  {
    WrapOnce(0xFFFF_FFFF - lo + 1);
    WrapOnce(0xFFFF_FFFF - hi + 1);
  }

  /** What is left of a after i steps: its low 32 - i bits, since >> copies the sign bit. */
  function Rest(a: int32, width: nat): int
    requires width <= 32
  {
    if a >= 0 then a else a + Pow2(width)
  }

  ghost predicate InWidth(a: int, width: nat) {
    if width == 0 then -1 <= a <= 0 else -(Pow2(width - 1) as int) <= a < Pow2(width - 1)
  }

  lemma RestStep(a: int32, width: nat)
    requires 0 < width <= 32 && InWidth(a, width)
    ensures -0x8000_0000 <= a / 2 < 0x8000_0000 && InWidth(a / 2, width - 1)
    ensures Rest(a, width) == 2 * Rest(a / 2, width - 1) + a % 2
  {
  }

  lemma RestRange(a: int32, width: nat)
    requires width <= 32 && InWidth(a, width)
    ensures 0 <= Rest(a, width) < Pow2(width)
  {
  }

  /** One step of long multiplication. */
  lemma LongStep(acc: int, acc': int, rest: int, half: int, bit: int, d: int, d': int, product: int)
    requires rest == 2 * half + bit && d' == 2 * d && acc' == acc + bit * d && acc + rest * d == product
    ensures acc' + half * d' == product
  {
    assert rest * d == 2 * half * d + bit * d;
  }

  lemma RestRoom(acc: nat, rest: int, d: nat, product: int)
    requires 1 <= rest && acc + rest * d == product
    ensures acc + d <= product && (rest == 1 ==> acc + d == product)
  {
    assert rest * d == d + (rest - 1) * d;
  }

  lemma MulMono(x: nat, y: nat, z: nat)
    requires y <= z
    ensures x * y <= x * z
  {
    assert x * z == x * y + x * (z - y);
  }

  lemma ProductBound(x: nat, y: nat)
    requires x < 0x1_0000_0000 && y <= 0x1_0000_0000
    ensures x * y < 0x1_0000_0000_0000_0000
  {
    MulMono(x, y, 0x1_0000_0000);
  }

  lemma {:induction false} Pow2Mono(i: nat, j: nat)
    requires i <= j
    ensures Pow2(i) <= Pow2(j)
    decreases j
  {
    if i < j {
      Pow2Mono(i, j - 1);
    }
  }

  /** The invariant of the loop: what has been added, and what the rest of a has still to add. */
  ghost predicate Going(a: int32, hi: uint32, lo: uint32, bHi: uint32, bLo: uint32, b: uint32, i: nat, product: nat) {
    && i <= 32 && InWidth(a, 32 - i) && product < 0x1_0000_0000_0000_0000
    && Double(bHi, bLo) == b * Pow2(i)
    && Double(hi, lo) + Rest(a, 32 - i) * Double(bHi, bLo) == product
  }

  /** Adding the shifted b does not overflow. */
  lemma AddStep(a: int32, hi: uint32, lo: uint32, bHi: uint32, bLo: uint32, b: uint32, i: nat, product: nat)
    requires Going(a, hi, lo, bHi, bLo, b, i, product) && i < 32 && a % 2 == 1
    ensures Double(AddHi(hi, lo, bLo, bHi), AddLo(lo, bLo)) == Double(hi, lo) + Double(bHi, bLo)
    ensures a == 1 ==> Double(hi, lo) + Double(bHi, bLo) == product
  {
    RestStep(a, 32 - i);
    RestRange(a / 2, 31 - i);
    RestRoom(Double(hi, lo), Rest(a, 32 - i), Double(bHi, bLo), product);
    AddDouble(hi, lo, bHi, bLo);
  }

  lemma ShiftedB(bHi: uint32, bLo: uint32, b: uint32, i: nat)
    requires i < 32 && Double(bHi, bLo) == b * Pow2(i)
    ensures Double(ShiftHi(bHi, bLo), ShiftLo(bLo)) == b * Pow2(i + 1) == 2 * Double(bHi, bLo)
  {
    Pow2Of32();
    Pow2Mono(i + 1, 32);
    ProductBound(b, Pow2(i + 1));
    assert b * Pow2(i + 1) == 2 * (b * Pow2(i));
    ShiftDouble(bHi, bLo);
  }

  lemma ShiftStep(a: int32, hi: uint32, lo: uint32, hi': uint32, lo': uint32, bHi: uint32, bLo: uint32, b: uint32, i: nat, product: nat)
    requires Going(a, hi, lo, bHi, bLo, b, i, product) && i < 32
    requires Double(hi', lo') == Double(hi, lo) + a % 2 * Double(bHi, bLo)
    ensures -0x8000_0000 <= a / 2 < 0x8000_0000
    ensures Going(a / 2, hi', lo', ShiftHi(bHi, bLo), ShiftLo(bLo), b, i + 1, product)
  {
    RestStep(a, 32 - i);
    ShiftedB(bHi, bLo, b, i);
    LongStep(Double(hi, lo), Double(hi', lo'), Rest(a, 32 - i), Rest(a / 2, 31 - i), a % 2,
             Double(bHi, bLo), Double(ShiftHi(bHi, bLo), ShiftLo(bLo)), product);
  }

  lemma GoingStart(a: int32, b: uint32)
    ensures Going(a, 0, 0, 0, b, b, 0, Unsigned(a) * b)
  {
    Pow2Of32();
    ProductBound(Unsigned(a), b);
    assert 2 * Pow2(31) == Pow2(32);
  }

  lemma GoingEnd(a: int32, hi: uint32, lo: uint32, bHi: uint32, bLo: uint32, b: uint32, product: nat)
    requires Going(a, hi, lo, bHi, bLo, b, 32, product)
    ensures Double(hi, lo) == product
  {
    assert Rest(a, 0) == 0;
  }

  /** The shift-and-add loop: the product of a, read as an unsigned word, and b. */
  method Accumulate(a0: int32, b: uint32) returns (hi: uint32, lo: uint32)
    ensures Double(hi, lo) == Unsigned(a0) * b
  {
    var a: int32, bLo: uint32, bHi: uint32 := a0, b, 0;
    hi, lo := 0, 0;
    ghost var product: nat := Unsigned(a0) * b;
    GoingStart(a0, b);
    var i := 0;
    while i < 32
      invariant 0 <= i <= 32
      invariant Going(a, hi, lo, bHi, bLo, b, i, product)
    {
      ghost var hi0, lo0 := hi, lo;
      if a % 2 == 1 {
        AddStep(a, hi, lo, bHi, bLo, b, i, product);
        hi, lo := AddHi(hi, lo, bLo, bHi), AddLo(lo, bLo);
        if a == 1 {
          return;  // no bits left
        }
      }
      ShiftStep(a, hi0, lo0, hi, lo, bHi, bLo, b, i, product);
      bHi, bLo := ShiftHi(bHi, bLo), ShiftLo(bLo);
      a := a / 2;
      i := i + 1;
    }
    GoingEnd(a, hi, lo, bHi, bLo, b, product);
  }

  /** Mult: hi and lo together are the full product, of the operands as signed or as unsigned words. */
  method Mult(a0: int32, b0: int32, signedArith: bool) returns (hi: int32, lo: int32)
    ensures signedArith ==> hi * 0x1_0000_0000 + Unsigned(lo) == a0 * b0
    ensures !signedArith ==> Double(Unsigned(hi), Unsigned(lo)) == Unsigned(a0) * Unsigned(b0)
  {
    if a0 == 0 || b0 == 0 {
      return 0, 0;
    }
    var a, b, negative := a0, b0, false;
    if signedArith {
      if a < 0 {
        negative := !negative;
        a := Negated(a);
      }
      if b < 0 {
        negative := !negative;
        b := Negated(b);
      }
    }
    var h, l := Accumulate(a, Unsigned(b));
    if signedArith {
      SignedProduct(a0, b0, a, b, h, l);
    }
    if negative {
      h, l := ComplementHi(h, l), ComplementLo(l);
    }
    hi, lo := Signed(h), Signed(l);
  }

  function Magnitude(a: int): nat { if a < 0 then -a else a }

  lemma MagnitudeProduct(a: int32, b: int32)
    ensures Magnitude(a) * Magnitude(b) == if (a < 0) == (b < 0) then a * b else -(a * b)
  {
  }

  lemma MagnitudeBound(a: int32, b: int32)
    requires a != 0 && b != 0
    ensures 0 < Magnitude(a) * Magnitude(b) <= 0x4000_0000_0000_0000
  {
    MulMono(Magnitude(a), 1, Magnitude(b));
    MulMono(Magnitude(a), Magnitude(b), 0x8000_0000);
  }

  /** The signs put back. */
  lemma SignedProduct(a0: int32, b0: int32, a: int32, b: int32, h: uint32, l: uint32)
    requires a0 != 0 && b0 != 0
    requires a == (if a0 < 0 then Negated(a0) else a0) && b == (if b0 < 0 then Negated(b0) else b0)
    requires Double(h, l) == Unsigned(a) * Unsigned(b)
    ensures (a0 < 0) == (b0 < 0) ==> Signed(h) * 0x1_0000_0000 + Unsigned(Signed(l)) == a0 * b0
    ensures (a0 < 0) != (b0 < 0) ==>
              Signed(ComplementHi(h, l)) * 0x1_0000_0000 + Unsigned(Signed(ComplementLo(l))) == a0 * b0
  {
    assert Unsigned(a) == Magnitude(a0) && Unsigned(b) == Magnitude(b0);
    MagnitudeProduct(a0, b0);
    MagnitudeBound(a0, b0);
    ComplementDouble(h, l);
  }
}

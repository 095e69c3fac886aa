/** The simulated R2000 multiplier (machine/mipssim.cc, Mult): 32 shift-and-add steps on unsigned words. */
module Multiply {
  import opened Words

  const TWO_32 := 0x1_0000_0000
  const TWO_64 := 0x1_0000_0000_0000_0000

  type int32 = x: int | -0x8000_0000 <= x < 0x8000_0000

  /** The value of a register read as an unsigned number. */
  function Unsigned(a: int32): word
  {
    if a < 0 then a + TWO_32 else a
  }

  function Signed(w: word): int32
  {
    if w < 0x8000_0000 then w else w - TWO_32
  }

  /** `-a` on 32 bits: the most negative number is its own negation. */
  function Negate(a: int32): int32
  {
    if a == -0x8000_0000 then a else -a
  }

  /** The double word hi:lo as a number. */
  function Double(hi: word, lo: word): (d: nat)
    ensures d < TWO_64
  {
    hi * TWO_32 + lo
  }

  /** What MULT and MULTU must leave in hi:lo: the exact product, modulo 2^64. */
  ghost function Product(a: int32, b: int32, signedArith: bool): int
  {
    if signedArith then a * b else Unsigned(a) * Unsigned(b)
  }

  /** A sum of two words, on 32 bits. */
  function Wrap(x: nat): (w: word)
    requires x < 2 * TWO_32
    ensures w == if x < TWO_32 then x else x - TWO_32
  {
    x % TWO_32
  }

  lemma WrapsAround(x: nat, out: nat, d: nat)
    requires x == out * TWO_64 + d && d < TWO_64
    ensures x % TWO_64 == d
  {
  }

  /** Adds a word pair to a word pair; the carry out of the low word shows as wrap-around. */
  method AddPair(hi: word, lo: word, bHi: word, bLo: word) returns (hi': word, lo': word)
    ensures Double(hi', lo') == (Double(hi, lo) + Double(bHi, bLo)) % TWO_64
  {
    hi', lo' := hi, Wrap(lo + bLo);
    ghost var carry := if lo' < bLo then 1 else 0;
    assert lo + bLo == lo' + carry * TWO_32;
    if lo' < bLo {
      hi' := Wrap(hi' + 1);
    }
    hi' := Wrap(hi' + bHi);
    ghost var out := if hi + carry + bHi < TWO_32 then 0 else 1;
    assert hi + carry + bHi == hi' + out * TWO_32;
    WrapsAround(Double(hi, lo) + Double(bHi, bLo), out, Double(hi', lo'));
  }

  /** Shifts a word pair left by one bit. */
  method ShiftPair(bHi: word, bLo: word) returns (hi': word, lo': word)
    ensures Double(hi', lo') == (2 * Double(bHi, bLo)) % TWO_64
  {
    hi' := Wrap(2 * bHi);
    ghost var out := if bHi < 0x8000_0000 then 0 else 1;
    assert 2 * bHi == hi' + out * TWO_32 && hi' % 2 == 0;
    if bLo >= 0x8000_0000 {                  // bLo & 0x80000000
      hi' := hi' + 1;                        // bHi |= 1
    }
    lo' := Wrap(2 * bLo);
    WrapsAround(2 * Double(bHi, bLo), out, Double(hi', lo'));
  }

  /** The two's complement of a word pair. */
  method NegatePair(hi: word, lo: word) returns (hi': word, lo': word)
    ensures Double(hi', lo') == (TWO_64 - Double(hi, lo)) % TWO_64
  {
    hi', lo' := Not(hi), Not(lo);
    lo' := (lo' + 1) % TWO_32;
    if lo' == 0 {
      hi' := (hi' + 1) % TWO_32;
    }
  }

  lemma NoWrap(x: nat)
    requires x < TWO_64
    ensures x % TWO_64 == x
  {
  }

  /** The `n` lowest bits of `a`, as a number. */
  ghost function Low(a: int, n: nat): nat
  {
    a % Pow2(n)
  }

  ghost function Times(x: nat, y: nat): nat
  {
    x * y
  }

  /** The bits still to be looked at, after an arithmetic shift. */
  lemma ShiftRemaining(a: int, n: nat)
    ensures Low(a / 2, n) == Low(a, n + 1) / 2
    ensures a % 2 == Low(a, n + 1) % 2
  {
    var m := Pow2(n);
    var q, r := a / (2 * m), a % (2 * m);
    assert a == q * (2 * m) + r;
    assert a == 2 * (q * m) + r;
    assert a / 2 == q * m + r / 2;
    DivModUnique(a / 2, m, q, r / 2);
  }

  lemma MultipleIsFar(k: int, m: nat)
    ensures k >= 1 ==> k * m >= m
    ensures k <= -1 ==> k * m <= 0 - (m as int)
  {
  }

  lemma DivModUnique(x: int, m: nat, q: int, r: int)
    requires m > 0 && x == q * m + r && 0 <= r < m
    ensures x % m == r
  {
    var q', r' := x / m, x % m;
    assert x == q' * m + r';
    assert (q - q') * m == r' - r;
    MultipleIsFar(q - q', m);
  }

  lemma AllBits(a: int32)
    ensures Low(a, 32) == Unsigned(a) && Low(a, 0) == 0
  {
    Pow2of32();
  }

  /** Only the lowest bit can be set when the others are clear. */
  lemma LastBit(a: int, n: nat)
    requires n >= 1 && 0 <= a <= 1
    ensures Low(a, n) == a
  {
    assert Pow2(n) == 2 * Pow2(n - 1);
    DivModUnique(a, Pow2(n), 0, a);
  }

  /** Halving the multiplier and doubling the multiplicand accounts for all but the lowest bit. */
  lemma OneStep(rem: nat, bb: nat)
    ensures Times(rem, bb) == Times(rem / 2, 2 * bb) + if rem % 2 == 1 then bb else 0
  {
    var h := rem / 2;
    assert rem * bb == (2 * h + rem % 2) * bb;
    assert h * (2 * bb) == (2 * h) * bb;
  }

  lemma MulMonotone(x: nat, y: nat, z: nat)
    requires x <= y
    ensures x * z <= y * z
  {
  }

  lemma ProductBound(a: word, b: word)
    ensures Times(a, b) < TWO_64
  {
    MulMonotone(a, 0xffff_ffff, b);
  }

  lemma TimesZero(y: nat)
    ensures Times(0, y) == 0
  {
  }

  lemma Pow2Bound(i: nat)
    requires i < 32
    ensures Pow2(i) <= 0x8000_0000
  {
    Pow2of32();
    if i < 31 { Pow2Less(i, 31); }
  }

  /** The loop of Mult: the unsigned product, whatever the sign of `a`, early exit included. */
  method MultiplyUnsigned(a0: int32, b: word) returns (hi: word, lo: word)
    ensures Double(hi, lo) == Times(Unsigned(a0), b)
  {
    hide Times, Low;
    var a: int32 := a0;
    var bLo: word, bHi: word := b, 0;
    lo, hi := 0, 0;
    ghost var rem: nat := Unsigned(a0);      // the multiplier bits not yet looked at
    ghost var bb: nat := b;                  // the shifted multiplicand
    AllBits(a0);
    ProductBound(Unsigned(a0), b);
    var i := 0;
    while i < 32
      invariant 0 <= i <= 32 && rem == Low(a, 32 - i)
      invariant bb == Double(bHi, bLo) && bb <= 0xffff_ffff * Pow2(i)
      invariant Double(hi, lo) + Times(rem, bb) == Times(Unsigned(a0), b)
    {
      OneStep(rem, bb);
      ShiftRemaining(a, 31 - i);
      Pow2Bound(i);
      if a % 2 == 1 {                        // a & 1
        NoWrap(Double(hi, lo) + bb);
        hi, lo := AddPair(hi, lo, bHi, bLo);
        if Unsigned(a) / 2 == 0 {            // (a & 0xfffffffe) == 0
          LastBit(a, 32 - i);
          TimesZero(2 * bb);
          return;
        }
      }
      NoWrap(2 * bb);
      bHi, bLo := ShiftPair(bHi, bLo);
      a := a / 2;                            // a >>= 1, arithmetic
      rem, bb := rem / 2, 2 * bb;
      i := i + 1;
    }
    AllBits(a);
    TimesZero(bb);
  }

  /** Magnitudes and sign give the signed product; the most negative operand is no exception. */
  lemma SignedProduct(a: int, b: int)
    ensures a * b == if (a < 0) != (b < 0) then 0 - Times(Abs(a), Abs(b)) else Times(Abs(a), Abs(b))
  {
  }

  lemma ZeroProduct(a: int32, b: int32, signedArith: bool)
    ensures a == 0 || b == 0 ==> Product(a, b, signedArith) == 0
    ensures Double(0, 0) == 0
  {
  }

  /** What Mult has worked out before the loop: operands made positive, and whether to negate the result. */
  lemma MagnitudeAndSign(a0: int32, b0: int32, a: int32, b: int32, signedArith: bool, negative: bool)
    requires a == if signedArith && a0 < 0 then Negate(a0) else a0
    requires b == if signedArith && b0 < 0 then Negate(b0) else b0
    requires negative == (signedArith && (a0 < 0) != (b0 < 0))
    ensures Product(a0, b0, signedArith) ==
            if negative then 0 - Times(Unsigned(a), Unsigned(b)) else Times(Unsigned(a), Unsigned(b))
  {
    SignedProduct(a0, b0);
    if signedArith {
      assert Unsigned(a) == Abs(a0) && Unsigned(b) == Abs(b0);
    }
  }

  lemma ModuloTwo64(m: nat)
    requires m < TWO_64
    ensures m % TWO_64 == m && (0 - m) % TWO_64 == (TWO_64 - m) % TWO_64
  {
  }

  /** MULT and MULTU: hi:lo is the exact 64-bit product, signed or unsigned. */
  method Mult(a0: int32, b0: int32, signedArith: bool) returns (hiOut: int32, loOut: int32)
    ensures Double(Unsigned(hiOut), Unsigned(loOut)) == Product(a0, b0, signedArith) % TWO_64
  {
    hide Times, Double, Product;
    ZeroProduct(a0, b0, signedArith);
    if a0 == 0 || b0 == 0 {
      return 0, 0;
    }
    var a, b, negative := a0, b0, false;
    if signedArith {
      if a < 0 {
        negative := !negative;
        a := Negate(a);
      }
      if b < 0 {
        negative := !negative;
        b := Negate(b);
      }
    }
    var hi, lo := MultiplyUnsigned(a, Unsigned(b));
    MagnitudeAndSign(a0, b0, a, b, signedArith, negative);
    ModuloTwo64(Double(hi, lo));
    if negative {
      hi, lo := NegatePair(hi, lo);
    }
    hiOut, loOut := Signed(hi), Signed(lo);
  }
}

/**
 The order of 64-bit floats. A float is its bit pattern; its numeric value is
 the one IEEE 754-2019 section 3.4 gives it, counted exactly in units of the
 smallest subnormal, two to the power -1074.
 */
module FloatOrder {
  import opened Types

  const SIGN_BIT: U64 := 0x8000_0000_0000_0000
  const INFINITY_BITS: U64 := 0x7FF0_0000_0000_0000
  const CANONICAL_NAN_BITS: U64 := 0x7FF8_0000_0000_0000
  const TWO_52 := 0x10_0000_0000_0000

  datatype Number = NegativeInfinity | Finite(units: int) | PositiveInfinity | NaN

  function Pow2(n: nat): (p: nat)
    ensures p > 0
  {
    if n == 0 then 1 else 2 * Pow2(n - 1)
  }

  /** Subnormals have no hidden bit; every other exponent doubles the one before. */
  function Magnitude(bits: nat): nat {
    var exponent, fraction := bits / TWO_52, bits % TWO_52;
    if exponent == 0 then fraction else (TWO_52 + fraction) * Pow2(exponent - 1)
  }

  function NumericValue(bits: U64): Number {
    var negative := bits >= SIGN_BIT;
    var m := bits % SIGN_BIT;
    if m > INFINITY_BITS then NaN
    else if m == INFINITY_BITS then if negative then NegativeInfinity else PositiveInfinity
    else
      var units: int := Magnitude(m);
      Finite(if negative then -units else units)
  }

  /** The usual order of the extended reals, with NaN placed above all of them. */
  predicate NumberLess(a: Number, b: Number) {
    match (a, b)
    case (NegativeInfinity, _) => b != NegativeInfinity
    case (Finite(x), Finite(y)) => x < y
    case (Finite(_), _) => b != NegativeInfinity
    case (PositiveInfinity, _) => b == NaN
    case (NaN, _) => false
  }

  predicate IsNan(bits: U64) {
    bits % SIGN_BIT > INFINITY_BITS
  }

  predicate IsZero(bits: U64) {
    bits % SIGN_BIT == 0
  }

  function Canonical(bits: U64): U64 {
    if IsNan(bits) then CANONICAL_NAN_BITS else if IsZero(bits) then 0 else bits
  }

  /** `bits ^ SIGN_BIT` */
  function FlipSign(bits: U64): U64 {
    if bits < SIGN_BIT then bits + SIGN_BIT else bits - SIGN_BIT
  }

  /** `!bits` */
  function FlipAll(bits: U64): U64 {
    U64_MAX - bits
  }

  // --------------------------------------------------------------- bit by bit

  /** The lowest `n` bits of `a ^ b`. */
  function Xor(n: nat, a: nat, b: nat): nat {
    if n == 0 then 0 else 2 * Xor(n - 1, a / 2, b / 2) + (if a % 2 != b % 2 then 1 else 0)
  }

  /** The lowest `n` bits of `a & b`. */
  function And(n: nat, a: nat, b: nat): nat {
    if n == 0 then 0 else 2 * And(n - 1, a / 2, b / 2) + (if a % 2 == 1 && b % 2 == 1 then 1 else 0)
  }

  /** The lowest `n` bits of `!a`. */
  function Complement(n: nat, a: nat): nat {
    if n == 0 then 0 else 2 * Complement(n - 1, a / 2) + (1 - a % 2)
  }

  lemma {:induction false} ComplementBits(n: nat, a: nat)
    requires a < Pow2(n)
    ensures Complement(n, a) == Pow2(n) - 1 - a
  {
    if n > 0 {
      ComplementBits(n - 1, a / 2);
    }
  }

  lemma {:induction false} TopBit(n: nat, a: nat)
    requires a < 2 * Pow2(n)
    ensures Xor(n + 1, a, Pow2(n)) == if a < Pow2(n) then a + Pow2(n) else a - Pow2(n)
    ensures And(n + 1, a, Pow2(n)) == if a < Pow2(n) then 0 else Pow2(n)
  {
    if n > 0 {
      TopBit(n - 1, a / 2);
      assert Pow2(n) / 2 == Pow2(n - 1) && Pow2(n) % 2 == 0;
    } else {
      assert Xor(1, a, 1) == 2 * Xor(0, a / 2, 0) + (if a % 2 != 1 then 1 else 0);
      assert And(1, a, 1) == 2 * And(0, a / 2, 0) + (if a % 2 == 1 then 1 else 0);
    }
  }

  const SIGN_POSITION: nat := 63

  lemma {:induction false} Pow2Add(m: nat, n: nat)
    ensures Pow2(m + n) == Pow2(m) * Pow2(n)
    decreases m
  {
    if m > 0 {
      Pow2Add(m - 1, n);
    }
  }

  lemma SignBitIsPower()
    ensures Pow2(63) == SIGN_BIT && Pow2(64) == 2 * SIGN_BIT
  {
    assert Pow2(7) == 128;
    Pow2Add(7, 7);
    Pow2Add(14, 7);
    Pow2Add(21, 21);
    Pow2Add(42, 21);
    Pow2Add(1, 63);
  }

  /** The arithmetic on patterns is what the bit operations do: `^ SIGN_BIT`, `!` and the test of the sign bit. */
  lemma BitOperations(bits: U64)
    ensures Xor(SIGN_POSITION + 1, bits, SIGN_BIT) == FlipSign(bits)
    ensures Complement(SIGN_POSITION + 1, bits) == FlipAll(bits)
    ensures And(SIGN_POSITION + 1, bits, SIGN_BIT) == 0 <==> bits < SIGN_BIT
  {
    SignBitIsPower();
    TopBit(SIGN_POSITION, bits);
    ComplementBits(SIGN_POSITION + 1, bits);
  }

  function OrderedBits(bits: U64): U64 {
    var f := Canonical(bits);
    if f < SIGN_BIT then FlipSign(f) else FlipAll(f)
  }

  lemma {:induction false} Pow2Monotone(m: nat, n: nat)
    requires m <= n
    ensures Pow2(m) <= Pow2(n)
    decreases n
  {
    if m < n {
      Pow2Monotone(m, n - 1);
    }
  }

  lemma MultiplyLess(x: nat, y: nat, z: nat)
    requires x < y && 0 < z
    ensures x * z < y * z
  {
  }

  lemma MagnitudeBelow(bits: nat)
    ensures Magnitude(bits) < TWO_52 * Pow2(bits / TWO_52)
  {
    var e, f := bits / TWO_52, bits % TWO_52;
    if e > 0 {
      MultiplyLess(TWO_52 + f, 2 * TWO_52, Pow2(e - 1));
    }
  }

  lemma MagnitudeAtLeast(bits: nat)
    requires bits >= TWO_52
    ensures Magnitude(bits) >= TWO_52 * Pow2(bits / TWO_52 - 1)
  {
    var e, f := bits / TWO_52, bits % TWO_52;
    assert (TWO_52 + f) * Pow2(e - 1) == TWO_52 * Pow2(e - 1) + f * Pow2(e - 1);
  }

  lemma MagnitudeMonotone(m: nat, n: nat)
    requires m < n
    ensures Magnitude(m) < Magnitude(n)
  {
    var e, f := m / TWO_52, m % TWO_52;
    var e', f' := n / TWO_52, n % TWO_52;
    if e == e' {
      if e > 0 {
        MultiplyLess(TWO_52 + f, TWO_52 + f', Pow2(e - 1));
      }
    } else {
      MagnitudeBelow(m);
      Pow2Monotone(e, e' - 1);
      MagnitudeAtLeast(n);
    }
  }

  /** Codes order as numbers do; they coincide exactly for equal numbers, both zeros and all NaNs included. */
  lemma OrderedBitsOrder(a: U64, b: U64)
    ensures OrderedBits(a) < OrderedBits(b) <==> NumberLess(NumericValue(a), NumericValue(b))
    ensures OrderedBits(a) == OrderedBits(b) <==> NumericValue(a) == NumericValue(b)
  {
    var m, n := a % SIGN_BIT, b % SIGN_BIT;
    assert Magnitude(0) == 0;
    if m < n { MagnitudeMonotone(m, n); }
    if n < m { MagnitudeMonotone(n, m); }
    if 0 < m { MagnitudeMonotone(0, m); }
    if 0 < n { MagnitudeMonotone(0, n); }
    assert a == if a < SIGN_BIT then m else m + SIGN_BIT;
    assert b == if b < SIGN_BIT then n else n + SIGN_BIT;
  }
}

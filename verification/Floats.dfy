/** Comparisons of IEEE 754 floats, on their bit patterns, and the numbers that these stand for. */
module Floats {
  import opened Storage

  const HALF64: nat := 0x8000_0000_0000_0000
  const INFINITY64: nat := 0x7FF0_0000_0000_0000
  const HALF32: nat := 0x8000_0000
  const INFINITY32: nat := 0x7F80_0000
  const ONE32: nat := 0x3F80_0000

  function Magnitude(bits: nat, half: nat): nat { if bits < half then bits else bits - half }

  predicate IsNaN(bits: nat, half: nat, infinity: nat) { Magnitude(bits, half) > infinity }

  /** The place of a float among the others; the two zeros share one. */
  function Rank(bits: nat, half: nat): int { if bits < half then bits else -(Magnitude(bits, half) as int) }

  predicate FloatEq(a: nat, b: nat, half: nat, infinity: nat) {
    !IsNaN(a, half, infinity) && !IsNaN(b, half, infinity) && Rank(a, half) == Rank(b, half)
  }

  predicate IsZero(bits: nat, half: nat) { Magnitude(bits, half) == 0 }

  datatype Ordering = Less | Equal | Greater

  function FloatOrder(a: nat, b: nat, half: nat, infinity: nat): Option<Ordering> {
    if IsNaN(a, half, infinity) || IsNaN(b, half, infinity) then None
    else Some(if Rank(a, half) < Rank(b, half) then Less else if Rank(a, half) > Rank(b, half) then Greater else Equal)
  }

  /** Equal floats other than zeros are the same bits. */
  lemma FloatEqIdentity(a: nat, b: nat, half: nat, infinity: nat)
    requires FloatEq(a, b, half, infinity) && !IsZero(b, half)
    ensures a == b
  {
  }

  // ----- the numbers

  /** The significand of one as an integer: one more than there are mantissas. */
  const UNIT64: nat := 0x10_0000_0000_0000
  const UNIT32: nat := 0x80_0000

  function Power2(n: nat): (p: nat)
    ensures p > 0
  {
    if n == 0 then 1 else 2 * Power2(n - 1)
  }

  /**
   * A magnitude as a multiple of the least positive float: section 3.4 of IEEE 754, with exponent
   * `m / unit` and mantissa `m % unit`. Infinity is the next number after the greatest finite one.
   */
  function Scaled(m: nat, unit: nat): nat
    requires unit > 0
  {
    if m / unit == 0 then m % unit else (unit + m % unit) * Power2(m / unit - 1)
  }

  /** The number that a float stands for, as a multiple of the least positive one. */
  function Number(bits: nat, half: nat, unit: nat): int
    requires unit > 0
  {
    if bits < half then Scaled(bits, unit) else -(Scaled(bits - half, unit) as int)
  }

  lemma ScaledNext(m: nat, unit: nat)
    requires unit > 0
    ensures Scaled(m, unit) < Scaled(m + 1, unit)
  {
    hide Power2;
    var e, r := m / unit, m % unit;
    NextDivision(m, unit);
    if e > 0 {
      Doubled(e, unit);
      LessTimes(unit + r, if r + 1 < unit then unit + r + 1 else 2 * unit, Power2(e - 1));
    } else {
      PowerZero();
    }
  }

  lemma PowerZero()
    ensures Power2(0) == 1
  {
  }

  lemma Doubled(e: nat, unit: nat)
    requires e > 0
    ensures unit * Power2(e) == 2 * unit * Power2(e - 1)
  {
  }

  lemma NextDivision(m: nat, unit: nat)
    requires unit > 0
    ensures m % unit + 1 < unit ==> (m + 1) / unit == m / unit && (m + 1) % unit == m % unit + 1
    ensures m % unit + 1 == unit ==> (m + 1) / unit == m / unit + 1 && (m + 1) % unit == 0
  {
    var e, r := m / unit, m % unit;
    assert m == unit * e + r;
    if r + 1 < unit {
      DivisionIs(m + 1, unit, e, r + 1);
    } else {
      assert unit * (e + 1) == unit * e + unit;
      DivisionIs(m + 1, unit, e + 1, 0);
    }
  }

  lemma DivisionIs(m: nat, unit: nat, e: nat, r: nat)
    requires r < unit && m == unit * e + r
    ensures m / unit == e && m % unit == r
  {
    var q := m / unit;
    assert m == unit * q + m % unit;
    Multiples(unit, q, e);
    Multiples(unit, e, q);
  }

  lemma {:induction false} Multiples(unit: nat, a: nat, b: nat)
    ensures a < b ==> unit * a + unit <= unit * b
    decreases b
  {
    if a < b {
      Multiples(unit, a, b - 1);
      assert unit * b == unit * (b - 1) + unit;
    }
  }

  lemma LessTimes(a: nat, b: nat, p: nat)
    requires a < b && p > 0
    ensures a * p < b * p
  {
  }

  lemma {:induction false} ScaledGrows(m: nat, n: nat, unit: nat)
    requires unit > 0 && m < n
    ensures Scaled(m, unit) < Scaled(n, unit)
    decreases n
  {
    hide Scaled;
    ScaledNext(n - 1, unit);
    if m < n - 1 {
      ScaledGrows(m, n - 1, unit);
    }
  }

  lemma RankIsNumber(a: nat, b: nat, half: nat, unit: nat)
    requires unit > 0
    ensures Rank(a, half) < Rank(b, half) <==> Number(a, half, unit) < Number(b, half, unit)
    ensures Rank(a, half) == Rank(b, half) <==> Number(a, half, unit) == Number(b, half, unit)
  {
    var m, n := Magnitude(a, half), Magnitude(b, half);
    assert Scaled(0, unit) == 0;
    hide Scaled;
    if m < n {
      ScaledGrows(m, n, unit);
    } else if n < m {
      ScaledGrows(n, m, unit);
    }
    if m > 0 {
      ScaledGrows(0, m, unit);
    }
    if n > 0 {
      ScaledGrows(0, n, unit);
    }
  }

  /** Past the last exponent `k` with mantissa zero. */
  lemma LastExponent(m: nat, unit: nat, k: nat)
    requires unit > 0 && m < unit * k + unit
    ensures m > unit * k <==> m / unit == k && m % unit != 0
  {
    var q := m / unit;
    assert m == unit * q + m % unit;
    Multiples(unit, q, k);
    Multiples(unit, k, q);
  }

  /** A float that stands for no number: its exponent is all ones, and its mantissa is not zero. */
  lemma NaNIff(bits: nat)
    ensures bits < 2 * HALF64 ==>
              (IsNaN(bits, HALF64, INFINITY64) <==>
                 Magnitude(bits, HALF64) / UNIT64 == 2047 && Magnitude(bits, HALF64) % UNIT64 != 0)
    ensures bits < 2 * HALF32 ==>
              (IsNaN(bits, HALF32, INFINITY32) <==>
                 Magnitude(bits, HALF32) / UNIT32 == 255 && Magnitude(bits, HALF32) % UNIT32 != 0)
  {
    if bits < 2 * HALF64 {
      LastExponent(Magnitude(bits, HALF64), UNIT64, 2047);
    }
    if bits < 2 * HALF32 {
      LastExponent(Magnitude(bits, HALF32), UNIT32, 255);
    }
  }

  lemma {:induction false} PowerSum(a: nat, b: nat)
    ensures Power2(a + b) == Power2(a) * Power2(b)
  {
    if b > 0 {
      PowerSum(a, b - 1);
      assert Power2(a + b) == 2 * Power2(a + (b - 1));
    }
  }

  lemma UnitIsPower()
    ensures Power2(23) == UNIT32
  {
    assert Power2(8) == 256;
    PowerSum(8, 8);
    PowerSum(16, 7);
    assert Power2(7) == 128;
  }

  /** The score of a condition that is met stands for one: the least positive float is two to the power of -149. */
  lemma OneIsOne()
    ensures Number(ONE32, HALF32, UNIT32) == Power2(149)
  {
    hide Power2;
    PowerSum(126, 23);
    UnitIsPower();
    assert ONE32 / UNIT32 == 127 && ONE32 % UNIT32 == 0;
  }

  /** Floats compare as the numbers do that they stand for; those that stand for none, not at all. */
  lemma FloatsAreNumbers(a: nat, b: nat)
    ensures var comparable := !IsNaN(a, HALF64, INFINITY64) && !IsNaN(b, HALF64, INFINITY64);
            var (x, y) := (Number(a, HALF64, UNIT64), Number(b, HALF64, UNIT64));
            && (FloatEq(a, b, HALF64, INFINITY64) <==> comparable && x == y)
            && (FloatOrder(a, b, HALF64, INFINITY64) == Some(Less) <==> comparable && x < y)
            && (FloatOrder(a, b, HALF64, INFINITY64) == Some(Greater) <==> comparable && x > y)
    ensures var comparable := !IsNaN(a, HALF32, INFINITY32) && !IsNaN(b, HALF32, INFINITY32);
            var (x, y) := (Number(a, HALF32, UNIT32), Number(b, HALF32, UNIT32));
            && (FloatEq(a, b, HALF32, INFINITY32) <==> comparable && x == y)
            && (FloatOrder(a, b, HALF32, INFINITY32) == Some(Less) <==> comparable && x < y)
            && (FloatOrder(a, b, HALF32, INFINITY32) == Some(Greater) <==> comparable && x > y)
  {
    hide Number, Rank, IsNaN;
    RankIsNumber(a, b, HALF64, UNIT64);
    RankIsNumber(b, a, HALF64, UNIT64);
    RankIsNumber(a, b, HALF32, UNIT32);
    RankIsNumber(b, a, HALF32, UNIT32);
  }
}

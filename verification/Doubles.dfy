/** Double precision numbers: the rounding of a real to 53 significant bits, and what it keeps. */
module Doubles {

  const TWO52 := 4503599627370496.0

  /** A number times 2^e. */
  function Scaled(x: real, e: nat): real
    decreases e, x
  {
    if e == 0 then x else Scaled(2.0 * x, e - 1)
  }

  /** A number over 2^e. */
  function Unscaled(x: real, e: nat): real
    decreases e, x
  {
    if e == 0 then x else Unscaled(x, e - 1) / 2.0
  }

  function Power(e: nat): (p: nat)
    ensures p > 0
  {
    if e == 0 then 1 else 2 * Power(e - 1)
  }

  lemma {:induction false} PowerSum(d: nat, e: nat)
    ensures Power(d + e) == Power(d) * Power(e)
  {
    if d > 0 { PowerSum(d - 1, e); }
  }

  lemma Powers()
    ensures Power(34) == 17179869184 && Power(40) == 1099511627776 && Power(44) == 17592186044416
    ensures Power(51) == 2251799813685248 && Power(52) == 4503599627370496
  {
    assert Power(4) == 16 && Power(11) == 2048 && Power(12) == 4096;
    PowerSum(10, 10);
    PowerSum(20, 20);
    PowerSum(20, 14);
    PowerSum(40, 4);
    PowerSum(40, 11);
    PowerSum(40, 12);
  }

  /** Scaling is multiplication by a power of two. */
  lemma {:induction false} ScaledIs(x: real, e: nat)
    ensures Scaled(x, e) == x * Power(e) as real && Unscaled(x, e) == x / Power(e) as real
    decreases e
  {
    if e > 0 {
      ScaledIs(2.0 * x, e - 1);
      ScaledIs(x, e - 1);
      Regrouped(x, Power(e - 1) as real);
    }
  }

  lemma Regrouped(x: real, p: real)
    requires p > 0.0
    ensures 2.0 * x * p == x * (2.0 * p) && x / p / 2.0 == x / (2.0 * p)
  {
  }

  /** The nearest integer, halves to the even one. */
  function RoundHalfEven(x: real): (i: int)
    ensures -0.5 <= i as real - x <= 0.5
  {
    var f := x.Floor;
    var over := x - f as real;
    if over > 0.5 || (over == 0.5 && f % 2 == 1) then f + 1 else f
  }

  /** Rounding from 2^52 on, where doubles are integers and double their distance with each power of two. */
  function Coarse(x: real): real
    requires x >= TWO52
    decreases x.Floor
  {
    if x < 2.0 * TWO52 then RoundHalfEven(x) as real else 2.0 * Coarse(x / 2.0)
  }

  /** Rounding below 2^53: their distance halves with each power of two, `left` times at most. */
  function Fine(x: real, left: nat): real
    decreases left, x
  {
    if x >= TWO52 || left == 0 then RoundHalfEven(x) as real else Fine(2.0 * x, left - 1) / 2.0
  }

  const SUBNORMAL_BITS: nat := 1074

  /** The double nearest to a number, the even one of two, were there no largest double. */
  function Double(x: real): real
    decreases x < 0.0
  {
    if x < 0.0 then -Double(-x) else if x >= TWO52 then Coarse(x) else Fine(x, SUBNORMAL_BITS)
  }

  /** From here on a rounded number is infinite. */
  predicate Overflows(x: real) { Double(x) >= Scaled(1.0, 1024) || Double(x) <= -Scaled(1.0, 1024) }

  // ---- order -----------------------------------------------------------------------------

  lemma RoundingIsMonotone(x: real, y: real)
    requires x <= y
    ensures RoundHalfEven(x) <= RoundHalfEven(y)
  {
  }

  /** Rounding stays below the powers of two that bound it. */
  lemma {:induction false} FineBelow(x: real, left: nat)
    requires x <= 2.0 * TWO52
    ensures Fine(x, left) <= 2.0 * TWO52 && (x <= TWO52 ==> Fine(x, left) <= TWO52)
    decreases left
  {
    if x < TWO52 && left > 0 { FineBelow(2.0 * x, left - 1); }
  }

  lemma {:induction false} FineIsMonotone(x: real, y: real, left: nat)
    requires x <= y < 2.0 * TWO52
    ensures Fine(x, left) <= Fine(y, left)
    decreases left
  {
    if left == 0 || x >= TWO52 {
      RoundingIsMonotone(x, y);
    } else if y >= TWO52 {
      FineBelow(x, left);
    } else {
      FineIsMonotone(2.0 * x, 2.0 * y, left - 1);
    }
  }

  lemma {:induction false} CoarseAbove(x: real)
    requires x >= TWO52
    ensures Coarse(x) >= TWO52
    decreases x.Floor
  {
    if x >= 2.0 * TWO52 { CoarseAbove(x / 2.0); }
  }

  lemma {:induction false} CoarseIsMonotone(x: real, y: real)
    requires TWO52 <= x <= y
    ensures Coarse(x) <= Coarse(y)
    decreases x.Floor
  {
    if x >= 2.0 * TWO52 {
      CoarseIsMonotone(x / 2.0, y / 2.0);
    } else if y >= 2.0 * TWO52 {
      CoarseAbove(y / 2.0);
    } else {
      RoundingIsMonotone(x, y);
    }
  }

  /** Rounding never swaps two numbers. */
  lemma DoubleIsMonotone(x: real, y: real)
    requires 0.0 <= x <= y
    ensures Double(x) <= Double(y)
  {
    if x >= TWO52 {
      CoarseIsMonotone(x, y);
    } else if y >= TWO52 {
      FineBelow(x, SUBNORMAL_BITS);
      CoarseAbove(y);
    } else {
      FineIsMonotone(x, y, SUBNORMAL_BITS);
    }
  }

  // ---- numbers that are doubles ----------------------------------------------------------

  lemma {:induction false} UnscaledBelow(x: real, e: nat)
    requires x >= 0.0
    ensures 0.0 <= Unscaled(x, e) <= if e == 0 then x else x / 2.0
  {
    if e > 0 { UnscaledBelow(x, e - 1); }
  }

  lemma {:induction false} FineKeepsIntegers(m: int, left: nat)
    ensures Fine(m as real, left) == m as real
    decreases left
  {
    if left > 0 {
      FineKeepsIntegers(2 * m, left - 1);
      assert 2.0 * m as real == (2 * m) as real;
    }
  }

  lemma {:induction false} FineKeeps(m: nat, e: nat, left: nat)
    requires m as real < 2.0 * TWO52 && e <= left
    ensures Fine(Unscaled(m as real, e), left) == Unscaled(m as real, e)
    decreases left
  {
    if e == 0 {
      FineKeepsIntegers(m, left);
    } else {
      UnscaledBelow(m as real, e);
      FineKeeps(m, e - 1, left - 1);
    }
  }

  /** A 53-bit integer over a power of two is a double. */
  lemma DyadicIsDouble(m: nat, e: nat)
    requires m as real < 2.0 * TWO52 && e <= SUBNORMAL_BITS
    ensures Double(Unscaled(m as real, e)) == Unscaled(m as real, e)
  {
    UnscaledBelow(m as real, e);
    FineKeeps(m, e, SUBNORMAL_BITS);
    var x := Unscaled(m as real, e);
    assert Double(x) == if x >= TWO52 then Coarse(x) else Fine(x, SUBNORMAL_BITS);
    if x >= TWO52 { assert e == 0; }
  }

  /** Every half-integer below 2^52 is a double. */
  lemma HalvesAreDoubles(m: nat)
    requires m as real < 2.0 * TWO52
    ensures Double(m as real / 2.0) == m as real / 2.0
  {
    assert Unscaled(m as real, 1) == Unscaled(m as real, 0) / 2.0;
    DyadicIsDouble(m, 1);
  }

  // ---- nearest ---------------------------------------------------------------------------

  function Distance(x: real, y: real): real { if x < y then y - x else x - y }

  lemma NearestInteger(x: real, i: int)
    ensures Distance(x, RoundHalfEven(x) as real) <= Distance(x, i as real)
  {
    var f := x.Floor;
    assert f as real <= x < (f + 1) as real;
    if i <= f { assert i as real <= f as real; } else { assert i as real >= (f + 1) as real; }
  }

  lemma {:induction false} FineIsNearest(x: real, y: real, left: nat)
    requires 0.0 <= x < 2.0 * TWO52 && 0.0 <= y <= 2.0 * TWO52 && Fine(y, left) == y
    ensures Distance(x, Fine(x, left)) <= Distance(x, y)
    decreases left
  {
    if left == 0 || x >= TWO52 {
      var z := if left == 0 || y >= TWO52 then y else TWO52;
      NearestInteger(x, RoundHalfEven(z));
    } else {
      var z := if y < TWO52 then y else TWO52;
      FineKeepsIntegers(9007199254740992, left - 1);
      FineIsNearest(2.0 * x, 2.0 * z, left - 1);
    }
  }

  lemma {:induction false} CoarseIsNearest(x: real, y: real)
    requires TWO52 <= x && TWO52 <= y && Coarse(y) == y
    ensures Distance(x, Coarse(x)) <= Distance(x, y)
    decreases x.Floor
  {
    if x < 2.0 * TWO52 {
      var z := if y < 2.0 * TWO52 then y else 2.0 * TWO52;
      NearestInteger(x, RoundHalfEven(z));
    } else {
      var z := if y >= 2.0 * TWO52 then y else 2.0 * TWO52;
      CoarseIsNearest(x / 2.0, z / 2.0);
    }
  }

  /** No double is nearer to a number than the one it is rounded to. */
  lemma DoubleIsNearest(x: real, y: real)
    requires 0.0 <= x && 0.0 <= y && Double(y) == y
    ensures Distance(x, Double(x)) <= Distance(x, y)
  {
    if x >= TWO52 {
      CoarseIsNearest(x, if y >= TWO52 then y else TWO52);
    } else {
      FineKeepsIntegers(4503599627370496, SUBNORMAL_BITS);
      FineIsNearest(x, if y < TWO52 then y else TWO52, SUBNORMAL_BITS);
      assert Double(x) == Fine(x, SUBNORMAL_BITS);
    }
  }

  // ---- error -----------------------------------------------------------------------------

  lemma {:induction false} ScaledAbove(x: real, e: nat)
    requires x >= 0.0
    ensures Scaled(x, e) >= if e == 0 then x else 2.0 * x
    decreases e
  {
    if e > 0 { ScaledAbove(2.0 * x, e - 1); }
  }

  lemma {:induction false} FineErrorOfOne(x: real, left: nat)
    ensures -0.5 <= Fine(x, left) - x <= 0.5
    decreases left
  {
    if x < TWO52 && left > 0 { FineErrorOfOne(2.0 * x, left - 1); }
  }

  lemma {:induction false} FineError(x: real, e: nat, left: nat)
    requires e <= left && 0.0 <= x && Scaled(x, e) < 2.0 * TWO52
    ensures -0.5 <= Scaled(Fine(x, left) - x, e) <= 0.5
    decreases left
  {
    if e == 0 {
      FineErrorOfOne(x, left);
    } else {
      ScaledAbove(x, e);
      FineError(2.0 * x, e - 1, left - 1);
      assert 2.0 * (Fine(x, left) - x) == Fine(2.0 * x, left - 1) - 2.0 * x;
    }
  }

  /** A number below 2^53 over 2^e is off by at most half a 2^e-th once rounded. */
  lemma DoubleError(x: real, e: nat)
    requires e <= SUBNORMAL_BITS && 0.0 <= x < TWO52 && Scaled(x, e) < 2.0 * TWO52
    ensures -0.5 <= Scaled(Double(x) - x, e) <= 0.5
  {
    FineError(x, e, SUBNORMAL_BITS);
    assert Double(x) == Fine(x, SUBNORMAL_BITS);
  }

  lemma DoubleErrorIs(x: real, e: nat, p: real)
    requires e <= SUBNORMAL_BITS && p == Power(e) as real && 0.0 <= x < TWO52 && x * p < 2.0 * TWO52
    ensures -0.5 <= (Double(x) - x) * p <= 0.5
  {
    ScaledIs(x, e);
    ScaledIs(Double(x) - x, e);
    DoubleError(x, e);
  }

  lemma {:induction false} FineScales(x: real, e: nat, left: nat)
    requires e <= left && 0.0 <= x && TWO52 <= Scaled(x, e) < 2.0 * TWO52
    ensures Fine(x, left) == Unscaled(RoundHalfEven(Scaled(x, e)) as real, e)
    decreases left
  {
    if e > 0 {
      ScaledAbove(x, e);
      FineScales(2.0 * x, e - 1, left - 1);
    }
  }

  /** The double of a number, given the power of two that takes it to 53 bits. */
  lemma DoubleIs(x: real, e: nat)
    requires e <= SUBNORMAL_BITS && 0.0 <= x < TWO52 && TWO52 <= Scaled(x, e) < 2.0 * TWO52
    ensures Double(x) == Unscaled(RoundHalfEven(Scaled(x, e)) as real, e)
  {
    FineScales(x, e, SUBNORMAL_BITS);
    assert Double(x) == Fine(x, SUBNORMAL_BITS);
  }
}

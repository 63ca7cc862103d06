/** DistanceModifier.getModifier of both engines: a scalar that scales a
    field's magnitude by the distance from its reference. */
module DistanceModifiers {

  datatype ModifierType = Constant | Exponential | AnimationCurve

  datatype DistanceModifier = DistanceModifier(
    modifierType: ModifierType,
    curveSize: real,
    boundAtZero: bool,
    a: real,
    b: real,
    n: real)

  /** The library numerics getModifier calls but that are not modelled:
      `pow` is Mathf.Pow, `curveAt(d)` is `curve.Evaluate(d / curveSize)`. */
  datatype Numerics = Numerics(pow: (real, real) -> real, curveAt: real -> real)

  /** A float result: a finite value, or the +Infinity that `1 / 0` gives. */
  datatype Scalar = Finite(v: real) | Infinite

  /** `x` multiplied into 1, `k` times, as the loop does. */
  function Power(x: real, k: nat): (p: real)
    ensures x != 0.0 ==> p != 0.0
  {
    if k == 0 then 1.0 else Power(x, k - 1) * x
  }

  /** `1` divided by `x`, `k` times. Dividing by a zero base gives +Infinity,
      and +Infinity divided by that zero again stays +Infinity. */
  function InversePower(x: real, k: nat): Scalar {
    if k == 0 then Finite(1.0)
    else if x == 0.0 then Infinite
    else Finite(1.0 / Power(x, k))
  }

  /** `n % 1 == 0`: the exponent is a whole number. */
  predicate IsIntegral(n: real) {
    n == n.Floor as real
  }

  /** `result /= x` on a float. */
  function Divide(s: Scalar, x: real): Scalar {
    match s
    case Infinite => Infinite
    case Finite(r) => if x == 0.0 then Infinite else Finite(r / x)
  }

  /** The base `d * a + b` of the exponential mode. */
  function Base(dm: DistanceModifier, d: real): real {
    d * dm.a + dm.b
  }

  /** The modifier before the `boundAtZero` clamp. */
  function RawModifier(dm: DistanceModifier, d: real, num: Numerics): Scalar {
    match dm.modifierType
    case Constant => Finite(1.0)
    case Exponential =>
      var x := Base(dm, d);
      if IsIntegral(dm.n) then
        if dm.n >= 0.0 then Finite(Power(x, dm.n.Floor)) else InversePower(x, -dm.n.Floor)
      else Finite(num.pow(x, dm.n))
    case AnimationCurve => Finite(num.curveAt(d))
  }

  /** What getModifier returns. */
  function Modifier(dm: DistanceModifier, d: real, num: Numerics): (r: Scalar)
    ensures dm.modifierType == Constant ==> r == Finite(1.0)
    ensures dm.boundAtZero && r.Finite? ==> r.v >= 0.0
    ensures !dm.boundAtZero ==> r == RawModifier(dm, d, num)
    ensures r.Infinite? <==> RawModifier(dm, d, num).Infinite?
  {
    var raw := RawModifier(dm, d, num);
    if dm.boundAtZero && raw.Finite? && raw.v < 0.0 then Finite(0.0) else raw
  }

  /** getModifier: the integer-exponent branch multiplies or divides in a loop. */
  method GetModifier(dm: DistanceModifier, d: real, num: Numerics) returns (result: Scalar)
    ensures result == Modifier(dm, d, num)
  {
    result := Finite(1.0);
    match dm.modifierType {
      case Exponential =>
        var x := Base(dm, d);
        if IsIntegral(dm.n) {
          var k := dm.n.Floor;
          if dm.n >= 0.0 {
            var i := 0;
            while i < k
              invariant 0 <= i <= k
              invariant result == Finite(Power(x, i))
            {
              result := Finite(result.v * x);
              i := i + 1;
            }
            RawOfNonNegativeWhole(dm, d, num);
          } else {
            var i := 0;
            while i < -k
              invariant 0 <= i <= -k
              invariant result == InversePower(x, i)
            {
              if x != 0.0 {
                var p := Power(x, i);
                assert (1.0 / p) / x == 1.0 / (p * x);
              }
              result := Divide(result, x);
              i := i + 1;
            }
            RawOfNegativeWhole(dm, d, num);
          }
        } else {
          result := Finite(num.pow(x, dm.n));
        }
      case AnimationCurve =>
        result := Finite(num.curveAt(d));
      case Constant =>
    }
    assert result == RawModifier(dm, d, num);
    if dm.boundAtZero && result.Finite? && result.v < 0.0 {
      result := Finite(0.0);
    }
  }

  lemma RawOfNonNegativeWhole(dm: DistanceModifier, d: real, num: Numerics)
    requires dm.modifierType == Exponential && IsIntegral(dm.n) && dm.n >= 0.0
    ensures RawModifier(dm, d, num) == Finite(Power(Base(dm, d), dm.n.Floor))
  {
  }

  lemma RawOfNegativeWhole(dm: DistanceModifier, d: real, num: Numerics)
    requires dm.modifierType == Exponential && IsIntegral(dm.n) && dm.n < 0.0
    ensures RawModifier(dm, d, num) == InversePower(Base(dm, d), -dm.n.Floor)
  {
  }

  /** Multiplying `j` times and then `k` times more is multiplying `j + k`
      times. */
  lemma {:induction false} PowerAdd(x: real, j: nat, k: nat)
    ensures Power(x, j + k) == Power(x, j) * Power(x, k)
    decreases k
  {
    if k > 0 {
      PowerAdd(x, j, k - 1);
      assert Power(x, j + k) == Power(x, j + k - 1) * x;
      assert Power(x, j) * Power(x, k - 1) * x == Power(x, j) * (Power(x, k - 1) * x);
    }
  }

  /** For whole non-negative exponents the loop's result is multiplicative:
      the unclamped modifier for exponent `n1 + n2` is the product of those
      for `n1` and for `n2`. */
  lemma ExponentsAdd(dm: DistanceModifier, d: real, num: Numerics, n1: nat, n2: nat)
    requires dm.modifierType == Exponential
    ensures var r1 := RawModifier(dm.(n := n1 as real), d, num);
            var r2 := RawModifier(dm.(n := n2 as real), d, num);
            r1.Finite? && r2.Finite? &&
            RawModifier(dm.(n := (n1 + n2) as real), d, num) == Finite(r1.v * r2.v)
  {
    var x := Base(dm, d);
    assert (n1 as real).Floor == n1 && (n2 as real).Floor == n2 && ((n1 + n2) as real).Floor == n1 + n2;
    var dm1, dm2, dm12 := dm.(n := n1 as real), dm.(n := n2 as real), dm.(n := (n1 + n2) as real);
    assert IsIntegral(dm1.n) && IsIntegral(dm2.n) && IsIntegral(dm12.n);
    assert Base(dm1, d) == x && Base(dm2, d) == x && Base(dm12, d) == x;
    RawOfNonNegativeWhole(dm1, d, num);
    RawOfNonNegativeWhole(dm2, d, num);
    RawOfNonNegativeWhole(dm12, d, num);
    PowerAdd(x, n1, n2);
  }

  /** For a whole exponent and a non-zero base, exponent `-n` gives the
      reciprocal of exponent `n` (before clamping). */
  lemma NegativeExponentIsReciprocal(dm: DistanceModifier, d: real, num: Numerics)
    requires dm.modifierType == Exponential && IsIntegral(dm.n) && dm.n > 0.0
    requires Base(dm, d) != 0.0
    ensures RawModifier(dm, d, num).Finite?
    ensures RawModifier(dm.(n := -dm.n), d, num).Finite?
    ensures RawModifier(dm, d, num).v * RawModifier(dm.(n := -dm.n), d, num).v == 1.0
  {
    var dm' := dm.(n := -dm.n);
    var x := Base(dm, d);
    assert Base(dm', d) == x;
    var k := dm.n.Floor;
    assert dm'.n == (-k) as real;
    assert dm'.n.Floor == -k;
    RawOfNonNegativeWhole(dm, d, num);
    RawOfNegativeWhole(dm', d, num);
    var p := Power(x, k);
    assert p * (1.0 / p) == 1.0;
  }

  /** A zero base with a negative whole exponent divides by zero: +Infinity,
      which the `boundAtZero` clamp (`result < 0`) leaves alone. */
  lemma ZeroBaseNegativeExponent(dm: DistanceModifier, d: real, num: Numerics)
    requires dm.modifierType == Exponential && IsIntegral(dm.n) && dm.n < 0.0
    requires Base(dm, d) == 0.0
    ensures Modifier(dm, d, num) == Infinite
  {
    assert dm.n.Floor < 0;
  }

  /** Worked values with a = 1, b = 0, d = 3, no clamp: n = 5, 2, 0, -1, -3. */
  lemma IntegerExponentExamples(num: Numerics)
    ensures Modifier(DistanceModifier(Exponential, 20.0, false, 1.0, 0.0, 5.0), 3.0, num) == Finite(243.0)
    ensures Modifier(DistanceModifier(Exponential, 20.0, false, 1.0, 0.0, 2.0), 3.0, num) == Finite(9.0)
    ensures Modifier(DistanceModifier(Exponential, 20.0, false, 1.0, 0.0, 0.0), 3.0, num) == Finite(1.0)
    ensures Modifier(DistanceModifier(Exponential, 20.0, false, 1.0, 0.0, -1.0), 3.0, num) == Finite(1.0 / 3.0)
    ensures Modifier(DistanceModifier(Exponential, 20.0, false, 1.0, 0.0, -3.0), 3.0, num) == Finite(1.0 / 27.0)
  {
    assert (5.0).Floor == 5 && (2.0).Floor == 2 && (0.0).Floor == 0;
    assert (-1.0).Floor == -1 && (-3.0).Floor == -3;
    assert Power(3.0, 5) == 243.0;
    assert Power(3.0, 3) == 27.0;
  }

  /** With boundAtZero, n = 1, a = -1, b = 0, d = 5: the raw -5 becomes 0. */
  lemma BoundAtZeroExample(num: Numerics)
    ensures RawModifier(DistanceModifier(Exponential, 20.0, true, -1.0, 0.0, 1.0), 5.0, num) == Finite(-5.0)
    ensures Modifier(DistanceModifier(Exponential, 20.0, true, -1.0, 0.0, 1.0), 5.0, num) == Finite(0.0)
  {
    assert (1.0).Floor == 1;
    assert Power(-5.0, 1) == -5.0;
  }
}

/** The interval arithmetic of drivers/libsound/src/rules.hpp is as tight as intervals with 32-bit bounds can be. */
module AlsaTightness {
  import opened AlsaIntervals
  import opened AlsaRules
  import opened Common
  import opened Remainders

  /** An interval as intersect_interval() leaves it, with a value in it. */
  predicate Solid(i: Interval) {
    !i.empty && !IsEmptyRange(i) && (i.integer ==> !i.openmin && !i.openmax)
  }

  /** No bound of `other` is further inside than that of i. */
  predicate NoTighter(other: Interval, i: Interval) {
    && other.min <= i.min && (other.min == i.min && other.openmin ==> i.openmin)
    && i.max <= other.max && (i.max == other.max && other.openmax ==> i.openmax)
  }

  ghost predicate InBounds(x: real, i: Interval) { AboveMin(x, i) && BelowMax(x, i) }

  // ---- Values near the bounds ----

  function NearMin(i: Interval, step: real): real { i.min as real + if i.openmin then step else 0.0 }

  function NearMax(i: Interval, step: real): real { i.max as real - if i.openmax then step else 0.0 }

  lemma RoomInside(i: Interval)
    requires Solid(i) && (i.openmin || i.openmax)
    ensures i.min as real + 1.0 <= i.max as real && !i.integer
  {
    assert i.min + 1 <= i.max;
  }

  lemma ClosedIsContained(i: Interval)
    requires Solid(i)
    ensures !i.openmin ==> Contains(i.min as real, i)
    ensures !i.openmax ==> Contains(i.max as real, i)
  {
    assert i.min as real <= i.max as real;
  }

  lemma NearMinIn(i: Interval, step: real)
    requires Solid(i) && 0.0 < step < 1.0
    ensures Contains(NearMin(i, step), i) && i.min as real <= NearMin(i, step) <= i.min as real + step
  {
    if i.openmin { RoomInside(i); } else { ClosedIsContained(i); }
  }

  lemma NearMaxIn(i: Interval, step: real)
    requires Solid(i) && 0.0 < step < 1.0
    ensures Contains(NearMax(i, step), i) && i.max as real - step <= NearMax(i, step) <= i.max as real
    ensures 0.0 <= NearMax(i, step) && (0 < i.max ==> 0.0 < NearMax(i, step))
  {
    if i.openmax { RoomInside(i); } else { ClosedIsContained(i); }
  }

  // ---- Quotients ----

  /** All quotients of contained values lie within the bounds. */
  ghost predicate BoundsQuotients(other: Interval, value: Interval, multiplier: Interval, divisor: Interval) {
    forall x, v, m, d ::
      Contains(v, value) && Contains(m, multiplier) && Contains(d, divisor) && 0.0 < d && SameProduct(x, d, v, m) ==>
      InBounds(x, other)
  }

  lemma SmallStep(k: real) returns (step: real)
    requires 0.0 <= k
    ensures 0.0 < step < 1.0 && step * (k + 2.0) == 1.0 && step * step < step
  {
    step := 1.0 / (k + 2.0);
    assert step * (k + 2.0) == 1.0;
    assert 0.0 < step;
    assert step * k >= 0.0;
    assert step * 2.0 <= 1.0;
    ScaledLess(step, 1.0, step);
  }

  lemma ScaledLess(a: real, b: real, c: real)
    requires a < b && 0.0 < c
    ensures a * c < b * c
  {
    assert (b - a) * c > 0.0;
  }

  lemma ScaledAtMost(a: real, b: real, c: real)
    requires a <= b && 0.0 <= c
    ensures a * c <= b * c && c * a <= c * b
  {
    assert (b - a) * c >= 0.0;
  }

  /** Near the least values, the product stays below what the next integer would need. */
  lemma LowEnough(a: real, b: real, d: real, f: real, step: real, v: real, m: real, e: real)
    requires 0.0 <= a && 0.0 <= b && 0.0 <= f && 0.0 < step < 1.0 && step * (a + b + f + 4.0) == 1.0
    requires step * step < step && a * b + 1.0 <= (f + 1.0) * d
    requires a <= v <= a + step && b <= m <= b + step && d - step <= e
    ensures v * m < (f + 1.0) * e
  {
    var sum := step * a + step * b + step * f;
    assert sum + step * 4.0 == 1.0;
    assert v * m <= a * b + step * a + step * b + step * step by {
      ProductGrows(v, a + step, m, b + step);
      assert (a + step) * (b + step) == a * b + step * a + step * b + step * step;
    }
    assert (f + 1.0) * d - step * f - step <= (f + 1.0) * e by {
      ScaledAtMost(d - step, e, f + 1.0);
      assert (f + 1.0) * (d - step) == (f + 1.0) * d - step * f - step;
    }
  }

  /** Near the greatest values, the product stays above what one less would need. */
  lemma HighEnough(a: real, b: real, d: real, g: real, step: real, v: real, m: real, e: real)
    requires 0.0 <= v && 0.0 <= m && 0.0 <= g && 0.0 < step < 1.0 && step * (a + b + g + 4.0) == 1.0
    requires 1.0 <= a && 1.0 <= b && g * d + 1.0 <= a * b
    requires a - step <= v && b - step <= m && e <= d + step
    ensures g * e < v * m
  {
    ProductGrows(a - step, v, b - step, m);
    assert (a - step) * (b - step) == a * b - step * a - step * b + step * step;
    ScaledAtMost(e, d + step, g);
    assert g * (d + step) == g * d + step * g;
    assert step * a + step * b + step * g + step * 4.0 == 1.0;
  }

  lemma QuotientBelow(x: real, y: real, d: real, top: real)
    requires 0.0 < d && x * d == top
    ensures top < y * d ==> x < y
    ensures y * d < top ==> y < x
    ensures y * d == top ==> x == y
  {
    Cancel(x, y, d);
    Cancel(y, x, d);
  }

  lemma ContainedQuotient(value: Interval, multiplier: Interval, divisor: Interval, v: real, m: real, d: real)
    returns (x: real)
    requires Contains(v, value) && Contains(m, multiplier) && Contains(d, divisor) && 0.0 < d
    ensures x * d == v * m
    ensures forall other :: BoundsQuotients(other, value, multiplier, divisor) ==> InBounds(x, other)
  {
    x := (v * m) / d;
    assert SameProduct(x, d, v, m);
  }

  lemma SmallerProduct(a: nat, b: nat, c: nat, d: nat)
    requires a * b < c * d
    ensures a as real * b as real + 1.0 <= c as real * d as real
  {
    NatProduct(a, b);
    NatProduct(c, d);
  }

  lemma LowPoint(value: Interval, multiplier: Interval, divisor: Interval, f: nat) returns (v: real, m: real, d: real)
    requires Solid(value) && Solid(multiplier) && Solid(divisor) && 0 < divisor.max
    requires value.min * multiplier.min < (f + 1) * divisor.max
    ensures Contains(v, value) && Contains(m, multiplier) && Contains(d, divisor) && 0.0 < d
    ensures v * m < (f as real + 1.0) * d
  {
    var a, b, c, r := value.min as real, multiplier.min as real, divisor.max as real, f as real;
    var step := SmallStep(a + b + r + 2.0);
    NearMinIn(value, step);
    NearMinIn(multiplier, step);
    NearMaxIn(divisor, step);
    SmallerProduct(value.min, multiplier.min, f + 1, divisor.max);
    v, m, d := NearMin(value, step), NearMin(multiplier, step), NearMax(divisor, step);
    LowEnough(a, b, c, r, step, v, m, d);
  }

  /** The integer f + 1 is above some quotient if f is the least one, rounded down. */
  lemma LowQuotient(value: Interval, multiplier: Interval, divisor: Interval, f: nat) returns (x: real)
    requires Solid(value) && Solid(multiplier) && Solid(divisor) && 0 < divisor.max
    requires value.min * multiplier.min < (f + 1) * divisor.max
    ensures x < f as real + 1.0
    ensures forall other :: BoundsQuotients(other, value, multiplier, divisor) ==> InBounds(x, other)
  {
    var v, m, d := LowPoint(value, multiplier, divisor, f);
    x := ContainedQuotient(value, multiplier, divisor, v, m, d);
    QuotientBelow(x, f as real + 1.0, d, v * m);
  }

  lemma PositiveFactors(a: nat, b: nat)
    requires 0 < a * b
    ensures 0 < a && 0 < b
  {
  }

  lemma HighPoint(value: Interval, multiplier: Interval, divisor: Interval, g: nat) returns (v: real, m: real, d: real)
    requires Solid(value) && Solid(multiplier) && Solid(divisor) && 0 < divisor.min
    requires g * divisor.min < value.max * multiplier.max
    ensures Contains(v, value) && Contains(m, multiplier) && Contains(d, divisor) && 0.0 < d
    ensures g as real * d < v * m
  {
    var a, b, c, r := value.max as real, multiplier.max as real, divisor.min as real, g as real;
    PositiveFactors(value.max, multiplier.max);
    var step := SmallStep(a + b + r + 2.0);
    NearMaxIn(value, step);
    NearMaxIn(multiplier, step);
    NearMinIn(divisor, step);
    SmallerProduct(g, divisor.min, value.max, multiplier.max);
    v, m, d := NearMax(value, step), NearMax(multiplier, step), NearMin(divisor, step);
    HighEnough(a, b, c, r, step, v, m, d);
  }

  /** The integer g is below some quotient if g + 1 is the greatest one, rounded up. */
  lemma HighQuotient(value: Interval, multiplier: Interval, divisor: Interval, g: nat) returns (x: real)
    requires Solid(value) && Solid(multiplier) && Solid(divisor) && 0 < divisor.min
    requires g * divisor.min < value.max * multiplier.max
    ensures (g as real) < x
    ensures forall other :: BoundsQuotients(other, value, multiplier, divisor) ==> InBounds(x, other)
  {
    var v, m, d := HighPoint(value, multiplier, divisor, g);
    x := ContainedQuotient(value, multiplier, divisor, v, m, d);
    QuotientBelow(x, g as real, d, v * m);
  }

  /** A closed bound is reached, if it is an integer quotient. */
  lemma ReachedQuotient(value: Interval, multiplier: Interval, divisor: Interval, other: Interval,
                        a: nat, b: nat, d: nat, q: nat)
    requires Contains(a as real, value) && Contains(b as real, multiplier) && Contains(d as real, divisor) && 0 < d
    requires q * d == a * b && BoundsQuotients(other, value, multiplier, divisor)
    ensures InBounds(q as real, other)
  {
    NatProduct(q, d);
    NatProduct(a, b);
    assert SameProduct(q as real, d as real, a as real, b as real);
  }

  lemma LowerIsTight(value: Interval, multiplier: Interval, divisor: Interval, other: Interval)
    requires Solid(value) && Solid(multiplier) && Solid(divisor) && 0 < divisor.max
    requires value.min * multiplier.min / divisor.max <= UMAX && BoundsQuotients(other, value, multiplier, divisor)
    ensures var r := Quotient(value, multiplier, divisor);
            other.min <= r.min && (other.min == r.min && other.openmin ==> r.openmin)
  {
    var n, d := value.min * multiplier.min, divisor.max;
    var f := n / d;
    DivisionSteps(n, d);
    var x := LowQuotient(value, multiplier, divisor, f);
    assert InBounds(x, other);
    BelowNext(x, other.min, f);
    if n % d == 0 && !value.openmin && !multiplier.openmin && !divisor.openmax {
      ClosedIsContained(value);
      ClosedIsContained(multiplier);
      ClosedIsContained(divisor);
      ReachedQuotient(value, multiplier, divisor, other, value.min, multiplier.min, d, f);
    }
  }

  lemma DivisionSteps(n: nat, d: nat)
    requires 0 < d
    ensures n < (n / d + 1) * d && (n % d == 0 ==> (n / d) * d == n) && (n % d != 0 ==> (n / d) * d < n)
  {
    assert n == (n / d) * d + n % d;
  }

  lemma BelowNext(x: real, min: nat, f: nat)
    requires min as real <= x < f as real + 1.0
    ensures min <= f
  {
    assert min as real < (f + 1) as real;
  }

  lemma AboveLast(x: real, max: nat, g: nat)
    requires g as real < x <= max as real
    ensures g < max
  {
    assert g as real < max as real;
  }

  lemma UpperIsTight(value: Interval, multiplier: Interval, divisor: Interval, other: Interval)
    requires Solid(value) && Solid(multiplier) && Solid(divisor) && 0 < divisor.min
    requires value.max * multiplier.max / divisor.min <= UMAX && !UpperWraps(value.max * multiplier.max, divisor.min)
    requires BoundsQuotients(other, value, multiplier, divisor)
    ensures var r := Quotient(value, multiplier, divisor);
            r.max <= other.max && (r.max == other.max && other.openmax ==> r.openmax)
  {
    var n, d := value.max * multiplier.max, divisor.min;
    var r := Quotient(value, multiplier, divisor);
    DivisionSteps(n, d);
    if 0 < r.max {
      assert (r.max - 1) * d < n by { if n % d == 0 { assert (r.max - 1) * d == r.max * d - d; } }
      var x := HighQuotient(value, multiplier, divisor, r.max - 1);
      assert InBounds(x, other);
      AboveLast(x, other.max, r.max - 1);
    }
    if n % d == 0 && !value.openmax && !multiplier.openmax && !divisor.openmin {
      ClosedIsContained(value);
      ClosedIsContained(multiplier);
      ClosedIsContained(divisor);
      ReachedQuotient(value, multiplier, divisor, other, value.max, multiplier.max, d, n / d);
    }
  }

  /** No interval that holds all quotients of contained values has tighter bounds, unless a bound leaves the 32 bits. */
  lemma QuotientIsTight(value: Interval, multiplier: Interval, divisor: Interval, other: Interval)
    requires Solid(value) && Solid(multiplier) && Solid(divisor) && 0 < divisor.min
    requires value.max * multiplier.max / divisor.min <= UMAX && !UpperWraps(value.max * multiplier.max, divisor.min)
    requires BoundsQuotients(other, value, multiplier, divisor)
    ensures NoTighter(other, Quotient(value, multiplier, divisor))
  {
    LeastBelowGreatest(value, multiplier, divisor);
    LowerIsTight(value, multiplier, divisor, other);
    UpperIsTight(value, multiplier, divisor, other);
  }

  lemma LeastBelowGreatest(value: Interval, multiplier: Interval, divisor: Interval)
    requires Solid(value) && Solid(multiplier) && Solid(divisor) && 0 < divisor.min
    ensures value.min * multiplier.min / divisor.max <= value.max * multiplier.max / divisor.min
  {
    var n, d, n', d' := value.min * multiplier.min, divisor.max, value.max * multiplier.max, divisor.min;
    ProductsGrow(value.min, multiplier.min, value.max, multiplier.max);
    DivisionSteps(n, d);
    ProductsGrow(n / d, d', n / d, d);
    DivisionSteps(n', d');
    if n' / d' < n / d { ProductsGrow(n' / d' + 1, d', n / d, d'); }
  }

  // ---- Products ----

  ghost predicate BoundsProducts(other: Interval, value: Interval, multiplier: Interval) {
    forall v, m :: Contains(v, value) && Contains(m, multiplier) ==> InBounds(v * m, other)
  }

  /** Without saturation, no interval that holds all products of contained values has tighter bounds. */
  lemma MulIsTight(value: Interval, multiplier: Interval, other: Interval)
    requires Fits(value) && Fits(multiplier) && Solid(value) && Solid(multiplier)
    requires value.max * multiplier.max <= UMAX && BoundsProducts(other, value, multiplier)
    ensures NoTighter(other, IntervalMul(value, multiplier))
  {
    var one := Exactly(1);
    forall x, v, m, d | Contains(v, value) && Contains(m, multiplier) && Contains(d, one) && 0.0 < d
                        && SameProduct(x, d, v, m)
      ensures InBounds(x, other)
    {
      assert d == 1.0 && x == v * m;
    }
    assert value.max * multiplier.max / 1 == value.max * multiplier.max;
    QuotientIsTight(value, multiplier, one, other);
    ProductsGrow(value.min, multiplier.min, value.max, multiplier.max);
    assert Quotient(value, multiplier, one).min == value.min * multiplier.min;
    assert Quotient(value, multiplier, one).max == value.max * multiplier.max;
  }

  /** Integers with an open bound are the exception: the products of the integers above 2 with 3 start at 9. */
  lemma OpenIntegersAreLoose()
    ensures var value, multiplier := Interval(2, 5, true, false, true, false), Exactly(3);
            var other := Interval(9, 15, false, false, false, false);
            BoundsProducts(other, value, multiplier) && !NoTighter(other, IntervalMul(value, multiplier))
  {
    var value, multiplier := Interval(2, 5, true, false, true, false), Exactly(3);
    forall v, m | Contains(v, value) && Contains(m, multiplier)
      ensures InBounds(v * m, Interval(9, 15, false, false, false, false))
    {
      NextInteger(v.Floor, 2);
      assert m == 3.0 && 3.0 <= v <= 5.0;
    }
  }

  /** The product interval holds all products of contained values, if they are positive and not too large. */
  lemma HoldsProducts(value: Interval, multiplier: Interval)
    requires Fits(value) && Fits(multiplier) && !value.empty && !multiplier.empty
    requires 0 < value.min && 0 < multiplier.min && value.max * multiplier.max <= UMAX
    ensures BoundsProducts(IntervalMul(value, multiplier), value, multiplier)
  {
    forall v, m | Contains(v, value) && Contains(m, multiplier)
      ensures InBounds(v * m, IntervalMul(value, multiplier))
    {
      LeastProduct(v, m, value, multiplier);
      GreatestProduct(v, m, value, multiplier);
      MinAtMostMax(v, value);
      MinAtMostMax(m, multiplier);
      ProductsGrow(value.min, multiplier.min, value.max, multiplier.max);
    }
  }

  lemma MinAtMostMax(x: real, i: Interval)
    requires Contains(x, i)
    ensures i.min <= i.max
  {
    assert i.min as real <= i.max as real;
  }

  /** Rounding the bounds of an integer interval does not change what it contains. */
  lemma RoundedContains(x: real, i: Interval)
    requires Fits(i) && !i.empty && !RoundWraps(i)
    ensures Contains(x, Round(i)) <==> Contains(x, i)
  {
    if Within(x, i) { RoundKeeps(x, i); }
    if Within(x, Round(i)) { RoundIsTight(x, i); }
  }

  lemma SameProducts(value: Interval, multiplier: Interval, other: Interval)
    requires Fits(value) && Fits(multiplier) && !value.empty && !multiplier.empty
    requires !RoundWraps(value) && !RoundWraps(multiplier)
    ensures BoundsProducts(other, Round(value), Round(multiplier)) <==> BoundsProducts(other, value, multiplier)
  {
    forall x ensures Contains(x, Round(value)) <==> Contains(x, value) { RoundedContains(x, value); }
    forall x ensures Contains(x, Round(multiplier)) <==> Contains(x, multiplier) { RoundedContains(x, multiplier); }
  }

  /** A product of positive intervals is tight exactly if rounding them first does not make it tighter. */
  lemma MulIsTightIff(value: Interval, multiplier: Interval)
    requires Fits(value) && Fits(multiplier) && !value.empty && !multiplier.empty
    requires !RoundWraps(value) && !RoundWraps(multiplier)
    requires !IsEmptyRange(Round(value)) && !IsEmptyRange(Round(multiplier))
    requires 0 < value.min && 0 < multiplier.min && value.max * multiplier.max <= UMAX
    ensures (forall other :: BoundsProducts(other, value, multiplier) ==>
               NoTighter(other, IntervalMul(value, multiplier))) <==>
            NoTighter(IntervalMul(Round(value), Round(multiplier)), IntervalMul(value, multiplier))
  {
    var v, m := Round(value), Round(multiplier);
    ProductsGrow(v.max, m.max, value.max, multiplier.max);
    HoldsProducts(v, m);
    SameProducts(value, multiplier, IntervalMul(v, m));
    forall other | BoundsProducts(other, value, multiplier) ensures NoTighter(other, IntervalMul(v, m)) {
      SameProducts(value, multiplier, other);
      MulIsTight(v, m, other);
    }
  }

  // ---- The rules ----

  /** intervalDiv() and both forms of intervalMulDiv() are quotients. */
  lemma DivIsTight(value: Interval, divisor: Interval, other: Interval)
    requires Fits(value) && Solid(value) && Solid(divisor) && 0 < divisor.min
    requires BoundsQuotients(other, value, Exactly(1), divisor)
    ensures NoTighter(other, IntervalDiv(value, divisor))
  {
    var n := value.max * Exactly(1).max;
    assert n == value.max;
    QuotientAtMost(n, divisor.min);
    DivNeverWraps(n, divisor.min);
    QuotientIsTight(value, Exactly(1), divisor, other);
  }

  lemma ScaleIsTight(value: Interval, k: nat, divisor: Interval, other: Interval)
    requires Solid(value) && Solid(divisor) && 0 < divisor.min && value.max * k < UMAX * divisor.min
    requires BoundsQuotients(other, value, Exactly(k), divisor)
    ensures NoTighter(other, IntervalScale(value, k, divisor))
  {
    SmallQuotient(value.max * k, divisor.min);
    QuotientIsTight(value, Exactly(k), divisor, other);
  }

  lemma MulDivIsTight(value: Interval, multiplier: Interval, k: nat, other: Interval)
    requires Solid(value) && Solid(multiplier) && 0 < k && value.max * multiplier.max < UMAX * k
    requires BoundsQuotients(other, value, multiplier, Exactly(k))
    ensures NoTighter(other, IntervalMulDiv(value, multiplier, k))
  {
    SmallQuotient(value.max * multiplier.max, k);
    QuotientIsTight(value, multiplier, Exactly(k), other);
  }

  /** Both bounds that the formats give are sizes of formats. */
  lemma FormatBitsIsTight(sizes: set<nat>)
    requires sizes != {} && sizes <= {8, 16, 20, 24, 32}
    ensures FormatBits(sizes).min in sizes && FormatBits(sizes).max in sizes
    ensures forall b :: b in sizes ==> FormatBits(sizes).min <= b <= FormatBits(sizes).max
  {
    var b :| b in sizes;
    assert b in {8, 16, 20, 24, 32};
    forall c | c in sizes ensures FormatBits(sizes).min <= c <= FormatBits(sizes).max {
      assert c in {8, 16, 20, 24, 32};
    }
  }

  ghost predicate SatisfiesAll(x: Values, sizes: set<nat>)
    requires |x| == COUNT
  {
    forall k: nat :: k < 19 ==> RuleOk(CommonRule(k, sizes)) && Satisfies(x, CommonRule(k, sizes))
  }

  lemma RulesImplyEquations(x: Values, sizes: set<nat>)
    requires InRange(x) && sizes != {} && SatisfiesAll(x, sizes)
    ensures Equations(x) && exists b: nat :: IsSize(x[SAMPLE_BITS], b, sizes)
  {
    assert Satisfies(x, CommonRule(0, sizes)) && Satisfies(x, CommonRule(2, sizes));
    assert Satisfies(x, CommonRule(15, sizes)) && Satisfies(x, CommonRule(16, sizes));
    assert Satisfies(x, CommonRule(17, sizes)) && Satisfies(x, CommonRule(18, sizes));
    assert Satisfies(x, CommonRule(12, sizes));
  }

  /** The common rules say no less than the equations: together they are equivalent to them. */
  lemma RulesAreEquations(x: Values, sizes: set<nat>)
    requires InRange(x) && sizes <= {8, 16, 20, 24, 32} && sizes != {}
    ensures SatisfiesAll(x, sizes) <==> Equations(x) && exists b: nat :: IsSize(x[SAMPLE_BITS], b, sizes)
  {
    if SatisfiesAll(x, sizes) { RulesImplyEquations(x, sizes); }
    if Equations(x) {
      forall b: nat, k: nat | IsSize(x[SAMPLE_BITS], b, sizes) && k < 19
        ensures RuleOk(CommonRule(k, sizes)) && Satisfies(x, CommonRule(k, sizes))
      {
        EquationsSatisfyRules(x, sizes, b, k);
      }
    }
  }

  /** The parameters of the six equations. */
  function Related(equation: nat): seq<nat>
    requires equation < 6
  {
    match equation
    case 0 => [SAMPLE_BITS, FRAME_BITS, CHANNELS]
    case 1 => [FRAME_BITS, PERIOD_SIZE, PERIOD_BYTES]
    case 2 => [FRAME_BITS, BUFFER_SIZE, BUFFER_BYTES]
    case 3 => [RATE, PERIOD_SIZE, PERIOD_TIME]
    case 4 => [RATE, BUFFER_SIZE, BUFFER_TIME]
    case _ => [PERIODS, PERIOD_SIZE, BUFFER_SIZE]
  }

  /** Which rule derives a parameter of an equation from the other two. */
  function RuleFor(equation: nat, i: nat): (k: nat)
    requires equation < 6 && i < 3
    ensures 0 < k < 19
  {
    [[1, 2, 5], [3, 10, 15], [4, 13, 16], [6, 11, 17], [7, 14, 18], [8, 9, 12]][equation][i]
  }

  /** There is a rule for every parameter of every equation, and each of these rules is for one of them. */
  lemma EveryParameterIsDerived(equation: nat, i: nat, sizes: set<nat>)
    requires equation < 6 && i < 3
    ensures var rule, params := CommonRule(RuleFor(equation, i), sizes), Related(equation);
            |params| == 3 && What(rule) == params[i] &&
            Dependencies(rule) == {params[(i + 1) % 3], params[(i + 2) % 3]}
    ensures forall e: nat, j: nat :: e < 6 && j < 3 && RuleFor(e, j) == RuleFor(equation, i) ==> e == equation && j == i
  {
  }

  function UpToFour(): Interval { Interval(0, 4, false, false, false, false) }

  function AllUpToFour(): (p: Intervals)
    ensures IntervalsOk(p)
  {
    seq(COUNT, _ => UpToFour())
  }

  /**
   A rule declares no dependency in vain: whether the interval of the parameter is empty makes a
   difference to the constraint. Limits depend on their own parameter only.
   */
  lemma DependenciesAreNeeded(rule: Rule, d: nat)
    requires RuleOk(rule) && d in Dependencies(rule) && d < COUNT
    ensures rule.Limit? ==> d == What(rule)
    ensures var p, p' := AllUpToFour(), AllUpToFour()[d := UpToFour().(empty := true)];
            !rule.Limit? ==>
              !Undefined(rule, p) && !Undefined(rule, p') && !Constraint(rule, p).empty && Constraint(rule, p').empty
  {
    var p, p' := AllUpToFour(), AllUpToFour()[d := UpToFour().(empty := true)];
    match rule
    case AlignPeriodBytes(step) => StepOfFour(step);
    case Pow2PeriodBytes => Pow2OfFour();
    case Mul(_, a, b) => assert Constraint(rule, p) == IntervalMul(p[a], p[b]);
    case Div(_, a, b) => assert Constraint(rule, p) == IntervalDiv(p[a], p[b]);
    case _ =>
  }

  lemma StepOfFour(step: nat)
    requires step > 0
    ensures !IntervalStep(UpToFour(), step).empty && IntervalStep(UpToFour().(empty := true), step).empty
  {
  }

  lemma Pow2OfFour()
    ensures !Pow2Undefined(UpToFour()) && !Pow2Undefined(UpToFour().(empty := true))
    ensures !IntervalPow2(UpToFour()).empty && IntervalPow2(UpToFour().(empty := true)).empty
  {
    assert BitCeil(0) == 1 && IsPowerOfTwo(4) by { assert IsPowerOfTwo(2) && IsPowerOfTwo(1); }
  }

  // ---- Alignment ----

  /** The new bounds are the multiples of the step next to the old ones. */
  lemma StepIsTight(i: Interval, step: nat, k: nat)
    requires step > 0 && Fits(i) && !StepWraps(i, step)
    ensures var r := IntervalStep(i, step);
            && r.min % step == 0 && AboveMin(r.min as real, i) && r.max % step == 0 && r.max <= i.max
            && (AboveMin((k * step) as real, i) ==> r.min <= k * step)
            && (BelowMax((k * step) as real, i) ==> k * step <= r.max)
            && !r.openmin && !r.openmax
  {
    MultiplesAround(i.min, step, k);
    MultiplesAround(i.max, step, k);
    NextMultiple(i.min, step);
    LastMultiple(i.max, step);
  }

  lemma NextMultiple(n: nat, step: nat)
    requires step > 0
    ensures (n + (step - n % step)) % step == 0
  {
    var q := n / step;
    assert n == q * step + n % step;
    assert n + (step - n % step) == (q + 1) * step + 0;
    MultipleOf(q + 1, step);
  }

  lemma LastMultiple(n: nat, step: nat)
    requires step > 0
    ensures (n - n % step) % step == 0
  {
    var q := n / step;
    assert n - n % step == q * step;
    MultipleOf(q, step);
  }

  lemma MultipleOf(q: nat, step: nat)
    requires step > 0
    ensures (q * step) % step == 0
  {
    RemainderIsUnique(q * step, q, 0, step);
  }

  /** An open upper bound that is itself a multiple is closed, although it is not in the interval; else none is. */
  lemma StepMaxInsideIff(i: Interval, step: nat)
    requires step > 0 && Fits(i) && !StepWraps(i, step)
    ensures BelowMax(IntervalStep(i, step).max as real, i) <==> !(i.openmax && i.max % step == 0)
  {
  }

  // ---- Powers of two ----

  /** The new bounds are the powers of two next to the old ones; the interval is empty if there is none between. */
  lemma Pow2IsTight(i: Interval, p: nat)
    requires Fits(i) && !Pow2Undefined(i) && Least(i) <= UMAX && 0 <= Greatest(i)
    ensures var r := IntervalPow2(i);
            && IsPowerOfTwo(r.min) && AboveMin(r.min as real, i)
            && (IsPowerOfTwo(p) && AboveMin(p as real, i) ==> r.min <= p)
            && (r.max == 0 || IsPowerOfTwo(r.max)) && BelowMax(r.max as real, i)
            && (IsPowerOfTwo(p) && BelowMax(p as real, i) ==> p <= r.max)
            && !r.openmin && !r.openmax
            && (r.empty <==> i.empty || r.min > r.max)
  {
    var r := IntervalPow2(i);
    LeastInteger(p, i);
    GreatestInteger(p, i);
    LeastInteger(r.min, i);
    GreatestInteger(r.max, i);
    if IsPowerOfTwo(p) && Least(i) <= p { BitCeilIsLeast(Least(i), p); }
    if IsPowerOfTwo(p) && p <= Greatest(i) { BitFloorIsGreatest(Greatest(i), p); }
  }
}

/** The interval arithmetic of drivers/libsound/src/rules.hpp and what it means for real values. */
module AlsaIntervals {
  import opened Common

  const UMAX: nat := 0xFFFF_FFFF

  datatype Interval = Interval(min: nat, max: nat, openmin: bool, openmax: bool, integer: bool, empty: bool)

  predicate Fits(i: Interval) { i.min <= UMAX && i.max <= UMAX }

  ghost predicate IsInteger(x: real) { x == x.Floor as real }

  ghost predicate AboveMin(x: real, i: Interval) { if i.openmin then i.min as real < x else i.min as real <= x }

  ghost predicate BelowMax(x: real, i: Interval) { if i.openmax then x < i.max as real else x <= i.max as real }

  /** A value within the bounds of an interval. */
  ghost predicate Within(x: real, i: Interval) {
    AboveMin(x, i) && BelowMax(x, i) && (i.integer ==> IsInteger(x))
  }

  ghost predicate Contains(x: real, i: Interval) { !i.empty && Within(x, i) }

  // ---- intersect_interval() ----

  predicate IsEmptyRange(i: Interval) { i.min > i.max || (i.min == i.max && (i.openmin || i.openmax)) }

  function TightenMin(range: Interval, other: Interval): Interval {
    if other.min > range.min then range.(min := other.min, openmin := other.openmin)
    else if other.min == range.min then range.(openmin := range.openmin || other.openmin)
    else range
  }

  function TightenMax(range: Interval, other: Interval): Interval {
    if other.max < range.max then range.(max := other.max, openmax := other.openmax)
    else if other.max == range.max then range.(openmax := range.openmax || other.openmax)
    else range
  }

  /** The bounds and the integer flag of both. */
  function Tighten(range: Interval, other: Interval): Interval {
    TightenMax(TightenMin(range, other), other).(integer := range.integer || other.integer)
  }

  /** Rounding would leave the 32 bits. */
  predicate RoundWraps(i: Interval) {
    i.integer && ((i.openmin && i.min == UMAX) || (i.openmax && i.max == 0))
  }

  /** Open bounds of integer intervals move to the next integer, modulo 2^32. */
  function Round(i: Interval): Interval {
    if i.integer then
      i.(min := if !i.openmin then i.min else if i.min == UMAX then 0 else i.min + 1, openmin := false,
         max := if !i.openmax then i.max else if i.max == 0 then UMAX else i.max - 1, openmax := false)
    else if !i.openmin && !i.openmax && i.min == i.max then i.(integer := true)
    else i
  }

  function Intersect(range: Interval, other: Interval): (r: Interval)
    ensures Fits(range) && Fits(other) ==> Fits(r)
  {
    var i := Round(Tighten(range, other));
    i.(empty := IsEmptyRange(i))
  }

  predicate MinChanges(range: Interval, other: Interval) {
    other.min > range.min || (other.min == range.min && other.openmin && !range.openmin)
  }

  predicate MaxChanges(range: Interval, other: Interval) {
    other.max < range.max || (other.max == range.max && other.openmax && !range.openmax)
  }

  /** The flag that intersect_interval() computes along the way. */
  predicate Changes(range: Interval, other: Interval) {
    || MinChanges(range, other) || MaxChanges(range, other) || (other.integer && !range.integer)
    || Intersect(range, other).empty != range.empty
  }

  lemma NextInteger(k: int, n: int)
    ensures n as real < k as real ==> (n + 1) as real <= k as real
    ensures k as real < n as real ==> k as real <= (n - 1) as real
  {
    if n as real < k as real { assert n < k; }
    if k as real < n as real { assert k < n; }
  }

  lemma TightenMinKeeps(x: real, range: Interval, other: Interval)
    requires Within(x, range) && Within(x, other)
    ensures Within(x, TightenMin(range, other))
  {
  }

  lemma TightenMaxKeeps(x: real, range: Interval, other: Interval)
    requires Within(x, range) && Within(x, other)
    ensures Within(x, TightenMax(range, other))
  {
  }

  lemma TightenKeeps(x: real, range: Interval, other: Interval)
    requires Within(x, range) && Within(x, other)
    ensures Within(x, Tighten(range, other))
  {
    TightenMinKeeps(x, range, other);
    TightenMaxKeeps(x, TightenMin(range, other), other);
  }

  lemma RoundMinKeeps(x: real, i: Interval)
    requires AboveMin(x, i) && IsInteger(x) && i.integer && x <= UMAX as real
    ensures AboveMin(x, Round(i)) && !(i.openmin && i.min == UMAX)
  {
    NextInteger(x.Floor, i.min);
  }

  lemma RoundMaxKeeps(x: real, i: Interval)
    requires BelowMax(x, i) && IsInteger(x) && i.integer && 0.0 <= x
    ensures BelowMax(x, Round(i)) && !(i.openmax && i.max == 0)
  {
    NextInteger(x.Floor, i.max);
  }

  lemma OnlyValue(x: real, n: nat)
    requires n as real <= x <= n as real
    ensures IsInteger(x)
  {
  }

  lemma RoundKeeps(x: real, i: Interval)
    requires Within(x, i) && Fits(i)
    ensures Within(x, Round(i)) && !RoundWraps(i)
  {
    if i.integer {
      assert 0.0 <= i.min as real && i.max as real <= UMAX as real;
      RoundMinKeeps(x, i);
      RoundMaxKeeps(x, i);
    } else if i.min == i.max && !i.openmin && !i.openmax {
      OnlyValue(x, i.min);
    }
  }

  lemma WithinIsNotEmpty(x: real, i: Interval)
    requires Within(x, i)
    ensures !IsEmptyRange(i)
  {
    assert i.min as real <= i.max as real;
  }

  /** A value in both intervals is in the intersection; then nothing wraps around. */
  lemma IntersectKeeps(x: real, range: Interval, other: Interval)
    requires Contains(x, range) && Within(x, other) && Fits(range) && Fits(other)
    ensures Contains(x, Intersect(range, other)) && !RoundWraps(Tighten(range, other))
  {
    TightenKeeps(x, range, other);
    RoundKeeps(x, Tighten(range, other));
    WithinIsNotEmpty(x, Round(Tighten(range, other)));
  }

  lemma RoundIsTight(x: real, i: Interval)
    requires Within(x, Round(i)) && Fits(i) && !RoundWraps(i)
    ensures Within(x, i)
  {
    assert (i.min + 1) as real == i.min as real + 1.0;
    assert (i.max - 1) as real == i.max as real - 1.0;
  }

  lemma TightenIsTight(x: real, range: Interval, other: Interval)
    requires Within(x, Tighten(range, other))
    ensures Within(x, range) && Within(x, other)
  {
  }

  /** A value of the intersection was in both intervals. */
  lemma IntersectIsTight(x: real, range: Interval, other: Interval)
    requires Within(x, Intersect(range, other)) && Fits(range) && Fits(other) && !RoundWraps(Tighten(range, other))
    ensures Within(x, range) && Within(x, other)
  {
    RoundIsTight(x, Tighten(range, other));
    TightenIsTight(x, range, other);
  }

  // ---- Changes ----

  /** Integer intervals have closed bounds, and single values are known to be integers. */
  predicate Normalized(i: Interval) {
    && (i.integer ==> !i.openmin && !i.openmax)
    && (!i.openmin && !i.openmax && i.min == i.max ==> i.integer)
  }

  lemma IntersectNormalizes(range: Interval, other: Interval)
    ensures Normalized(Intersect(range, other))
  {
  }

  lemma UnchangedBounds(range: Interval, other: Interval)
    requires !MinChanges(range, other) && !MaxChanges(range, other) && (other.integer ==> range.integer)
    ensures Tighten(range, other) == range
  {
  }

  /** What is not reported as a change is none. */
  lemma UnchangedIsSame(range: Interval, other: Interval)
    requires Normalized(range) && !Changes(range, other)
    ensures Intersect(range, other) == range && !RoundWraps(Tighten(range, other))
  {
    UnchangedBounds(range, other);
  }

  /** Other intervals change without a report for some constraint, unless their empty flag is wrong. */
  lemma SilentIff(range: Interval)
    requires Fits(range)
    ensures Normalized(range) || range.empty != IsEmptyRange(Round(range)) <==>
            forall other :: Fits(other) && !Changes(range, other) ==> Intersect(range, other) == range
  {
    forall other | range.empty != IsEmptyRange(Round(range)) ensures Changes(range, other) {
      if !MinChanges(range, other) && !MaxChanges(range, other) && (other.integer ==> range.integer) {
        UnchangedBounds(range, other);
      }
    }
    forall other | Normalized(range) && Fits(other) && !Changes(range, other) ensures Intersect(range, other) == range {
      UnchangedIsSame(range, other);
    }
    var anything := Interval(0, UMAX, false, false, false, false);
    UnchangedBounds(range, anything);
  }

  lemma TightBounds(range: Interval, other: Interval)
    requires !RoundWraps(Tighten(range, other))
    ensures var r := Intersect(range, other);
            !MinChanges(r, other) && !MaxChanges(r, other) && (other.integer ==> r.integer)
  {
  }

  /** Intersecting twice is intersecting once. */
  lemma IntersectIsStable(range: Interval, other: Interval)
    requires !RoundWraps(Tighten(range, other))
    ensures var r := Intersect(range, other); !Changes(r, other) && !RoundWraps(Tighten(r, other))
  {
    var r := Intersect(range, other);
    TightBounds(range, other);
    UnchangedBounds(r, other);
    IntersectNormalizes(range, other);
  }

  lemma TighterBounds(range: Interval, other: Interval, more: Interval)
    requires !MinChanges(range, other) && !MaxChanges(range, other) && (other.integer ==> range.integer)
    requires !RoundWraps(Tighten(range, more))
    ensures var r := Intersect(range, more);
            !MinChanges(r, other) && !MaxChanges(r, other) && (other.integer ==> r.integer)
  {
  }

  /** A constraint that changes nothing still changes nothing once the interval has shrunk. */
  lemma StaysStable(range: Interval, other: Interval, more: Interval)
    requires !Changes(range, other) && !RoundWraps(Tighten(range, more))
    ensures var r := Intersect(range, more); !Changes(r, other) && !RoundWraps(Tighten(r, other))
  {
    var r := Intersect(range, more);
    TighterBounds(range, other, more);
    UnchangedBounds(r, other);
    IntersectNormalizes(range, more);
  }

  // ---- Termination ----

  /** 0 once the interval is known to be empty, 2 while the empty flag is wrong. */
  function FlagRank(i: Interval): nat {
    if i.empty then (if IsEmptyRange(i) then 0 else 2) else 1
  }

  function MinRank(i: Interval): int { 2 * UMAX + 1 - (2 * i.min + if i.openmin then 1 else 0) }

  function MaxRank(i: Interval): int { 2 * i.max + 1 - if i.openmax then 1 else 0 }

  function IntegerRank(i: Interval): nat { if i.integer then 0 else 1 }

  /** Falls whenever intersect_interval() changes something. */
  function Rank(i: Interval): (r: nat)
    requires Fits(i)
  {
    MinRank(i) + MaxRank(i) + IntegerRank(i) + FlagRank(i)
  }

  lemma TightenDescends(range: Interval, other: Interval)
    ensures var t := Tighten(range, other);
            && MinRank(t) <= MinRank(range) && MaxRank(t) <= MaxRank(range) && IntegerRank(t) <= IntegerRank(range)
            && (MinChanges(range, other) ==> MinRank(t) < MinRank(range))
            && (MaxChanges(range, other) ==> MaxRank(t) < MaxRank(range))
            && (other.integer && !range.integer ==> IntegerRank(t) < IntegerRank(range))
  {
  }

  lemma TightenStaysEmpty(range: Interval, other: Interval)
    requires IsEmptyRange(range)
    ensures IsEmptyRange(Tighten(range, other))
  {
  }

  lemma RoundDescends(i: Interval)
    requires !RoundWraps(i)
    ensures MinRank(Round(i)) <= MinRank(i) && MaxRank(Round(i)) <= MaxRank(i)
    ensures IntegerRank(Round(i)) <= IntegerRank(i)
    ensures IsEmptyRange(i) ==> IsEmptyRange(Round(i))
  {
  }

  lemma IntersectDescends(range: Interval, other: Interval)
    requires Fits(range) && Fits(other) && !RoundWraps(Tighten(range, other))
    ensures Rank(Intersect(range, other)) <= Rank(range)
    ensures Changes(range, other) ==> Rank(Intersect(range, other)) < Rank(range)
  {
    TightenDescends(range, other);
    if IsEmptyRange(range) { TightenStaysEmpty(range, other); }
    RoundDescends(Tighten(range, other));
  }

  /** Bounds only move inwards. */
  lemma BoundsShrink(range: Interval, other: Interval)
    requires !RoundWraps(Tighten(range, other))
    ensures range.min <= Intersect(range, other).min && Intersect(range, other).max <= range.max
  {
  }

  // ---- Products ----

  /** safeMul32() saturates. */
  function SafeMul(value: nat, multiplier: nat): (r: nat)
    requires value <= UMAX && multiplier <= UMAX
    ensures r == if value * multiplier > UMAX then UMAX else value * multiplier
  {
    if value == 0 then 0
    else
      DivisionBound(UMAX, value, multiplier);
      if UMAX / value < multiplier then UMAX else value * multiplier
  }

  lemma DivisionBound(limit: nat, value: nat, multiplier: nat)
    requires value > 0
    ensures limit / value < multiplier <==> value * multiplier > limit
  {
    var q, r := limit / value, limit % value;
    assert limit == q * value + r;
    if q < multiplier {
      assert (q + 1) * value <= multiplier * value;
    } else {
      assert multiplier * value <= q * value;
    }
  }

  function EmptyInterval(): Interval { Interval(0, 0, false, false, false, true) }

  function IntervalMul(value: Interval, multiplier: Interval): (r: Interval)
    requires Fits(value) && Fits(multiplier)
    ensures Fits(r)
  {
    if value.empty || multiplier.empty then EmptyInterval()
    else
      Interval(SafeMul(value.min, multiplier.min), SafeMul(value.max, multiplier.max),
               value.openmin || multiplier.openmin, value.openmax || multiplier.openmax,
               value.integer && multiplier.integer, false)
  }

  ghost predicate IsProduct(x: real, v: real, m: real) { x == v * m }

  ghost predicate SameProduct(x: real, d: real, v: real, m: real) { x * d == v * m }

  lemma ProductGrows(a: real, v: real, b: real, m: real)
    requires 0.0 <= a <= v && 0.0 <= b <= m
    ensures a * b <= v * m
    ensures (a < v && 0.0 < m) || (b < m && 0.0 < v) ==> a * b < v * m
  {
    assert v * m - a * b == (v - a) * m + a * (m - b);
    assert v * m - a * b == v * (m - b) + (v - a) * b;
    assert (v - a) * m >= 0.0 && a * (m - b) >= 0.0 && v * (m - b) >= 0.0 && (v - a) * b >= 0.0;
    if a < v && 0.0 < m { assert (v - a) * m > 0.0; }
    if b < m && 0.0 < v { assert v * (m - b) > 0.0; }
  }

  lemma NatProduct(a: nat, b: nat)
    ensures (a * b) as real == a as real * b as real
  {
  }

  lemma IntegerProduct(v: real, m: real)
    requires IsInteger(v) && IsInteger(m)
    ensures IsInteger(v * m)
  {
    var k := v.Floor * m.Floor;
    assert v * m == k as real;
  }

  lemma LeastProduct(v: real, m: real, value: Interval, multiplier: Interval)
    requires AboveMin(v, value) && AboveMin(m, multiplier) && 0.0 < v && 0.0 < m
    ensures (value.min * multiplier.min) as real <= v * m
    ensures value.openmin || multiplier.openmin ==> (value.min * multiplier.min) as real < v * m
  {
    NatProduct(value.min, multiplier.min);
    ProductGrows(value.min as real, v, multiplier.min as real, m);
  }

  lemma GreatestProduct(v: real, m: real, value: Interval, multiplier: Interval)
    requires BelowMax(v, value) && BelowMax(m, multiplier) && 0.0 < v && 0.0 < m
    ensures v * m <= (value.max * multiplier.max) as real
    ensures value.openmax || multiplier.openmax ==> v * m < (value.max * multiplier.max) as real
  {
    NatProduct(value.max, multiplier.max);
    ProductGrows(v, value.max as real, m, multiplier.max as real);
  }

  lemma MulMinKeeps(x: real, n: nat, value: Interval, multiplier: Interval)
    requires Fits(value) && Fits(multiplier) && !value.empty && !multiplier.empty
    requires n == value.min * multiplier.min && n as real <= x < UMAX as real
    requires value.openmin || multiplier.openmin ==> n as real < x
    ensures AboveMin(x, IntervalMul(value, multiplier))
  {
    assert SafeMul(value.min, multiplier.min) <= n;
  }

  lemma MulMaxKeeps(x: real, n: nat, value: Interval, multiplier: Interval)
    requires Fits(value) && Fits(multiplier) && !value.empty && !multiplier.empty
    requires n == value.max * multiplier.max && x <= n as real && x < UMAX as real
    requires value.openmax || multiplier.openmax ==> x < n as real
    ensures BelowMax(x, IntervalMul(value, multiplier))
  {
    assert SafeMul(value.max, multiplier.max) == n || SafeMul(value.max, multiplier.max) == UMAX;
  }

  /** The product of two positive contained values is contained, unless it is too large for 32 bits. */
  lemma MulKeeps(x: real, v: real, m: real, value: Interval, multiplier: Interval)
    requires Fits(value) && Fits(multiplier) && Contains(v, value) && Contains(m, multiplier)
    requires 0.0 < v && 0.0 < m && IsProduct(x, v, m) && x < UMAX as real
    ensures Within(x, IntervalMul(value, multiplier))
  {
    LeastProduct(v, m, value, multiplier);
    MulMinKeeps(x, value.min * multiplier.min, value, multiplier);
    GreatestProduct(v, m, value, multiplier);
    MulMaxKeeps(x, value.max * multiplier.max, value, multiplier);
    if value.integer && multiplier.integer { IntegerProduct(v, m); }
  }

  // ---- Quotients ----

  /** The least quotient and whether it was rounded down; without a divisor, UINT32_MAX. */
  function Lower(n: nat, divisor: nat): (r: (nat, bool))
    ensures r.0 <= UMAX
  {
    if divisor == 0 || n / divisor > UMAX then (UMAX, false) else (n / divisor, n % divisor != 0)
  }

  /** Rounding up a quotient of UINT32_MAX leaves the 32 bits. */
  predicate UpperWraps(n: nat, divisor: nat) {
    divisor > 0 && n / divisor == UMAX && n % divisor != 0
  }

  /** The greatest quotient, rounded up and then open. */
  function Upper(n: nat, divisor: nat, open: bool): (r: (nat, bool))
    ensures r.0 <= UMAX
  {
    if divisor == 0 then (UMAX, false)
    else if n / divisor > UMAX then (UMAX, open)
    else if n % divisor != 0 then (if n / divisor == UMAX then 0 else n / divisor + 1, true)
    else (n / divisor, open)
  }

  /** The interval of value * multiplier / divisor. */
  function Quotient(value: Interval, multiplier: Interval, divisor: Interval): (r: Interval)
    ensures Fits(r)
  {
    if value.empty || multiplier.empty || divisor.empty then EmptyInterval()
    else
      var (min, rounded) := Lower(value.min * multiplier.min, divisor.max);
      var (max, openmax) := Upper(value.max * multiplier.max, divisor.min,
                                  value.openmax || multiplier.openmax || divisor.openmin);
      Interval(min, max, rounded || value.openmin || multiplier.openmin || divisor.openmax, openmax, false, false)
  }

  function Exactly(k: nat): Interval { Interval(k, k, false, false, false, false) }

  /** intervalDiv() and the two forms of intervalMulDiv() */
  function IntervalDiv(value: Interval, divisor: Interval): Interval { Quotient(value, Exactly(1), divisor) }

  function IntervalScale(value: Interval, multiplier: nat, divisor: Interval): Interval {
    Quotient(value, Exactly(multiplier), divisor)
  }

  function IntervalMulDiv(value: Interval, multiplier: Interval, divisor: nat): Interval {
    Quotient(value, multiplier, Exactly(divisor))
  }

  lemma Cancel(a: real, b: real, d: real)
    requires d > 0.0
    ensures a * d <= b * d <==> a <= b
    ensures a * d < b * d <==> a < b
  {
    assert b * d - a * d == (b - a) * d;
    if a < b { assert (b - a) * d > 0.0; }
    if b < a { assert (a - b) * d > 0.0; }
  }

  lemma DivisionReal(n: nat, d: nat)
    requires d > 0
    ensures n as real == (n / d) as real * d as real + (n % d) as real
  {
    NatProduct(n / d, d);
    assert n == (n / d) * d + n % d;
  }

  lemma LowerKeeps(x: real, top: real, d: real, n: nat, divisor: nat)
    requires 0.0 < x && 0.0 < d <= divisor as real && x * d == top && n as real <= top
    ensures (n / divisor) as real <= x
    ensures n % divisor != 0 || n as real < top || d < divisor as real ==> (n / divisor) as real < x
  {
    var q, r, big := (n / divisor) as real, (n % divisor) as real, divisor as real;
    DivisionReal(n, divisor);
    ProductGrows(x, x, d, big);
    assert q * big + r <= x * d <= x * big;
    Cancel(q, x, big);
  }

  lemma UpperKeeps(x: real, top: real, d: real, n: nat, divisor: nat)
    requires 0.0 < x && 0 < divisor && divisor as real <= d && x * d == top && top <= n as real
    ensures n % divisor == 0 ==> x <= (n / divisor) as real
    ensures n % divisor == 0 && (top < n as real || divisor as real < d) ==> x < (n / divisor) as real
    ensures x < (n / divisor + 1) as real
  {
    var q, r, small := (n / divisor) as real, (n % divisor) as real, divisor as real;
    DivisionReal(n, divisor);
    ProductGrows(x, x, small, d);
    assert x * small <= x * d <= q * small + r;
    Cancel(x, q, small);
    assert (q + 1.0) * small == q * small + small;
    Cancel(x, q + 1.0, small);
  }

  /** A quotient of positive contained values is contained, unless rounding it up leaves the 32 bits. */
  lemma QuotientKeeps(x: real, v: real, m: real, d: real, value: Interval, multiplier: Interval, divisor: Interval)
    requires Contains(v, value) && Contains(m, multiplier) && Contains(d, divisor)
    requires 0.0 < v && 0.0 < m && 0.0 < d && 0.0 < x < UMAX as real && SameProduct(x, d, v, m)
    requires !UpperWraps(value.max * multiplier.max, divisor.min)
    ensures Within(x, Quotient(value, multiplier, divisor))
  {
    LeastProduct(v, m, value, multiplier);
    LowerKeeps(x, v * m, d, value.min * multiplier.min, divisor.max);
    GreatestProduct(v, m, value, multiplier);
    if divisor.min > 0 { UpperKeeps(x, v * m, d, value.max * multiplier.max, divisor.min); }
  }

  lemma ScaleKeeps(x: real, v: real, k: nat, d: real, value: Interval, divisor: Interval)
    requires Contains(v, value) && Contains(d, divisor) && k > 0
    requires 0.0 < v && 0.0 < d && 0.0 < x < UMAX as real && SameProduct(x, d, v, k as real)
    requires !UpperWraps(value.max * k, divisor.min)
    ensures Within(x, IntervalScale(value, k, divisor))
  {
    QuotientKeeps(x, v, k as real, d, value, Exactly(k), divisor);
  }

  lemma MulDivKeeps(x: real, v: real, m: real, k: nat, value: Interval, multiplier: Interval)
    requires Contains(v, value) && Contains(m, multiplier) && k > 0
    requires 0.0 < v && 0.0 < m && 0.0 < x < UMAX as real && SameProduct(x, k as real, v, m)
    requires !UpperWraps(value.max * multiplier.max, k)
    ensures Within(x, IntervalMulDiv(value, multiplier, k))
  {
    QuotientKeeps(x, v, m, k as real, value, multiplier, Exactly(k));
  }

  lemma {:induction false} TimesAtLeast(q: nat, divisor: nat)
    requires divisor > 0
    ensures q <= q * divisor
    decreases divisor
  {
    if divisor > 1 { TimesAtLeast(q, divisor - 1); }
  }

  lemma QuotientAtMost(n: nat, divisor: nat)
    requires divisor > 0
    ensures n / divisor + n % divisor <= n
  {
    TimesAtLeast(n / divisor, divisor);
  }

  /** A plain quotient of 32-bit numbers never does that. */
  lemma DivNeverWraps(n: nat, divisor: nat)
    requires n <= UMAX
    ensures !UpperWraps(n, divisor)
  {
    if divisor > 0 { QuotientAtMost(n, divisor); }
  }

  lemma DivKeeps(x: real, v: real, d: real, value: Interval, divisor: Interval)
    requires Fits(value) && Contains(v, value) && Contains(d, divisor)
    requires 0.0 < v && 0.0 < d && 0.0 < x < UMAX as real && IsProduct(v, x, d)
    ensures Within(x, IntervalDiv(value, divisor))
  {
    DivNeverWraps(value.max, divisor.min);
    assert value.max * Exactly(1).max == value.max;
    QuotientKeeps(x, v, 1.0, d, value, Exactly(1), divisor);
  }

  lemma ProductsGrow(v: nat, w: nat, a: nat, b: nat)
    requires v <= a && w <= b
    ensures v * w <= a * b
  {
    assert v * w <= v * b;
    assert v * b <= a * b;
  }

  lemma SmallQuotient(n: nat, divisor: nat)
    requires divisor > 0 && n < UMAX * divisor
    ensures n / divisor < UMAX && !UpperWraps(n, divisor)
  {
    DivisionBound(n, divisor, UMAX);
  }

  /** When it does, the constraint rejects every positive value. */
  lemma WrappedQuotientRejects(x: real, value: Interval, multiplier: Interval, divisor: Interval)
    requires !value.empty && !multiplier.empty && !divisor.empty && 0.0 < x
    requires UpperWraps(value.max * multiplier.max, divisor.min)
    ensures !Within(x, Quotient(value, multiplier, divisor))
  {
  }

  /** It happens: frames * 1000000 / microseconds with at most 3414499 frames and at least 795 us. */
  lemma QuotientCanReject()
    ensures var value := Interval(1, 3414499, false, false, true, false);
            var divisor := Interval(795, 795, false, false, true, false);
            && Contains(1.0, value) && Contains(795.0, divisor)
            && !Within(1000000.0 / 795.0, IntervalScale(value, 1000000, divisor))
  {
    assert 3414499 * 1000000 == UMAX * 795 + 475;
    assert 3414499 * 1000000 / 795 == UMAX && 3414499 * 1000000 % 795 == 475;
  }

  // ---- Alignment ----

  /** intervalStep(), modulo 2^32 */
  function IntervalStep(i: Interval, step: nat): (r: Interval)
    requires step > 0 && Fits(i)
    ensures Fits(r)
  {
    var low := if i.min % step != 0 || i.openmin then i.min + (step - i.min % step) else i.min;
    var high := if i.max % step != 0 || i.openmax then i.max - i.max % step else i.max;
    var min := if low > UMAX then low % (UMAX + 1) else low;
    i.(min := min, openmin := false, max := high, openmax := false, empty := i.empty || min > high)
  }

  predicate StepWraps(i: Interval, step: nat)
    requires step > 0
  {
    (i.min % step != 0 || i.openmin) && i.min + (step - i.min % step) > UMAX
  }

  /** The multiples of the step around a number. */
  lemma MultiplesAround(n: nat, step: nat, k: nat)
    requires step > 0
    ensures k * step > n || (k * step >= n && n % step != 0) ==> k * step >= n + (step - n % step)
    ensures k * step <= n ==> k * step <= n - n % step
  {
    var q := n / step;
    assert n == q * step + n % step;
    if k >= q + 1 {
      assert k * step >= (q + 1) * step;
    } else {
      assert k * step <= q * step;
    }
  }

  lemma StepKeeps(x: real, k: nat, i: Interval, step: nat)
    requires step > 0 && Fits(i) && Within(x, i) && x == (k * step) as real && x < UMAX as real
    ensures Within(x, IntervalStep(i, step)) && !StepWraps(i, step)
  {
    MultiplesAround(i.min, step, k);
    MultiplesAround(i.max, step, k);
  }

  // ---- Powers of two ----

  /** std::bit_ceil() and std::bit_floor() */
  function BitCeil(n: nat): (r: nat)
    ensures IsPowerOfTwo(r) && n <= r
  {
    if n <= 1 then 1 else 2 * BitCeil((n + 1) / 2)
  }

  function BitFloor(n: nat): (r: nat)
    ensures r <= n && (n > 0 ==> IsPowerOfTwo(r))
  {
    if n <= 1 then n else 2 * BitFloor(n / 2)
  }

  lemma {:induction false} BitCeilIsLeast(n: nat, p: nat)
    requires IsPowerOfTwo(p) && n <= p
    ensures BitCeil(n) <= p
    decreases p
  {
    if n > 1 { BitCeilIsLeast((n + 1) / 2, p / 2); }
  }

  lemma {:induction false} BitFloorIsGreatest(n: nat, p: nat)
    requires IsPowerOfTwo(p) && p <= n
    ensures p <= BitFloor(n)
    decreases p
  {
    if p > 1 { BitFloorIsGreatest(n / 2, p / 2); }
  }

  /** The least and the greatest integer of an interval. */
  function Least(i: Interval): nat { if i.openmin then i.min + 1 else i.min }

  function Greatest(i: Interval): int { if i.openmax then i.max - 1 else i.max }

  /** The same in 32 bits. */
  function Least32(i: Interval): nat { if Least(i) > UMAX then 0 else Least(i) }

  function Greatest32(i: Interval): nat { if Greatest(i) < 0 then UMAX else Greatest(i) }

  /** std::bit_ceil() is undefined if its result does not fit 32 bits. */
  predicate Pow2Undefined(i: Interval) { BitCeil(Least32(i)) > UMAX }

  /** intervalPow2(), modulo 2^32 */
  function IntervalPow2(i: Interval): (r: Interval)
    requires Fits(i) && !Pow2Undefined(i)
    ensures Fits(r)
  {
    var min := if !IsPowerOfTwo(i.min) || i.openmin then BitCeil(Least32(i)) else i.min;
    var max := if !IsPowerOfTwo(i.max) || i.openmax then BitFloor(Greatest32(i)) else i.max;
    i.(min := min, openmin := false, max := max, openmax := false, empty := i.empty || min > max)
  }

  lemma LeastInteger(p: nat, i: Interval)
    ensures AboveMin(p as real, i) <==> Least(i) <= p
  {
    NextInteger(p, i.min);
  }

  lemma GreatestInteger(p: nat, i: Interval)
    ensures BelowMax(p as real, i) <==> p <= Greatest(i)
  {
    NextInteger(p, i.max);
  }

  lemma Pow2Keeps(x: real, p: nat, i: Interval)
    requires IsPowerOfTwo(p) && x == p as real && x < UMAX as real && Fits(i) && Within(x, i)
    ensures !Pow2Undefined(i) && Within(x, IntervalPow2(i))
  {
    LeastInteger(p, i);
    GreatestInteger(p, i);
    BitCeilIsLeast(Least(i), p);
    BitFloorIsGreatest(Greatest(i), p);
    LeastInteger(p, IntervalPow2(i));
    GreatestInteger(p, IntervalPow2(i));
  }
}

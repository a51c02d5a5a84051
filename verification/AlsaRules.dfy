/** The refinement of ALSA hardware parameters: rules.cpp, and applyRules() of device.cpp in drivers/libsound. */
module AlsaRules {
  import opened AlsaIntervals
  import opened Common

  // ---- Parameters and rules ----

  const SAMPLE_BITS: nat := 0
  const FRAME_BITS: nat := 1
  const CHANNELS: nat := 2
  const RATE: nat := 3
  const PERIOD_TIME: nat := 4
  const PERIOD_SIZE: nat := 5
  const PERIOD_BYTES: nat := 6
  const PERIODS: nat := 7
  const BUFFER_TIME: nat := 8
  const BUFFER_SIZE: nat := 9
  const BUFFER_BYTES: nat := 10
  const COUNT: nat := 11
  /** The only mask that a rule depends on. */
  const FORMAT: nat := 11

  const US_IN_SECOND: nat := 1000000

  datatype Rule =
    | Mul(what: nat, value: nat, multiplier: nat)
    | Div(what: nat, value: nat, divisor: nat)
    | Scale(what: nat, value: nat, factor: nat, divisor: nat)
    | MulDiv(what: nat, value: nat, multiplier: nat, constant: nat)
    | SampleBits(sizes: set<nat>)
    | Limit(what: nat, limit: Interval)
    | AlignPeriodBytes(step: nat)
    | Pow2PeriodBytes

  function What(rule: Rule): nat {
    match rule
    case SampleBits(_) => SAMPLE_BITS
    case AlignPeriodBytes(_) => PERIOD_BYTES
    case Pow2PeriodBytes => PERIOD_BYTES
    case _ => rule.what
  }

  function Dependencies(rule: Rule): set<nat> {
    match rule
    case Mul(_, a, b) => {a, b}
    case Div(_, a, b) => {a, b}
    case Scale(_, a, _, b) => {a, b}
    case MulDiv(_, a, b, _) => {a, b}
    case SampleBits(_) => {FORMAT}
    case _ => {What(rule)}
  }

  predicate RuleOk(rule: Rule) {
    && What(rule) < COUNT
    && (rule.Mul? ==> rule.value < COUNT && rule.multiplier < COUNT)
    && (rule.Div? ==> rule.value < COUNT && rule.divisor < COUNT)
    && (rule.Scale? ==> rule.value < COUNT && rule.divisor < COUNT && rule.factor > 0)
    && (rule.MulDiv? ==> rule.value < COUNT && rule.multiplier < COUNT && rule.constant > 0)
    && (rule.SampleBits? ==> rule.sizes <= {8, 16, 20, 24, 32})
    && (rule.Limit? ==> Fits(rule.limit))
    && (rule.AlignPeriodBytes? ==> rule.step > 0)
  }

  type Intervals = seq<Interval>

  predicate IntervalsOk(p: Intervals) { |p| == COUNT && forall k :: 0 <= k < COUNT ==> Fits(p[k]) }

  /** The sample sizes of the formats in the mask, from the smallest to the largest. */
  function FormatBits(sizes: set<nat>): (r: Interval)
    ensures Fits(r)
  {
    var min :=
      if 8 in sizes then 8 else if 16 in sizes then 16 else if 20 in sizes then 20 else if 24 in sizes then 24 else 32;
    var max :=
      if 32 in sizes then 32 else if 24 in sizes then 24 else if 20 in sizes then 20 else if 16 in sizes then 16 else 8;
    Interval(min, max, false, false, true, false)
  }

  /** Without a known format the first rule does nothing. */
  predicate Skips(rule: Rule) { rule.SampleBits? && rule.sizes == {} }

  /** The constraint that a rule intersects its parameter with. */
  function Constraint(rule: Rule, p: Intervals): (r: Interval)
    requires RuleOk(rule) && IntervalsOk(p) && !Undefined(rule, p)
    ensures Fits(r)
  {
    match rule
    case Mul(_, a, b) => IntervalMul(p[a], p[b])
    case Div(_, a, b) => IntervalDiv(p[a], p[b])
    case Scale(_, a, k, b) => IntervalScale(p[a], k, p[b])
    case MulDiv(_, a, b, k) => IntervalMulDiv(p[a], p[b], k)
    case SampleBits(sizes) => FormatBits(sizes)
    case Limit(_, limit) => limit
    case AlignPeriodBytes(step) => IntervalStep(p[PERIOD_BYTES], step)
    case Pow2PeriodBytes => IntervalPow2(p[PERIOD_BYTES])
  }

  /** Computing the constraint is undefined behaviour. */
  predicate Undefined(rule: Rule, p: Intervals)
    requires |p| == COUNT
  {
    rule.Pow2PeriodBytes? && Pow2Undefined(p[PERIOD_BYTES])
  }

  predicate ProductOverflows(a: nat, b: nat, divisor: nat) { UpperWraps(a * b, divisor) }

  /** The upper bound of a quotient is rounded up to 2^32, which is 0. */
  predicate Overflows(rule: Rule, p: Intervals)
    requires RuleOk(rule) && |p| == COUNT
  {
    match rule
    case Scale(_, a, k, b) => ProductOverflows(p[a].max, k, p[b].min)
    case MulDiv(_, a, b, k) => ProductOverflows(p[a].max, p[b].max, k)
    case _ => false
  }

  /** Applying the rule is undefined, or wraps a bound of an integer interval around. */
  predicate RuleWraps(rule: Rule, p: Intervals)
    requires RuleOk(rule) && IntervalsOk(p)
  {
    !Skips(rule) && (Undefined(rule, p) || RoundWraps(Tighten(p[What(rule)], Constraint(rule, p))))
  }

  /** commonRules, in their order; the sample bits come from the format mask. */
  function CommonRule(k: nat, sizes: set<nat>): Rule
    requires k < 19
  {
    match k
    case 0 => SampleBits(sizes)
    case 1 => Div(SAMPLE_BITS, FRAME_BITS, CHANNELS)
    case 2 => Mul(FRAME_BITS, SAMPLE_BITS, CHANNELS)
    case 3 => Scale(FRAME_BITS, PERIOD_BYTES, 8, PERIOD_SIZE)
    case 4 => Scale(FRAME_BITS, BUFFER_BYTES, 8, BUFFER_SIZE)
    case 5 => Div(CHANNELS, FRAME_BITS, SAMPLE_BITS)
    case 6 => Scale(RATE, PERIOD_SIZE, US_IN_SECOND, PERIOD_TIME)
    case 7 => Scale(RATE, BUFFER_SIZE, US_IN_SECOND, BUFFER_TIME)
    case 8 => Div(PERIODS, BUFFER_SIZE, PERIOD_SIZE)
    case 9 => Div(PERIOD_SIZE, BUFFER_SIZE, PERIODS)
    case 10 => Scale(PERIOD_SIZE, PERIOD_BYTES, 8, FRAME_BITS)
    case 11 => MulDiv(PERIOD_SIZE, PERIOD_TIME, RATE, US_IN_SECOND)
    case 12 => Mul(BUFFER_SIZE, PERIODS, PERIOD_SIZE)
    case 13 => Scale(BUFFER_SIZE, BUFFER_BYTES, 8, FRAME_BITS)
    case 14 => MulDiv(BUFFER_SIZE, BUFFER_TIME, RATE, US_IN_SECOND)
    case 15 => MulDiv(PERIOD_BYTES, PERIOD_SIZE, FRAME_BITS, 8)
    case 16 => MulDiv(BUFFER_BYTES, BUFFER_SIZE, FRAME_BITS, 8)
    case 17 => Scale(PERIOD_TIME, PERIOD_SIZE, US_IN_SECOND, RATE)
    case _ => Scale(BUFFER_TIME, BUFFER_SIZE, US_IN_SECOND, RATE)
  }

  // ---- Configurations ----

  /** A value for every parameter. */
  type Values = seq<real>

  ghost predicate InRange(x: Values) {
    |x| == COUNT && forall k :: 0 <= k < COUNT ==> 0.0 < x[k] < UMAX as real
  }

  /** How the parameters of a stream depend on each other. */
  ghost predicate Equations(x: Values)
    requires |x| == COUNT
  {
    && x[FRAME_BITS] == x[SAMPLE_BITS] * x[CHANNELS]
    && x[PERIOD_BYTES] * 8.0 == x[PERIOD_SIZE] * x[FRAME_BITS]
    && x[BUFFER_BYTES] * 8.0 == x[BUFFER_SIZE] * x[FRAME_BITS]
    && x[PERIOD_TIME] * x[RATE] == x[PERIOD_SIZE] * 1000000.0
    && x[BUFFER_TIME] * x[RATE] == x[BUFFER_SIZE] * 1000000.0
    && x[BUFFER_SIZE] == x[PERIODS] * x[PERIOD_SIZE]
  }

  /** The values agree with what one rule is derived from. */
  ghost predicate Satisfies(x: Values, rule: Rule)
    requires RuleOk(rule) && |x| == COUNT
  {
    match rule
    case Mul(what, a, b) => IsProduct(x[what], x[a], x[b])
    case Div(what, a, b) => IsProduct(x[a], x[what], x[b])
    case Scale(what, a, k, b) => SameProduct(x[what], x[b], x[a], k as real)
    case MulDiv(what, a, b, k) => SameProduct(x[what], k as real, x[a], x[b])
    case SampleBits(sizes) => sizes == {} || exists b: nat :: IsSize(x[SAMPLE_BITS], b, sizes)
    case Limit(what, limit) => Within(x[what], limit)
    case AlignPeriodBytes(step) => exists k: nat :: IsMultiple(x[PERIOD_BYTES], k, step)
    case Pow2PeriodBytes => exists n: nat :: IsPower(x[PERIOD_BYTES], n)
  }

  ghost predicate IsSize(x: real, b: nat, sizes: set<nat>) { b in sizes && x == b as real }

  ghost predicate IsMultiple(x: real, k: nat, step: nat) { x == (k * step) as real }

  ghost predicate IsPower(x: real, n: nat) { IsPowerOfTwo(n) && x == n as real }

  ghost predicate AllContained(x: Values, p: Intervals)
    requires |x| == |p| == COUNT
  {
    forall k :: 0 <= k < COUNT ==> Contains(x[k], p[k])
  }

  lemma FrameBitsRules(x: Values)
    requires |x| == COUNT && x[FRAME_BITS] == x[SAMPLE_BITS] * x[CHANNELS]
    ensures Satisfies(x, Div(SAMPLE_BITS, FRAME_BITS, CHANNELS))
    ensures Satisfies(x, Mul(FRAME_BITS, SAMPLE_BITS, CHANNELS))
    ensures Satisfies(x, Div(CHANNELS, FRAME_BITS, SAMPLE_BITS))
  {
  }

  lemma PeriodBytesRules(x: Values)
    requires |x| == COUNT && x[PERIOD_BYTES] * 8.0 == x[PERIOD_SIZE] * x[FRAME_BITS]
    ensures Satisfies(x, Scale(FRAME_BITS, PERIOD_BYTES, 8, PERIOD_SIZE))
    ensures Satisfies(x, Scale(PERIOD_SIZE, PERIOD_BYTES, 8, FRAME_BITS))
    ensures Satisfies(x, MulDiv(PERIOD_BYTES, PERIOD_SIZE, FRAME_BITS, 8))
  {
  }

  lemma BufferBytesRules(x: Values)
    requires |x| == COUNT && x[BUFFER_BYTES] * 8.0 == x[BUFFER_SIZE] * x[FRAME_BITS]
    ensures Satisfies(x, Scale(FRAME_BITS, BUFFER_BYTES, 8, BUFFER_SIZE))
    ensures Satisfies(x, Scale(BUFFER_SIZE, BUFFER_BYTES, 8, FRAME_BITS))
    ensures Satisfies(x, MulDiv(BUFFER_BYTES, BUFFER_SIZE, FRAME_BITS, 8))
  {
  }

  lemma PeriodTimeRules(x: Values)
    requires |x| == COUNT && x[PERIOD_TIME] * x[RATE] == x[PERIOD_SIZE] * 1000000.0
    ensures Satisfies(x, Scale(RATE, PERIOD_SIZE, US_IN_SECOND, PERIOD_TIME))
    ensures Satisfies(x, MulDiv(PERIOD_SIZE, PERIOD_TIME, RATE, US_IN_SECOND))
    ensures Satisfies(x, Scale(PERIOD_TIME, PERIOD_SIZE, US_IN_SECOND, RATE))
  {
  }

  lemma BufferTimeRules(x: Values)
    requires |x| == COUNT && x[BUFFER_TIME] * x[RATE] == x[BUFFER_SIZE] * 1000000.0
    ensures Satisfies(x, Scale(RATE, BUFFER_SIZE, US_IN_SECOND, BUFFER_TIME))
    ensures Satisfies(x, MulDiv(BUFFER_SIZE, BUFFER_TIME, RATE, US_IN_SECOND))
    ensures Satisfies(x, Scale(BUFFER_TIME, BUFFER_SIZE, US_IN_SECOND, RATE))
  {
  }

  lemma PeriodsRules(x: Values)
    requires |x| == COUNT && x[BUFFER_SIZE] == x[PERIODS] * x[PERIOD_SIZE]
    ensures Satisfies(x, Div(PERIODS, BUFFER_SIZE, PERIOD_SIZE))
    ensures Satisfies(x, Div(PERIOD_SIZE, BUFFER_SIZE, PERIODS))
    ensures Satisfies(x, Mul(BUFFER_SIZE, PERIODS, PERIOD_SIZE))
  {
  }

  /** The common rules follow from the equations. */
  lemma EquationsSatisfyRules(x: Values, sizes: set<nat>, b: nat, k: nat)
    requires InRange(x) && Equations(x) && sizes <= {8, 16, 20, 24, 32} && IsSize(x[SAMPLE_BITS], b, sizes) && k < 19
    ensures RuleOk(CommonRule(k, sizes)) && Satisfies(x, CommonRule(k, sizes))
  {
    match k
    case 0 =>
    case 1 => FrameBitsRules(x);
    case 2 => FrameBitsRules(x);
    case 3 => PeriodBytesRules(x);
    case 4 => BufferBytesRules(x);
    case 5 => FrameBitsRules(x);
    case 6 => PeriodTimeRules(x);
    case 7 => BufferTimeRules(x);
    case 8 => PeriodsRules(x);
    case 9 => PeriodsRules(x);
    case 10 => PeriodBytesRules(x);
    case 11 => PeriodTimeRules(x);
    case 12 => PeriodsRules(x);
    case 13 => BufferBytesRules(x);
    case 14 => BufferTimeRules(x);
    case 15 => PeriodBytesRules(x);
    case 16 => BufferBytesRules(x);
    case 17 => PeriodTimeRules(x);
    case _ => BufferTimeRules(x);
  }

  /** What the lemmas about single rules have in common. */
  ghost predicate Concerns(x: Values, rule: Rule, p: Intervals) {
    && RuleOk(rule) && IntervalsOk(p) && InRange(x) && AllContained(x, p) && Satisfies(x, rule)
    && !Overflows(rule, p) && !Skips(rule)
  }

  lemma SampleBitsRuleKeeps(x: Values, rule: Rule, p: Intervals)
    requires Concerns(x, rule, p) && rule.SampleBits?
    ensures Within(x[What(rule)], Constraint(rule, p))
  {
    var b: nat :| IsSize(x[SAMPLE_BITS], b, rule.sizes);
    assert b in {8, 16, 20, 24, 32};
  }

  lemma DivRuleKeeps(x: Values, rule: Rule, p: Intervals)
    requires Concerns(x, rule, p) && rule.Div?
    ensures Within(x[What(rule)], Constraint(rule, p))
  {
    DivKeeps(x[rule.what], x[rule.value], x[rule.divisor], p[rule.value], p[rule.divisor]);
  }

  lemma ScaleRuleKeeps(x: Values, rule: Rule, p: Intervals)
    requires Concerns(x, rule, p) && rule.Scale?
    ensures Within(x[What(rule)], Constraint(rule, p))
  {
    ScaleKeeps(x[rule.what], x[rule.value], rule.factor, x[rule.divisor], p[rule.value], p[rule.divisor]);
  }

  lemma MulDivRuleKeeps(x: Values, rule: Rule, p: Intervals)
    requires Concerns(x, rule, p) && rule.MulDiv?
    ensures Within(x[What(rule)], Constraint(rule, p))
  {
    MulDivKeeps(x[rule.what], x[rule.value], x[rule.multiplier], rule.constant, p[rule.value], p[rule.multiplier]);
  }

  lemma MulRuleKeeps(x: Values, rule: Rule, p: Intervals)
    requires Concerns(x, rule, p) && rule.Mul?
    ensures Within(x[What(rule)], Constraint(rule, p))
  {
    MulKeeps(x[rule.what], x[rule.value], x[rule.multiplier], p[rule.value], p[rule.multiplier]);
  }

  lemma AlignRuleKeeps(x: Values, rule: Rule, p: Intervals)
    requires Concerns(x, rule, p) && rule.AlignPeriodBytes?
    ensures Within(x[What(rule)], Constraint(rule, p))
  {
    var k: nat :| IsMultiple(x[PERIOD_BYTES], k, rule.step);
    StepKeeps(x[PERIOD_BYTES], k, p[PERIOD_BYTES], rule.step);
  }

  lemma Pow2RuleKeeps(x: Values, rule: Rule, p: Intervals)
    requires Concerns(x, rule, p) && rule.Pow2PeriodBytes?
    ensures !Undefined(rule, p) && Within(x[What(rule)], Constraint(rule, p))
  {
    var n: nat :| IsPower(x[PERIOD_BYTES], n);
    Pow2Keeps(x[PERIOD_BYTES], n, p[PERIOD_BYTES]);
  }

  /** A rule's constraint keeps every value that satisfies the rule. */
  lemma ConstraintKeeps(x: Values, rule: Rule, p: Intervals)
    requires Concerns(x, rule, p)
    ensures !Undefined(rule, p) && Within(x[What(rule)], Constraint(rule, p))
  {
    match rule
    case Mul(_, _, _) => MulRuleKeeps(x, rule, p);
    case Div(_, _, _) => DivRuleKeeps(x, rule, p);
    case Scale(_, _, _, _) => ScaleRuleKeeps(x, rule, p);
    case MulDiv(_, _, _, _) => MulDivRuleKeeps(x, rule, p);
    case SampleBits(_) => SampleBitsRuleKeeps(x, rule, p);
    case Limit(_, _) =>
    case AlignPeriodBytes(_) => AlignRuleKeeps(x, rule, p);
    case Pow2PeriodBytes => Pow2RuleKeeps(x, rule, p);
  }

  function Applied(rule: Rule, p: Intervals): (r: Intervals)
    requires RuleOk(rule) && IntervalsOk(p) && !RuleWraps(rule, p)
    ensures IntervalsOk(r)
  {
    if Skips(rule) then p else p[What(rule) := Intersect(p[What(rule)], Constraint(rule, p))]
  }

  /** A configuration that satisfies a rule survives it, and then nothing wraps around. */
  lemma RuleKeeps(x: Values, rule: Rule, p: Intervals)
    requires RuleOk(rule) && IntervalsOk(p) && InRange(x) && AllContained(x, p)
    requires Satisfies(x, rule) && !Overflows(rule, p)
    ensures !RuleWraps(rule, p) && AllContained(x, Applied(rule, p)) && !Applied(rule, p)[What(rule)].empty
  {
    if Skips(rule) {
      assert Contains(x[What(rule)], p[What(rule)]);
    } else {
      ConstraintKeeps(x, rule, p);
      IntersectKeeps(x[What(rule)], p[What(rule)], Constraint(rule, p));
    }
  }

  /** If the quotient overflows, a real-valued parameter loses all values and an integer bound wraps around. */
  lemma OverflowLoses(x: Values, rule: Rule, p: Intervals)
    requires RuleOk(rule) && IntervalsOk(p) && InRange(x) && AllContained(x, p) && Overflows(rule, p)
    ensures var range, other := p[What(rule)], Constraint(rule, p);
            if range.integer then RoundWraps(Tighten(range, other)) && Intersect(range, other).max == UMAX
            else !Within(x[What(rule)], Intersect(range, other)) && Intersect(range, other).empty
  {
    var range := p[What(rule)];
    assert Contains(x[What(rule)], range);
    assert range.max as real > 0.0;
    assert Constraint(rule, p).max == 0 && Constraint(rule, p).openmax && !Constraint(rule, p).integer;
  }

  /** A rule keeps the configurations that satisfy it exactly if its quotient does not overflow. */
  lemma RuleKeepsIff(x: Values, rule: Rule, p: Intervals)
    requires RuleOk(rule) && IntervalsOk(p) && InRange(x) && AllContained(x, p) && Satisfies(x, rule)
    ensures !RuleWraps(rule, p) && AllContained(x, Applied(rule, p)) <==> !Overflows(rule, p)
  {
    if Overflows(rule, p) {
      OverflowLoses(x, rule, p);
    } else {
      RuleKeeps(x, rule, p);
    }
  }

  // ---- Before the call ----

  /** No quotient overflows for any bounds within those of the intervals. */
  ghost predicate NeverOverflows(rule: Rule, p: Intervals)
    requires RuleOk(rule) && |p| == COUNT
  {
    match rule
    case Scale(_, a, k, b) =>
      forall v: nat, d: nat :: p[a].min <= v <= p[a].max && p[b].min <= d <= p[b].max ==> !ProductOverflows(v, k, d)
    case MulDiv(_, a, b, k) =>
      forall v: nat, w: nat :: p[a].min <= v <= p[a].max && p[b].min <= w <= p[b].max ==> !ProductOverflows(v, w, k)
    case _ => true
  }

  /** The bounds of the intervals lie within the first ones. */
  ghost predicate BoundsWithin(first: Intervals, p: Intervals)
    requires |first| == |p| == COUNT
  {
    forall k :: 0 <= k < COUNT ==> first[k].min <= p[k].min && p[k].max <= first[k].max
  }

  lemma BoundsAfter(first: Intervals, p: Intervals, rule: Rule)
    requires RuleOk(rule) && |first| == COUNT && IntervalsOk(p) && !RuleWraps(rule, p) && BoundsWithin(first, p)
    ensures BoundsWithin(first, Applied(rule, p))
  {
    if !Skips(rule) { BoundsShrink(p[What(rule)], Constraint(rule, p)); }
  }

  lemma ContainedBounds(x: real, i: Interval, first: Interval)
    requires Within(x, i) && Within(x, first)
    ensures first.min <= i.max && i.min <= first.max
  {
    assert first.min as real <= i.max as real && i.min as real <= first.max as real;
  }

  lemma StillNoOverflow(x: Values, rule: Rule, first: Intervals, p: Intervals)
    requires RuleOk(rule) && IntervalsOk(first) && IntervalsOk(p) && |x| == COUNT
    requires NeverOverflows(rule, first) && BoundsWithin(first, p) && AllContained(x, first) && AllContained(x, p)
    ensures !Overflows(rule, p)
  {
    if rule.Scale? {
      ContainedBounds(x[rule.value], p[rule.value], first[rule.value]);
      ContainedBounds(x[rule.divisor], p[rule.divisor], first[rule.divisor]);
    } else if rule.MulDiv? {
      ContainedBounds(x[rule.value], p[rule.value], first[rule.value]);
      ContainedBounds(x[rule.multiplier], p[rule.multiplier], first[rule.multiplier]);
    }
  }

  /** A test that is enough: the largest quotient stays below UINT32_MAX. */
  lemma SmallQuotients(a: nat, b: nat, divisor: nat, v: nat, w: nat, d: nat)
    requires v <= a && w <= b && divisor <= d && a * b < UMAX * divisor
    ensures !ProductOverflows(v, w, d)
  {
    ProductsGrow(v, w, a, b);
    ProductsGrow(UMAX, divisor, UMAX, d);
    if d > 0 { SmallQuotient(v * w, d); }
  }

  predicate RuleChanges(rule: Rule, p: Intervals)
    requires RuleOk(rule) && IntervalsOk(p) && !RuleWraps(rule, p)
  {
    !Skips(rule) && Changes(p[What(rule)], Constraint(rule, p))
  }

  /** Intervals of a stream whose period may be up to 3414499 frames and takes 795 us. */
  function LongPeriods(): Intervals {
    seq(COUNT, k => if k == PERIOD_TIME then Interval(795, 795, false, false, true, false)
                    else if k == PERIOD_SIZE then Interval(1, 3414499, false, false, true, false)
                    else Interval(1, 4000000, false, false, false, false))
  }

  /** One megahertz, 16 bits, one channel, two periods of 795 frames. */
  function OneMegahertz(): Values {
    [16.0, 16.0, 1.0, 1000000.0, 795.0, 795.0, 1590.0, 2.0, 1590.0, 1590.0, 3180.0]
  }

  /**
   applyRules() can report an empty interval although there is an admissible configuration:
   when the period time is marked as changed, the first rule that it applies overflows.
   */
  lemma RefinementCanReject()
    ensures var x, p, rule := OneMegahertz(), LongPeriods(), CommonRule(6, {16});
            && InRange(x) && Equations(x) && IsSize(x[SAMPLE_BITS], 16, {16}) && IntervalsOk(p) && AllContained(x, p)
            && (forall k :: 0 <= k < 6 ==> Dependencies(CommonRule(k, {16})) * {PERIOD_TIME} == {})
            && PERIOD_TIME in Dependencies(rule) && RuleOk(rule) && Overflows(rule, p)
            && !RuleWraps(rule, p) && RuleChanges(rule, p) && Applied(rule, p)[What(rule)].empty
  {
    var x, p, rule := OneMegahertz(), LongPeriods(), CommonRule(6, {16});
    assert 3414499 * 1000000 == UMAX * 795 + 475;
    assert AllContained(x, p) by {
      forall k | 0 <= k < COUNT ensures Contains(x[k], p[k]) {}
    }
    OverflowLoses(x, rule, p);
  }

  // ---- Termination ----

  function TotalRank(p: Intervals): (r: nat)
    requires forall k :: 0 <= k < |p| ==> Fits(p[k])
  {
    if p == [] then 0 else Rank(p[0]) + TotalRank(p[1..])
  }

  lemma {:induction false} TotalRankOfUpdate(p: Intervals, k: nat, i: Interval)
    requires k < |p| && Fits(i) && forall j :: 0 <= j < |p| ==> Fits(p[j])
    ensures TotalRank(p[k := i]) == TotalRank(p) - Rank(p[k]) + Rank(i)
    decreases k
  {
    if k > 0 {
      TotalRankOfUpdate(p[1..], k - 1, i);
      assert p[k := i][1..] == p[1..][k - 1 := i];
    } else {
      assert p[0 := i][1..] == p[1..];
    }
  }

  lemma RuleDescends(rule: Rule, p: Intervals)
    requires RuleOk(rule) && IntervalsOk(p) && !RuleWraps(rule, p)
    ensures TotalRank(Applied(rule, p)) <= TotalRank(p)
    ensures RuleChanges(rule, p) ==> TotalRank(Applied(rule, p)) < TotalRank(p)
  {
    if Skips(rule) { return; }
    var range, other := p[What(rule)], Constraint(rule, p);
    IntersectDescends(range, other);
    TotalRankOfUpdate(p, What(rule), Intersect(range, other));
  }

  // ---- The fixpoint ----

  ghost predicate AllNormalized(p: Intervals) { forall k :: 0 <= k < |p| ==> Normalized(p[k]) }

  /** Applying the rule changes nothing. */
  predicate Stable(rule: Rule, p: Intervals)
    requires RuleOk(rule) && IntervalsOk(p)
  {
    !RuleWraps(rule, p) && !RuleChanges(rule, p)
  }

  /** The rule is stable, or one of its dependencies is in the mask. */
  predicate Covered(rule: Rule, p: Intervals, mask: set<nat>)
    requires RuleOk(rule) && IntervalsOk(p)
  {
    Stable(rule, p) || Dependencies(rule) * mask != {}
  }

  /** A constraint is computed from the dependencies of its rule alone. */
  lemma ConstraintDepends(rule: Rule, p: Intervals, q: Intervals)
    requires RuleOk(rule) && IntervalsOk(p) && IntervalsOk(q)
    requires forall k :: 0 <= k < COUNT && k in Dependencies(rule) ==> p[k] == q[k]
    ensures Undefined(rule, p) == Undefined(rule, q)
    ensures !Undefined(rule, p) ==> Constraint(rule, p) == Constraint(rule, q)
  {
  }

  /** Another parameter changes, or the rule's own one shrinks. */
  lemma StableAfter(rule: Rule, p: Intervals, w: nat, other: Interval)
    requires RuleOk(rule) && IntervalsOk(p) && Stable(rule, p) && w < COUNT && w !in Dependencies(rule)
    requires Fits(other) && !RoundWraps(Tighten(p[w], other))
    ensures Stable(rule, p[w := Intersect(p[w], other)])
  {
    ConstraintDepends(rule, p, p[w := Intersect(p[w], other)]);
    if !Skips(rule) && w == What(rule) { StaysStable(p[w], Constraint(rule, p), other); }
  }

  lemma CoveredAfter(rule: Rule, applied: Rule, p: Intervals, mask: set<nat>)
    requires RuleOk(rule) && RuleOk(applied) && IntervalsOk(p) && AllNormalized(p) && !RuleWraps(applied, p)
    requires Covered(rule, p, mask)
    ensures Covered(rule, Applied(applied, p), mask + if RuleChanges(applied, p) then {What(applied)} else {})
  {
    var w := What(applied);
    if !RuleChanges(applied, p) {
      UnchangedRule(applied, p);
    } else if Dependencies(rule) * mask != {} {
      var d :| d in Dependencies(rule) * mask;
      assert d in Dependencies(rule) * (mask + {w});
    } else if w in Dependencies(rule) {
      assert w in Dependencies(rule) * (mask + {w});
    } else {
      StableAfter(rule, p, w, Constraint(applied, p));
    }
  }

  lemma UnchangedRule(rule: Rule, p: Intervals)
    requires RuleOk(rule) && IntervalsOk(p) && AllNormalized(p) && !RuleWraps(rule, p) && !RuleChanges(rule, p)
    ensures Applied(rule, p) == p
  {
    if !Skips(rule) { UnchangedIsSame(p[What(rule)], Constraint(rule, p)); }
  }

  /** A rule that has just been applied is stable, or depends on what it has changed. */
  lemma CoveredNow(rule: Rule, p: Intervals, mask: set<nat>)
    requires RuleOk(rule) && IntervalsOk(p) && AllNormalized(p) && !RuleWraps(rule, p)
    ensures Covered(rule, Applied(rule, p), mask + if RuleChanges(rule, p) then {What(rule)} else {})
  {
    var w := What(rule);
    if !RuleChanges(rule, p) {
      UnchangedRule(rule, p);
    } else if w in Dependencies(rule) {
      assert w in Dependencies(rule) * (mask + {w});
    } else {
      ConstraintDepends(rule, p, Applied(rule, p));
      IntersectIsStable(p[w], Constraint(rule, p));
    }
  }

  lemma AppliedNormalizes(rule: Rule, p: Intervals)
    requires RuleOk(rule) && IntervalsOk(p) && AllNormalized(p) && !RuleWraps(rule, p)
    ensures AllNormalized(Applied(rule, p))
  {
    if !Skips(rule) { IntersectNormalizes(p[What(rule)], Constraint(rule, p)); }
  }

  // ---- What changed ----

  /** Exactly the parameters in the mask have changed since `first`, and all of those shrank. */
  ghost predicate Shrunk(first: Intervals, p: Intervals, mask: set<nat>)
    requires IntervalsOk(first) && IntervalsOk(p)
  {
    forall k :: 0 <= k < COUNT ==> if k in mask then Rank(p[k]) < Rank(first[k]) else p[k] == first[k]
  }

  lemma ShrunkAfter(first: Intervals, p: Intervals, mask: set<nat>, rule: Rule)
    requires RuleOk(rule) && IntervalsOk(first) && IntervalsOk(p) && AllNormalized(p) && !RuleWraps(rule, p)
    requires Shrunk(first, p, mask)
    ensures Shrunk(first, Applied(rule, p), mask + if RuleChanges(rule, p) then {What(rule)} else {})
  {
    if !RuleChanges(rule, p) {
      UnchangedRule(rule, p);
    } else {
      IntersectDescends(p[What(rule)], Constraint(rule, p));
    }
  }

  /** Nothing is gained: what is within the intervals was within the first ones. */
  ghost predicate Narrower(first: Intervals, p: Intervals)
    requires |first| == |p| == COUNT
  {
    forall k, x {:trigger Within(x, p[k])} :: 0 <= k < COUNT && Within(x, p[k]) ==> Within(x, first[k])
  }

  lemma NarrowerAfter(first: Intervals, p: Intervals, rule: Rule)
    requires RuleOk(rule) && |first| == COUNT && IntervalsOk(p) && !RuleWraps(rule, p) && Narrower(first, p)
    ensures Narrower(first, Applied(rule, p))
  {
    var q := Applied(rule, p);
    forall k, x | 0 <= k < COUNT && Within(x, q[k]) ensures Within(x, first[k]) {
      if !Skips(rule) && k == What(rule) { IntersectIsTight(x, p[k], Constraint(rule, p)); }
      assert Within(x, p[k]);
    }
  }

  // ---- Applying the rules ----

  datatype Outcome = Refined(cmask: set<nat>) | Invalid(cmask: set<nat>) | Wrapped

  /** A configuration that the refinement must not lose. */
  ghost predicate Admissible(x: Values, rules: seq<Rule>, p: Intervals)
    requires forall k :: 0 <= k < |rules| ==> RuleOk(rules[k])
    requires IntervalsOk(p)
  {
    InRange(x) && AllContained(x, p) && forall k :: 0 <= k < |rules| ==> Satisfies(x, rules[k])
  }

  function CommonRules(sizes: set<nat>): (r: seq<Rule>)
    ensures |r| == 19 && forall k :: 0 <= k < 19 ==> r[k] == CommonRule(k, sizes)
  {
    seq(19, k requires 0 <= k < 19 => CommonRule(k, sizes))
  }

  /** Whatever meets the equations, the format, the device limits and the input intervals must survive. */
  lemma ConfigurationIsAdmissible(x: Values, sizes: set<nat>, b: nat, limits: seq<Rule>, p: Intervals)
    requires InRange(x) && Equations(x) && sizes <= {8, 16, 20, 24, 32} && IsSize(x[SAMPLE_BITS], b, sizes)
    requires IntervalsOk(p) && AllContained(x, p)
    requires forall k :: 0 <= k < |limits| ==> RuleOk(limits[k]) && Satisfies(x, limits[k])
    ensures forall k :: 0 <= k < |CommonRules(sizes) + limits| ==> RuleOk((CommonRules(sizes) + limits)[k])
    ensures Admissible(x, CommonRules(sizes) + limits, p)
  {
    var rules := CommonRules(sizes) + limits;
    forall k | 0 <= k < |rules| ensures RuleOk(rules[k]) && Satisfies(x, rules[k]) {
      if k < 19 { EquationsSatisfyRules(x, sizes, b, k); }
    }
  }

  ghost predicate RulesOk(rules: seq<Rule>) { forall k :: 0 <= k < |rules| ==> RuleOk(rules[k]) }

  /** None of the quotients can overflow, whatever the rules do. */
  ghost predicate CannotOverflow(rules: seq<Rule>, p: Intervals)
    requires RulesOk(rules) && |p| == COUNT
  {
    forall k :: 0 <= k < |rules| ==> NeverOverflows(rules[k], p)
  }

  // ---- Calls ----

  /** The application of rule k to some intervals. */
  datatype Application = Application(k: nat, before: Intervals)

  ghost predicate ApplicationOk(rules: seq<Rule>, a: Application) {
    a.k < |rules| && RuleOk(rules[a.k]) && IntervalsOk(a.before)
  }

  /** What an application leaves; where a bound would wrap around, the call stops. */
  ghost function Result(rule: Rule, p: Intervals): (r: Intervals)
    requires RuleOk(rule) && IntervalsOk(p)
    ensures IntervalsOk(r)
  {
    if RuleWraps(rule, p) then p else Applied(rule, p)
  }

  /** The applications lead from the intervals p to q. */
  ghost predicate IsTrace(rules: seq<Rule>, p: Intervals, trace: seq<Application>, q: Intervals) {
    if trace == [] then p == q
    else
      var front, a := trace[..|trace| - 1], trace[|trace| - 1];
      ApplicationOk(rules, a) && IsTrace(rules, p, front, a.before) && q == Result(rules[a.k], a.before)
  }

  ghost predicate WrapsIn(rules: seq<Rule>, trace: seq<Application>) {
    && trace != []
    && var a := trace[|trace| - 1];
       WrapsIn(rules, trace[..|trace| - 1]) || (ApplicationOk(rules, a) && RuleWraps(rules[a.k], a.before))
  }

  /** One of the quotients overflowed. */
  ghost predicate OverflowsIn(rules: seq<Rule>, trace: seq<Application>) {
    && trace != []
    && var a := trace[|trace| - 1];
       OverflowsIn(rules, trace[..|trace| - 1]) || (ApplicationOk(rules, a) && Overflows(rules[a.k], a.before))
  }

  /** The trace of a call up to now, and whether it has to stop. */
  ghost predicate Traced(rules: seq<Rule>, p: Intervals, trace: seq<Application>, q: Intervals, wrapped: bool) {
    IsTrace(rules, p, trace, q) && (WrapsIn(rules, trace) <==> wrapped)
  }

  lemma TraceGrows(rules: seq<Rule>, p: Intervals, trace: seq<Application>, q: Intervals, k: nat)
    requires Traced(rules, p, trace, q, false) && ApplicationOk(rules, Application(k, q))
    ensures Traced(rules, p, trace + [Application(k, q)], Result(rules[k], q), RuleWraps(rules[k], q))
  {
    assert (trace + [Application(k, q)])[..|trace|] == trace;
  }

  lemma {:induction false} TraceNarrows(rules: seq<Rule>, p: Intervals, trace: seq<Application>, q: Intervals)
    requires IntervalsOk(p) && IsTrace(rules, p, trace, q)
    ensures IntervalsOk(q) && Narrower(p, q) && BoundsWithin(p, q)
    decreases |trace|
  {
    if trace != [] {
      var a := trace[|trace| - 1];
      TraceNarrows(rules, p, trace[..|trace| - 1], a.before);
      if !RuleWraps(rules[a.k], a.before) {
        NarrowerAfter(p, a.before, rules[a.k]);
        BoundsAfter(p, a.before, rules[a.k]);
      }
    }
  }

  /** Without an overflow, a configuration survives the applications and nothing wraps around. */
  lemma {:induction false} TraceKeeps(x: Values, rules: seq<Rule>, p: Intervals, trace: seq<Application>, q: Intervals)
    requires RulesOk(rules) && IntervalsOk(p) && Admissible(x, rules, p)
    requires IsTrace(rules, p, trace, q) && !OverflowsIn(rules, trace)
    ensures IntervalsOk(q) && AllContained(x, q) && !WrapsIn(rules, trace)
    decreases |trace|
  {
    if trace != [] {
      var a := trace[|trace| - 1];
      TraceKeeps(x, rules, p, trace[..|trace| - 1], a.before);
      RuleKeeps(x, rules[a.k], a.before);
    }
  }

  ghost predicate AllWithin(x: Values, p: Intervals)
    requires |x| == |p| == COUNT
  {
    forall k :: 0 <= k < COUNT ==> Within(x[k], p[k])
  }

  /** With an overflow, it is lost for good, or a bound wraps around. */
  lemma {:induction false} TraceLoses(x: Values, rules: seq<Rule>, p: Intervals, trace: seq<Application>, q: Intervals)
    requires RulesOk(rules) && IntervalsOk(p) && Admissible(x, rules, p)
    requires IsTrace(rules, p, trace, q) && OverflowsIn(rules, trace)
    ensures IntervalsOk(q) && (WrapsIn(rules, trace) || !AllWithin(x, q))
    decreases |trace|
  {
    var front, a := trace[..|trace| - 1], trace[|trace| - 1];
    if OverflowsIn(rules, front) {
      TraceLoses(x, rules, p, front, a.before);
      if !RuleWraps(rules[a.k], a.before) { NarrowerAfter(a.before, a.before, rules[a.k]); }
    } else {
      TraceKeeps(x, rules, p, front, a.before);
      OverflowLoses(x, rules[a.k], a.before);
    }
  }

  /** If no bounds within the first ones make a quotient overflow, none does. */
  lemma {:induction false} TraceIsSafe(x: Values, rules: seq<Rule>, p: Intervals, trace: seq<Application>, q: Intervals)
    requires RulesOk(rules) && IntervalsOk(p) && CannotOverflow(rules, p) && Admissible(x, rules, p)
    requires IsTrace(rules, p, trace, q)
    ensures !OverflowsIn(rules, trace)
    decreases |trace|
  {
    if trace != [] {
      var front, a := trace[..|trace| - 1], trace[|trace| - 1];
      TraceIsSafe(x, rules, p, front, a.before);
      TraceKeeps(x, rules, p, front, a.before);
      TraceNarrows(rules, p, front, a.before);
      StillNoOverflow(x, rules[a.k], p, a.before);
    }
  }

  // ---- Passes ----

  /** The rules that were requested are covered by the masks: those before i by cmask alone. */
  ghost predicate AllCovered(rules: seq<Rule>, goals: set<nat>, p: Intervals, mask: set<nat>, cmask: set<nat>, i: nat)
    requires RulesOk(rules) && IntervalsOk(p)
  {
    forall k :: 0 <= k < |rules| && k in goals ==> Covered(rules[k], p, if k < i then cmask else cmask + mask)
  }

  /** A pass is at rule i; `result` was reported as changed by the passes before. */
  ghost predicate Underway(rules: seq<Rule>, goals: set<nat>, first: Intervals, p: Intervals,
                           mask: set<nat>, cmask: set<nat>, result: set<nat>, i: nat)
    requires RulesOk(rules) && IntervalsOk(first)
  {
    IntervalsOk(p) && Tracked(rules, goals, first, p, mask, cmask, result, i)
  }

  ghost predicate Tracked(rules: seq<Rule>, goals: set<nat>, first: Intervals, p: Intervals,
                          mask: set<nat>, cmask: set<nat>, result: set<nat>, i: nat)
    requires RulesOk(rules) && IntervalsOk(first) && IntervalsOk(p)
  {
    AllNormalized(first) ==>
      AllNormalized(p) && Shrunk(first, p, result + cmask) && AllCovered(rules, goals, p, mask, cmask, i)
  }

  lemma AllCoveredAfter(rules: seq<Rule>, goals: set<nat>, p: Intervals, mask: set<nat>, cmask: set<nat>, i: nat)
    requires RulesOk(rules) && IntervalsOk(p) && AllNormalized(p) && i < |rules| && !RuleWraps(rules[i], p)
    requires AllCovered(rules, goals, p, mask, cmask, i)
    ensures var changed := if RuleChanges(rules[i], p) then {What(rules[i])} else {};
            AllCovered(rules, goals, Applied(rules[i], p), mask, cmask + changed, i + 1)
  {
    var changed := if RuleChanges(rules[i], p) then {What(rules[i])} else {};
    forall k | 0 <= k < |rules| && k in goals
      ensures Covered(rules[k], Applied(rules[i], p), if k < i + 1 then cmask + changed else cmask + changed + mask)
    {
      if k == i {
        CoveredNow(rules[i], p, cmask);
      } else if k < i {
        CoveredAfter(rules[k], rules[i], p, cmask);
      } else {
        CoveredAfter(rules[k], rules[i], p, cmask + mask);
        assert cmask + mask + changed == cmask + changed + mask;
      }
    }
  }

  lemma AfterRule(rules: seq<Rule>, goals: set<nat>, first: Intervals, p: Intervals,
                  mask: set<nat>, cmask: set<nat>, result: set<nat>, i: nat)
    requires RulesOk(rules) && IntervalsOk(first) && i < |rules|
    requires Underway(rules, goals, first, p, mask, cmask, result, i) && !RuleWraps(rules[i], p)
    ensures var changed := if RuleChanges(rules[i], p) then {What(rules[i])} else {};
            Underway(rules, goals, first, Applied(rules[i], p), mask, cmask + changed, result, i + 1)
  {
    if AllNormalized(first) {
      AppliedNormalizes(rules[i], p);
      ShrunkAfter(first, p, result + cmask, rules[i]);
      AllCoveredAfter(rules, goals, p, mask, cmask, i);
      var changed := if RuleChanges(rules[i], p) then {What(rules[i])} else {};
      assert result + cmask + changed == result + (cmask + changed);
    }
  }

  lemma MaskWithout(dependencies: set<nat>, cmask: set<nat>, mask: set<nat>)
    requires mask * dependencies == {}
    ensures dependencies * (cmask + mask) == dependencies * cmask
  {
    forall d | d in dependencies * (cmask + mask) ensures d in cmask {
      assert d in mask ==> d in mask * dependencies;
    }
  }

  /** One application of a rule: the call ends where a bound would wrap around. */
  ghost predicate Applies(rule: Rule, p: Intervals, cmask: set<nat>, q: Intervals, cmask': set<nat>, wrapped: bool)
    requires RuleOk(rule) && IntervalsOk(p)
  {
    && wrapped == RuleWraps(rule, p)
    && (wrapped ==> q == p && cmask' == cmask)
    && (!wrapped ==> q == Applied(rule, p) && cmask' == cmask + if RuleChanges(rule, p) then {What(rule)} else {})
  }

  lemma AfterApply(rules: seq<Rule>, goals: set<nat>, first: Intervals, p: Intervals, mask: set<nat>, cmask: set<nat>,
                   result: set<nat>, trace: seq<Application>, i: nat, q: Intervals, cmask': set<nat>, wrapped: bool)
    requires RulesOk(rules) && IntervalsOk(first) && i < |rules| && Traced(rules, first, trace, p, false)
    requires Underway(rules, goals, first, p, mask, cmask, result, i)
    requires Applies(rules[i], p, cmask, q, cmask', wrapped)
    ensures Traced(rules, first, trace + [Application(i, p)], q, wrapped)
    ensures IntervalsOk(q) && TotalRank(q) <= TotalRank(p)
    ensures wrapped ==> RuleWraps(rules[i], q) && q == p && cmask' == cmask
    ensures !wrapped ==> Underway(rules, goals, first, q, mask, cmask', result, i + 1)
    ensures cmask' == cmask || TotalRank(q) < TotalRank(p)
  {
    TraceGrows(rules, first, trace, p, i);
    if wrapped { return; }
    RuleDescends(rules[i], p);
    AfterRule(rules, goals, first, p, mask, cmask, result, i);
  }

  lemma AfterSkipped(rules: seq<Rule>, goals: set<nat>, first: Intervals, p: Intervals,
                     mask: set<nat>, cmask: set<nat>, result: set<nat>, i: nat)
    requires RulesOk(rules) && IntervalsOk(first) && i < |rules| && mask * Dependencies(rules[i]) == {}
    requires Underway(rules, goals, first, p, mask, cmask, result, i)
    ensures Underway(rules, goals, first, p, mask, cmask, result, i + 1)
  {
    MaskWithout(Dependencies(rules[i]), cmask, mask);
  }

  /** The mask holds exactly the parameters that changed. */
  ghost predicate Reports(first: Intervals, p: Intervals, mask: set<nat>)
    requires |first| == |p| == COUNT
  {
    forall k :: 0 <= k < COUNT ==> (k in mask <==> p[k] != first[k])
  }

  /** None of the requested rules would change anything. */
  ghost predicate Settled(rules: seq<Rule>, rmask: set<nat>, p: Intervals)
    requires RulesOk(rules) && IntervalsOk(p)
  {
    forall k :: 0 <= k < |rules| && Dependencies(rules[k]) * rmask != {} ==> Stable(rules[k], p)
  }

  ghost function Goals(rules: seq<Rule>, rmask: set<nat>): set<nat> {
    set k | 0 <= k < |rules| && Dependencies(rules[k]) * rmask != {}
  }

  lemma NextPass(rules: seq<Rule>, goals: set<nat>, first: Intervals, p: Intervals,
                 mask: set<nat>, cmask: set<nat>, result: set<nat>)
    requires RulesOk(rules) && IntervalsOk(first) && Underway(rules, goals, first, p, mask, cmask, result, |rules|)
    ensures Underway(rules, goals, first, p, cmask, {}, result + cmask, 0)
  {
    assert result + cmask + {} == result + cmask && {} + cmask == cmask;
  }

  lemma ChangesReported(rules: seq<Rule>, goals: set<nat>, first: Intervals, p: Intervals,
                        mask: set<nat>, cmask: set<nat>, result: set<nat>, i: nat)
    requires RulesOk(rules) && IntervalsOk(first) && Underway(rules, goals, first, p, mask, cmask, result, i)
    ensures AllNormalized(first) ==> Reports(first, p, result + cmask)
  {
  }

  lemma LastPass(rules: seq<Rule>, rmask: set<nat>, first: Intervals, p: Intervals, mask: set<nat>, result: set<nat>)
    requires RulesOk(rules) && IntervalsOk(first)
    requires Underway(rules, Goals(rules, rmask), first, p, mask, {}, result, |rules|)
    ensures AllNormalized(first) ==> Settled(rules, rmask, p)
  {
    forall k | 0 <= k < |rules| && Dependencies(rules[k]) * rmask != {} && AllNormalized(first)
      ensures Stable(rules[k], p)
    {
      assert k in Goals(rules, rmask) && Covered(rules[k], p, {});
      assert Dependencies(rules[k]) * {} == {};
    }
  }

  /** Every rule of the trace depends on one of the parameters. */
  ghost predicate OnlyFor(rules: seq<Rule>, trace: seq<Application>, mask: set<nat>) {
    forall i :: 0 <= i < |trace| ==> trace[i].k < |rules| && Dependencies(rules[trace[i].k]) * mask != {}
  }

  /** The trace leads to these intervals, and its rules depend on one of the parameters. */
  ghost predicate Followed(rules: seq<Rule>, p: Intervals, trace: seq<Application>, q: Intervals, wrapped: bool,
                           wide: set<nat>)
  {
    Traced(rules, p, trace, q, wrapped) && OnlyFor(rules, trace, wide)
  }

  lemma OnlyForMore(rules: seq<Rule>, trace: seq<Application>, mask: set<nat>, more: set<nat>)
    requires OnlyFor(rules, trace, mask)
    ensures OnlyFor(rules, trace, mask + more)
  {
    forall i | 0 <= i < |trace| ensures Dependencies(rules[trace[i].k]) * (mask + more) != {} {
      var d :| d in Dependencies(rules[trace[i].k]) * mask;
      assert d in Dependencies(rules[trace[i].k]) * (mask + more);
    }
  }

  lemma OnlyForOne(rules: seq<Rule>, trace: seq<Application>, mask: set<nat>, wide: set<nat>, a: Application)
    requires OnlyFor(rules, trace, wide) && a.k < |rules| && mask * Dependencies(rules[a.k]) != {} && mask <= wide
    ensures OnlyFor(rules, trace + [a], wide)
  {
    var d :| d in mask * Dependencies(rules[a.k]);
    assert d in Dependencies(rules[a.k]) * wide;
  }

  class Params {
    var intervals: Intervals
    var cmask: set<nat>

    /** intersect_interval(): afterwards the interval is the intersection, and cmask tells whether it changed. */
    method IntersectInterval(what: nat, other: Interval)
      requires IntervalsOk(intervals) && what < COUNT && Fits(other)
      modifies this
      ensures intervals == old(intervals)[what := Intersect(old(intervals[what]), other)]
      ensures cmask == old(cmask) + if Changes(old(intervals[what]), other) then {what} else {}
    {
      var range, changed := TightenInterval(intervals[what], other);
      range := RoundInterval(range);
      if IsEmptyRange(range) {
        changed := changed || !range.empty;
        range := range.(empty := true);
      } else {
        changed := changed || range.empty;
        range := range.(empty := false);
      }
      intervals := intervals[what := range];
      if changed { cmask := cmask + {what}; }
    }

    /** The beginning of intersect_interval(): the stricter bounds of both. */
    method TightenInterval(i: Interval, other: Interval) returns (range: Interval, changed: bool)
      ensures range == Tighten(i, other)
      ensures changed <==> MinChanges(i, other) || MaxChanges(i, other) || (other.integer && !i.integer)
    {
      range, changed := i, false;
      if other.min > range.min {
        range := range.(min := other.min, openmin := other.openmin);
        changed := true;
      } else if other.min == range.min {
        changed := changed || (other.openmin && !range.openmin);
        range := range.(openmin := range.openmin || other.openmin);
      }
      if other.max < range.max {
        range := range.(max := other.max, openmax := other.openmax);
        changed := true;
      } else if other.max == range.max {
        changed := changed || (other.openmax && !range.openmax);
        range := range.(openmax := range.openmax || other.openmax);
      }
      changed := changed || (other.integer && !range.integer);
      range := range.(integer := range.integer || other.integer);
    }

    /** The middle of intersect_interval(): open bounds of integer intervals, and single values. */
    method RoundInterval(i: Interval) returns (range: Interval)
      ensures range == Round(i)
    {
      range := i;
      if range.integer {
        if range.openmin {
          range := range.(min := if range.min == UMAX then 0 else range.min + 1);
          range := range.(openmin := false);
        }
        if range.openmax {
          range := range.(max := if range.max == 0 then UMAX else range.max - 1);
          range := range.(openmax := false);
        }
      } else if !range.openmin && !range.openmax && range.min == range.max {
        range := range.(integer := true);
      }
    }

    /** One rule of a pass. */
    method Apply(rule: Rule) returns (wrapped: bool, failed: bool)
      requires RuleOk(rule) && IntervalsOk(intervals)
      modifies this
      ensures Applies(rule, old(intervals), old(cmask), intervals, cmask, wrapped)
      ensures IntervalsOk(intervals)
      ensures failed <==> !wrapped && What(rule) in cmask && intervals[What(rule)].empty
    {
      wrapped := RuleWraps(rule, intervals);
      if wrapped { return true, false; }
      if !Skips(rule) { IntersectInterval(What(rule), Constraint(rule, intervals)); }
      failed := What(rule) in cmask && intervals[What(rule)].empty;
    }

    /** One pass over the rules whose dependencies are in rmask; n is the rule where it stopped. */
    method Pass(rules: seq<Rule>, rmask: set<nat>, ghost goals: set<nat>, ghost first: Intervals,
                ghost result: set<nat>, ghost trace: seq<Application>, ghost wide: set<nat>)
      returns (wrapped: bool, failed: bool, ghost n: nat, ghost trace': seq<Application>)
      requires RulesOk(rules) && IntervalsOk(first) && rmask <= wide
      requires Followed(rules, first, trace, intervals, false, wide)
      requires Underway(rules, goals, first, intervals, rmask, {}, result, 0)
      modifies this
      ensures Followed(rules, first, trace', intervals, wrapped, wide)
      ensures Underway(rules, goals, first, intervals, rmask, cmask, result, n)
      ensures TotalRank(intervals) <= old(TotalRank(intervals))
      ensures !wrapped && cmask != {} ==> TotalRank(intervals) < old(TotalRank(intervals))
      ensures wrapped ==> n < |rules| && RuleWraps(rules[n], intervals)
      ensures failed ==> 0 < n <= |rules| && intervals[What(rules[n - 1])].empty
      ensures !wrapped && !failed ==> n == |rules|
    {
      cmask := {};
      wrapped, failed, n, trace' := false, false, 0, trace;
      var k := 0;
      while k < |rules|
        invariant n == k <= |rules| && !wrapped && !failed
        invariant Followed(rules, first, trace', intervals, false, wide)
        invariant Underway(rules, goals, first, intervals, rmask, cmask, result, k)
        invariant TotalRank(intervals) <= old(TotalRank(intervals))
        invariant cmask != {} ==> TotalRank(intervals) < old(TotalRank(intervals))
      {
        wrapped, failed, trace' := PassOne(rules, rmask, goals, first, result, trace', k, wide);
        if wrapped { return; }
        k, n := k + 1, n + 1;
        if failed { return; }
      }
    }

    /** Rule k of a pass. */
    method PassOne(rules: seq<Rule>, rmask: set<nat>, ghost goals: set<nat>, ghost first: Intervals,
                   ghost result: set<nat>, ghost trace: seq<Application>, k: nat, ghost wide: set<nat>)
      returns (wrapped: bool, failed: bool, ghost trace': seq<Application>)
      requires RulesOk(rules) && IntervalsOk(first) && k < |rules|
      requires Followed(rules, first, trace, intervals, false, wide) && rmask <= wide
      requires Underway(rules, goals, first, intervals, rmask, cmask, result, k)
      modifies this
      ensures Followed(rules, first, trace', intervals, wrapped, wide)
      ensures IntervalsOk(intervals) && TotalRank(intervals) <= old(TotalRank(intervals))
      ensures wrapped ==> RuleWraps(rules[k], intervals) && intervals == old(intervals) && cmask == old(cmask)
      ensures !wrapped ==> Underway(rules, goals, first, intervals, rmask, cmask, result, k + 1)
      ensures cmask == old(cmask) || TotalRank(intervals) < old(TotalRank(intervals))
      ensures failed ==> !wrapped && intervals[What(rules[k])].empty
    {
      wrapped, failed, trace' := false, false, trace;
      if rmask * Dependencies(rules[k]) == {} {
        AfterSkipped(rules, goals, first, intervals, rmask, cmask, result, k);
        return;
      }
      ghost var before, mask := intervals, cmask;
      trace' := trace + [Application(k, before)];
      OnlyForOne(rules, trace, rmask, wide, Application(k, before));
      wrapped, failed := Apply(rules[k]);
      AfterApply(rules, goals, first, before, rmask, mask, result, trace, k, intervals, cmask, wrapped);
    }

    /**
     applyRules(): terminates. A call keeps an admissible configuration exactly if no quotient
     overflows in it, which cannot happen if no bounds within the initial ones allow it; then an
     empty interval is reported only if there is no admissible configuration. No interval gains
     a value. The call stops where an integer bound would wrap around. From normalized intervals,
     it goes on until none of the requested rules would change anything, and reports exactly the
     parameters that changed. Only rules that depend on a requested or changed parameter are applied.
     */
    method ApplyRules(rules: seq<Rule>, rmask: set<nat>) returns (outcome: Outcome, ghost trace: seq<Application>)
      requires IntervalsOk(intervals) && RulesOk(rules)
      modifies this
      ensures IntervalsOk(intervals) && Narrower(old(intervals), intervals)
      ensures IsTrace(rules, old(intervals), trace, intervals) && (outcome.Wrapped? <==> WrapsIn(rules, trace))
      ensures forall x :: old(Admissible(x, rules, intervals)) ==>
                (outcome.Refined? && Admissible(x, rules, intervals) <==> !OverflowsIn(rules, trace))
      ensures old(CannotOverflow(rules, intervals)) ==>
                forall x :: old(Admissible(x, rules, intervals)) ==> outcome.Refined? && Admissible(x, rules, intervals)
      ensures outcome.Invalid? ==> exists k :: 0 <= k < |rules| && intervals[What(rules[k])].empty
      ensures outcome.Wrapped? ==> exists k :: 0 <= k < |rules| && RuleWraps(rules[k], intervals)
      ensures outcome != Wrapped ==> OnlyFor(rules, trace, rmask + outcome.cmask)
      ensures old(AllNormalized(intervals)) && outcome.Refined? ==> Settled(rules, rmask, intervals)
      ensures old(AllNormalized(intervals)) && outcome != Wrapped ==> Reports(old(intervals), intervals, outcome.cmask)
    {
      ghost var first := intervals;
      outcome, trace := Refine(rules, rmask);
      TraceNarrows(rules, first, trace, intervals);
      forall x | Admissible(x, rules, first)
        ensures outcome.Refined? && Admissible(x, rules, intervals) <==> !OverflowsIn(rules, trace)
        ensures CannotOverflow(rules, first) ==> !OverflowsIn(rules, trace)
      {
        if CannotOverflow(rules, first) { TraceIsSafe(x, rules, first, trace, intervals); }
        if OverflowsIn(rules, trace) {
          TraceLoses(x, rules, first, trace, intervals);
        } else {
          TraceKeeps(x, rules, first, trace, intervals);
        }
      }
    }

    /** The loop of applyRules(). */
    method Refine(rules: seq<Rule>, rmask: set<nat>) returns (outcome: Outcome, ghost trace: seq<Application>)
      requires IntervalsOk(intervals) && RulesOk(rules)
      modifies this
      ensures IntervalsOk(intervals) && Traced(rules, old(intervals), trace, intervals, outcome.Wrapped?)
      ensures outcome.Invalid? ==> exists k :: 0 <= k < |rules| && intervals[What(rules[k])].empty
      ensures outcome.Wrapped? ==> exists k :: 0 <= k < |rules| && RuleWraps(rules[k], intervals)
      ensures outcome != Wrapped ==> OnlyFor(rules, trace, rmask + outcome.cmask)
      ensures old(AllNormalized(intervals)) && outcome.Refined? ==> Settled(rules, rmask, intervals)
      ensures old(AllNormalized(intervals)) && outcome != Wrapped ==> Reports(old(intervals), intervals, outcome.cmask)
    {
      ghost var first := intervals;
      ghost var goals := Goals(rules, rmask);
      var mask, result := rmask, {};
      trace := [];
      while true
        invariant Traced(rules, first, trace, intervals, false)
        invariant Underway(rules, goals, first, intervals, mask, {}, result, 0)
        invariant OnlyFor(rules, trace, rmask + result) && mask <= rmask + result
        decreases TotalRank(intervals)
      {
        var wrapped, failed, n, trace' := Pass(rules, mask, goals, first, result, trace, rmask + result);
        trace := trace';
        if wrapped { return Wrapped, trace; }
        OnlyForMore(rules, trace, rmask + result, cmask);
        assert rmask + result + cmask == rmask + (result + cmask);
        ChangesReported(rules, goals, first, intervals, mask, cmask, result, n);
        if failed { return Invalid(result + cmask), trace; }
        if cmask == {} {
          LastPass(rules, rmask, first, intervals, mask, result);
          assert result + cmask == result;
          return Refined(result), trace;
        }
        NextPass(rules, goals, first, intervals, mask, cmask, result);
        mask, result := cmask, result + cmask;
      }
    }
  }
}

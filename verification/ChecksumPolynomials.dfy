/** The checksums as polynomial division: the register is the remainder of the message. */
module ChecksumPolynomials {
  import opened Checksums

  // ---- Polynomials over the two-element field ----

  /** The exponents whose coefficient is 1. */
  type Poly = set<nat>

  function Plus(a: Poly, b: Poly): Poly { (a - b) + (b - a) }

  /** The polynomial times x^k. */
  function Times(a: Poly, k: nat): Poly { set e | e in a :: e + k }

  lemma TimesHas(a: Poly, k: nat, e: nat)
    ensures e in Times(a, k) <==> e >= k && e - k in a
  {
    if e >= k && e - k in a { assert (e - k) + k in Times(a, k); }
  }

  lemma TimesPlus(a: Poly, b: Poly, k: nat)
    ensures Times(Plus(a, b), k) == Plus(Times(a, k), Times(b, k))
  {
    forall e: nat ensures e in Times(Plus(a, b), k) <==> e in Plus(Times(a, k), Times(b, k)) {
      TimesHas(Plus(a, b), k, e);
      TimesHas(a, k, e);
      TimesHas(b, k, e);
    }
  }

  lemma TimesTwice(a: Poly, j: nat, k: nat)
    ensures Times(Times(a, j), k) == Times(a, j + k)
  {
    forall e: nat ensures e in Times(Times(a, j), k) <==> e in Times(a, j + k) {
      TimesHas(Times(a, j), k, e);
      if e >= k { TimesHas(a, j, e - k); }
      TimesHas(a, j + k, e);
    }
  }

  lemma TimesZero(a: Poly)
    ensures Times(a, 0) == a
  {
    forall e: nat ensures e in Times(a, 0) <==> e in a { TimesHas(a, 0, e); }
  }

  /** The product of g with the part of q below exponent n. */
  function Product(g: Poly, q: Poly, n: nat): Poly {
    if n == 0 then {}
    else if n - 1 in q then Plus(Product(g, q, n - 1), Times(g, n - 1))
    else Product(g, q, n - 1)
  }

  /** a and b leave the same remainder: their difference is a multiple of g. */
  ghost predicate Congruent(g: Poly, a: Poly, b: Poly) {
    exists q: Poly, n: nat :: Plus(a, b) == Product(g, q, n)
  }

  lemma {:induction false} ProductPlus(g: Poly, q: Poly, q': Poly, n: nat)
    ensures Product(g, Plus(q, q'), n) == Plus(Product(g, q, n), Product(g, q', n))
    decreases n
  {
    if n > 0 { ProductPlus(g, q, q', n - 1); }
  }

  function Below(q: Poly, n: nat): Poly { set e | e in q && e < n }

  /** Only the part of q below n matters. */
  lemma {:induction false} ProductBelow(g: Poly, q: Poly, n: nat, m: nat)
    requires n <= m
    ensures Product(g, Below(q, n), m) == Product(g, q, n)
    decreases m
  {
    if m > n {
      ProductBelow(g, q, n, m - 1);
    } else {
      SameBelow(g, Below(q, n), q, n);
    }
  }

  lemma {:induction false} SameBelow(g: Poly, q: Poly, q': Poly, n: nat)
    requires forall e :: e < n ==> (e in q <==> e in q')
    ensures Product(g, q, n) == Product(g, q', n)
    decreases n
  {
    if n > 0 { SameBelow(g, q, q', n - 1); }
  }

  lemma {:induction false} ProductTimes(g: Poly, q: Poly, n: nat)
    ensures Product(g, Times(q, 1), n + 1) == Times(Product(g, q, n), 1)
    decreases n
  {
    TimesHas(q, 1, n);
    if n == 0 {
      TimesHas(q, 1, 0);
    } else {
      ProductTimes(g, q, n - 1);
      TimesPlus(Product(g, q, n - 1), Times(g, n - 1), 1);
      TimesTwice(g, n - 1, 1);
    }
  }

  lemma CongruentSum(g: Poly, a: Poly, b: Poly, a': Poly, b': Poly)
    requires Congruent(g, a, b) && Congruent(g, a', b')
    ensures Congruent(g, Plus(a, a'), Plus(b, b'))
  {
    var q: Poly, n: nat :| Plus(a, b) == Product(g, q, n);
    var q': Poly, n': nat :| Plus(a', b') == Product(g, q', n');
    var m := n + n';
    var low, low' := Below(q, n), Below(q', n');
    ProductBelow(g, q, n, m);
    ProductBelow(g, q', n', m);
    ProductPlus(g, low, low', m);
    assert Plus(Plus(a, a'), Plus(b, b')) == Plus(Plus(a, b), Plus(a', b'));
    assert Plus(Plus(a, a'), Plus(b, b')) == Product(g, Plus(low, low'), m);
  }

  lemma CongruentTimes(g: Poly, a: Poly, b: Poly)
    requires Congruent(g, a, b)
    ensures Congruent(g, Times(a, 1), Times(b, 1))
  {
    var q: Poly, n: nat :| Plus(a, b) == Product(g, q, n);
    TimesPlus(a, b, 1);
    ProductTimes(g, q, n);
    assert Plus(Times(a, 1), Times(b, 1)) == Product(g, Times(q, 1), n + 1);
  }

  lemma CongruentSame(g: Poly, a: Poly)
    ensures Congruent(g, a, a)
  {
    assert Plus(a, a) == Product(g, {}, 0);
  }

  lemma CongruentOn(g: Poly, a: Poly, b: Poly, c: Poly)
    requires Congruent(g, a, b) && Congruent(g, b, c)
    ensures Congruent(g, a, c)
  {
    CongruentSum(g, a, b, b, c);
    var q: Poly, n: nat :| Plus(Plus(a, b), Plus(b, c)) == Product(g, q, n);
    assert Plus(Plus(a, b), Plus(b, c)) == Plus(a, c);
  }

  // ---- Remainders ----

  ghost predicate HasDegreeBelow(a: Poly, w: nat) { forall e :: e in a ==> e < w }

  /** Exponent w belongs to g, and none above it. */
  ghost predicate HasDegree(g: Poly, w: nat) { w in g && forall e :: e in g ==> e <= w }

  lemma TimesDegree(g: Poly, w: nat, k: nat)
    requires HasDegree(g, w)
    ensures HasDegree(Times(g, k), k + w)
  {
    TimesHas(g, k, k + w);
  }

  /** A product has the degrees of its factors: it vanishes only if the quotient does. */
  lemma {:induction false} ProductDegree(g: Poly, w: nat, q: Poly, n: nat)
    requires HasDegree(g, w)
    ensures HasDegreeBelow(Product(g, q, n), n + w)
    ensures HasDegreeBelow(Product(g, q, n), w) ==> Product(g, q, n) == {}
    decreases n
  {
    if n > 0 {
      ProductDegree(g, w, q, n - 1);
      if n - 1 in q {
        TimesDegree(g, w, n - 1);
        assert n - 1 + w in Product(g, q, n);
      }
    }
  }

  /** There is only one remainder. */
  lemma RemainderIsUnique(g: Poly, w: nat, a: Poly, b: Poly)
    requires HasDegree(g, w) && HasDegreeBelow(a, w) && HasDegreeBelow(b, w) && Congruent(g, a, b)
    ensures a == b
  {
    var q: Poly, n: nat :| Plus(a, b) == Product(g, q, n);
    ProductDegree(g, w, q, n);
    assert Plus(a, b) == {};
    assert a == b;
  }

  // ---- Registers ----

  /** The least significant bit of a register is its highest coefficient. */
  function Value(v: Bits): Poly { set i | 0 <= i < |v| && v[i] :: |v| - 1 - i }

  lemma ValueHas(v: Bits, e: nat)
    ensures e in Value(v) <==> e < |v| && v[|v| - 1 - e]
  {
    if e < |v| && v[|v| - 1 - e] { assert |v| - 1 - (|v| - 1 - e) in Value(v); }
  }

  /** The polynomial that is divided by: the constant stands for all but its highest term. */
  function Generator(p: Bits): Poly { Value(p) + {|p|} }

  lemma GeneratorDegree(p: Bits)
    ensures HasDegree(Generator(p), |p|)
  {
  }

  lemma ValueXor(a: Bits, b: Bits)
    requires |a| == |b|
    ensures Value(Xor(a, b)) == Plus(Value(a), Value(b))
  {
    forall e: nat ensures e in Value(Xor(a, b)) <==> e in Plus(Value(a), Value(b)) {
      ValueHas(Xor(a, b), e);
      ValueHas(a, e);
      ValueHas(b, e);
    }
  }

  lemma ValueAppend(a: Bits, b: Bits)
    ensures Value(a + b) == Plus(Times(Value(a), |b|), Value(b))
  {
    forall e: nat ensures e in Value(a + b) <==> e in Plus(Times(Value(a), |b|), Value(b)) {
      ValueHas(a + b, e);
      ValueHas(b, e);
      TimesHas(Value(a), |b|, e);
      if e >= |b| { ValueHas(a, e - |b|); }
    }
  }

  lemma ValueZeros(n: nat)
    ensures Value(Zeros(n)) == {}
  {
  }

  /** A step multiplies by x and takes the generator off. */
  lemma StepIsRemainder(p: Bits, v: Bits)
    requires |p| == |v| > 0
    ensures Value(Step(p, v)) == Plus(Times(Value(v), 1), if v[0] then Generator(p) else {})
  {
    forall e: nat
      ensures e in Value(Step(p, v)) <==> e in Plus(Times(Value(v), 1), if v[0] then Generator(p) else {})
    {
      ValueHas(Step(p, v), e);
      TimesHas(Value(v), 1, e);
      if e >= 1 { ValueHas(v, e - 1); }
      ValueHas(p, e);
    }
  }

  lemma StepIsCongruent(p: Bits, v: Bits)
    requires |p| == |v| > 0
    ensures Congruent(Generator(p), Value(Step(p, v)), Times(Value(v), 1))
  {
    var g := Generator(p);
    StepIsRemainder(p, v);
    TimesZero(g);
    assert Product(g, {0}, 1) == Plus({}, Times(g, 0)) == g by { assert Product(g, {0}, 0) == {}; }
    assert Plus(Value(Step(p, v)), Times(Value(v), 1)) == if v[0] then g else {};
    if v[0] {
      assert Plus(Value(Step(p, v)), Times(Value(v), 1)) == Product(g, {0}, 1);
    } else {
      assert Plus(Value(Step(p, v)), Times(Value(v), 1)) == Product(g, {}, 0);
    }
  }

  lemma {:induction false} StepsAreCongruent(p: Bits, v: Bits, n: nat)
    requires |p| == |v| > 0
    ensures Congruent(Generator(p), Value(Steps(p, v, n)), Times(Value(v), n))
    decreases n
  {
    if n == 0 {
      TimesZero(Value(v));
      CongruentSame(Generator(p), Value(v));
    } else {
      StepsAreCongruent(p, Step(p, v), n - 1);
      StepIsCongruent(p, v);
      CongruentShift(Generator(p), Value(Step(p, v)), Times(Value(v), 1), n - 1);
      TimesTwice(Value(v), 1, n - 1);
      CongruentOn(Generator(p), Value(Steps(p, v, n)), Times(Value(Step(p, v)), n - 1), Times(Value(v), n));
    }
  }

  lemma {:induction false} CongruentShift(g: Poly, a: Poly, b: Poly, n: nat)
    requires Congruent(g, a, b)
    ensures Congruent(g, Times(a, n), Times(b, n))
    decreases n
  {
    if n == 0 {
      TimesZero(a);
      TimesZero(b);
    } else {
      CongruentShift(g, a, b, n - 1);
      CongruentTimes(g, Times(a, n - 1), Times(b, n - 1));
      TimesTwice(a, n - 1, 1);
      TimesTwice(b, n - 1, 1);
    }
  }

  // ---- Messages ----

  /** The bits of a message in the order in which they are divided: each symbol from its lowest bit on. */
  function MessageBits(n: nat, data: seq<nat>): Bits {
    if data == [] then [] else MessageBits(n, data[..|data| - 1]) + ToBits(data[|data| - 1], n)
  }

  lemma {:induction false} SymbolBits(x: nat, n: nat, width: nat)
    requires x < Pow2(n) && n <= width
    ensures ToBits(x, width) == ToBits(x, n) + Zeros(width - n)
    decreases n
  {
    if n == 0 {
      ZeroBits(width);
    } else {
      SymbolBits(x / 2, n - 1, width - 1);
    }
  }

  /** What the checksum of a message with a seed has to be congruent to. */
  function Dividend(p: Bits, n: nat, seed: Bits, data: seq<nat>): Poly {
    Plus(Times(Value(seed), |MessageBits(n, data)|), Times(Value(MessageBits(n, data)), |p|))
  }

  /** The bits of a symbol are at the top of the register. */
  lemma SymbolValue(x: nat, n: nat, width: nat)
    requires x < Pow2(n) && n <= width
    ensures Value(ToBits(x, width)) == Times(Value(ToBits(x, n)), width - n)
  {
    SymbolBits(x, n, width);
    ValueAppend(ToBits(x, n), Zeros(width - n));
    ValueZeros(width - n);
  }

  lemma NextDividend(p: Bits, n: nat, seed: Bits, data: seq<nat>)
    requires data != [] && n <= |p| && data[|data| - 1] < Pow2(n)
    ensures var front, last := data[..|data| - 1], data[|data| - 1];
            Dividend(p, n, seed, data) == Times(Plus(Dividend(p, n, seed, front), Value(ToBits(last, |p|))), n)
  {
    var front, last := data[..|data| - 1], data[|data| - 1];
    SymbolValue(last, n, |p|);
    LongerDividend(Value(seed), MessageBits(n, front), ToBits(last, n), |p|);
  }

  lemma LongerDividend(seed: Poly, bits: Bits, symbol: Bits, w: nat)
    requires |symbol| <= w
    ensures Plus(Times(seed, |bits + symbol|), Times(Value(bits + symbol), w)) ==
            Times(Plus(Plus(Times(seed, |bits|), Times(Value(bits), w)), Times(Value(symbol), w - |symbol|)), |symbol|)
  {
    var n := |symbol|;
    ValueAppend(bits, symbol);
    TimesPlus(Times(Value(bits), n), Value(symbol), w);
    TimesTwice(Value(bits), n, w);
    TimesPlus(Plus(Times(seed, |bits|), Times(Value(bits), w)), Times(Value(symbol), w - n), n);
    TimesPlus(Times(seed, |bits|), Times(Value(bits), w), n);
    TimesTwice(seed, |bits|, n);
    TimesTwice(Value(bits), w, n);
    TimesTwice(Value(symbol), w - n, n);
    PlusAssociates(Times(seed, |bits| + n), Times(Value(bits), w + n), Times(Value(symbol), w));
  }

  lemma PlusAssociates(a: Poly, b: Poly, c: Poly)
    ensures Plus(a, Plus(b, c)) == Plus(Plus(a, b), c)
  {
  }

  /**
   The checksum is the remainder of the message, shifted by the width of the register, and of the
   seed in front of it.
   */
  lemma {:induction false} ReferenceIsRemainder(p: Bits, n: nat, seed: Bits, data: seq<nat>)
    requires |p| == |seed| > 0 && n <= |p| && forall k :: 0 <= k < |data| ==> data[k] < Pow2(n)
    ensures Congruent(Generator(p), Value(Reference(p, n, seed, data)), Dividend(p, n, seed, data))
    ensures HasDegreeBelow(Value(Reference(p, n, seed, data)), |p|) && HasDegree(Generator(p), |p|)
    decreases |data|
  {
    GeneratorDegree(p);
    if data == [] {
      TimesZero(Value(seed));
      assert Value(MessageBits(n, data)) == {} && Times({}, |p|) == {};
      CongruentSame(Generator(p), Value(seed));
    } else {
      var g, front, last := Generator(p), data[..|data| - 1], data[|data| - 1];
      var v, symbol := Reference(p, n, seed, front), ToBits(last, |p|);
      ReferenceIsRemainder(p, n, seed, front);
      CongruentSame(g, Value(symbol));
      CongruentSum(g, Value(v), Dividend(p, n, seed, front), Value(symbol), Value(symbol));
      ValueXor(v, symbol);
      CongruentShift(g, Value(Xor(v, symbol)), Plus(Dividend(p, n, seed, front), Value(symbol)), n);
      StepsAreCongruent(p, Xor(v, symbol), n);
      NextDividend(p, n, seed, data);
      CongruentOn(g, Value(Reference(p, n, seed, data)), Times(Value(Xor(v, symbol)), n), Dividend(p, n, seed, data));
    }
  }

  /** A number by its hexadecimal digits, from the lowest on. */
  function Number(digits: seq<nat>): nat {
    if digits == [] then 0 else digits[0] + 16 * Number(digits[1..])
  }

  function DigitValue(d: nat, width: nat): Poly {
    (if d % 2 == 1 then {width + 3} else {}) + (if d / 2 % 2 == 1 then {width + 2} else {})
    + (if d / 4 % 2 == 1 then {width + 1} else {}) + (if d / 8 % 2 == 1 then {width} else {})
  }

  function DigitsValue(digits: seq<nat>): Poly {
    if digits == [] then {} else DigitValue(digits[0], 4 * |digits| - 4) + DigitsValue(digits[1..])
  }

  lemma ValueOfBit(x: nat, width: nat)
    ensures Value(ToBits(x, width + 1)) == (if x % 2 == 1 then {width} else {}) + Value(ToBits(x / 2, width))
  {
    var v, rest := ToBits(x, width + 1), ToBits(x / 2, width);
    forall e: nat ensures e in Value(v) <==> (e == width && x % 2 == 1) || e in Value(rest) {
      ValueHas(v, e);
      ValueHas(rest, e);
    }
  }

  lemma ValueOfDigit(d: nat, rest: nat, width: nat)
    requires d < 16
    ensures Value(ToBits(d + 16 * rest, width + 4)) == DigitValue(d, width) + Value(ToBits(rest, width))
  {
    Halves(d, rest);
    ValueOfBits(d + 16 * rest, d / 2 + 8 * rest, d / 4 + 4 * rest, d / 8 + 2 * rest, rest, width);
    Regroup(if d % 2 == 1 then {width + 3} else {}, if d / 2 % 2 == 1 then {width + 2} else {},
            if d / 4 % 2 == 1 then {width + 1} else {}, if d / 8 % 2 == 1 then {width} else {},
            Value(ToBits(rest, width)));
  }

  lemma ValueOfBits(x: nat, x1: nat, x2: nat, x3: nat, rest: nat, width: nat)
    requires x / 2 == x1 && x1 / 2 == x2 && x2 / 2 == x3 && x3 / 2 == rest
    ensures Value(ToBits(x, width + 4)) ==
            (if x % 2 == 1 then {width + 3} else {}) + ((if x1 % 2 == 1 then {width + 2} else {})
            + ((if x2 % 2 == 1 then {width + 1} else {}) + ((if x3 % 2 == 1 then {width} else {})
            + Value(ToBits(rest, width)))))
  {
    ValueOfBit(x, width + 3);
    ValueOfBit(x1, width + 2);
    ValueOfBit(x2, width + 1);
    ValueOfBit(x3, width);
  }

  lemma Regroup(a: Poly, b: Poly, c: Poly, d: Poly, rest: Poly)
    ensures a + (b + (c + (d + rest))) == a + b + c + d + rest
  {
  }

  lemma Halves(d: nat, rest: nat)
    requires d < 16
    ensures (d + 16 * rest) / 2 == d / 2 + 8 * rest && (d + 16 * rest) % 2 == d % 2
    ensures (d / 2 + 8 * rest) / 2 == d / 4 + 4 * rest && (d / 2 + 8 * rest) % 2 == d / 2 % 2
    ensures (d / 4 + 4 * rest) / 2 == d / 8 + 2 * rest && (d / 4 + 4 * rest) % 2 == d / 4 % 2
    ensures (d / 8 + 2 * rest) / 2 == rest && (d / 8 + 2 * rest) % 2 == d / 8 % 2
  {
  }

  lemma {:induction false} ValueOfDigits(digits: seq<nat>)
    requires forall i :: 0 <= i < |digits| ==> digits[i] < 16
    ensures Value(ToBits(Number(digits), 4 * |digits|)) == DigitsValue(digits)
    decreases |digits|
  {
    if digits != [] {
      ValueOfDigits(digits[1..]);
      ValueOfDigit(digits[0], Number(digits[1..]), 4 * |digits| - 4);
    }
  }

  /** One digit in front of others of which number and coefficients are known. */
  lemma OneMoreDigit(d: nat, rest: seq<nat>, n: nat, value: Poly)
    requires Number(rest) == n && DigitsValue(rest) == value
    ensures Number([d] + rest) == d + 16 * n && DigitsValue([d] + rest) == DigitValue(d, 4 * |rest|) + value
  {
    assert ([d] + rest)[1..] == rest;
  }

  lemma UpperDigits() returns (digits: seq<nat>)
    ensures |digits| == 4 && (forall i :: 0 <= i < 4 ==> digits[i] < 16)
    ensures Number(digits) == 0x82F6 && DigitsValue(digits) == {14, 13, 11, 10, 9, 8, 6, 0}
  {
    OneMoreDigit(8, [], 0, {});
    OneMoreDigit(2, [8] + [], 8, {0});
    OneMoreDigit(0xF, [2] + ([8] + []), 0x82, {6, 0});
    OneMoreDigit(6, [0xF] + ([2] + ([8] + [])), 0x82F, {11, 10, 9, 8, 6, 0});
    digits := [6] + ([0xF] + ([2] + ([8] + [])));
  }

  lemma LowerDigits(upper: seq<nat>, value: Poly) returns (digits: seq<nat>)
    requires |upper| == 4 && (forall i :: 0 <= i < 4 ==> upper[i] < 16)
    requires Number(upper) == 0x82F6 && DigitsValue(upper) == value
    ensures |digits| == 8 && (forall i :: 0 <= i < 8 ==> digits[i] < 16) && Number(digits) == 0x82F63B78
    ensures DigitsValue(digits) ==
            DigitValue(8, 28) + (DigitValue(7, 24) + (DigitValue(0xB, 20) + (DigitValue(3, 16) + value)))
  {
    var value1 := DigitValue(3, 16) + value;
    var value2 := DigitValue(0xB, 20) + value1;
    var value3 := DigitValue(7, 24) + value2;
    OneMoreDigit(3, upper, 0x82F6, value);
    OneMoreDigit(0xB, [3] + upper, 0x82F63, value1);
    OneMoreDigit(7, [0xB] + ([3] + upper), 0x82F63B, value2);
    OneMoreDigit(8, [7] + ([0xB] + ([3] + upper)), 0x82F63B7, value3);
    digits := [8] + ([7] + ([0xB] + ([3] + upper)));
  }

  /** Which coefficients the lower digits stand for. */
  lemma LowerValues()
    ensures DigitValue(3, 16) == {19, 18} && DigitValue(0xB, 20) == {23, 22, 20}
    ensures DigitValue(7, 24) == {27, 26, 25} && DigitValue(8, 28) == {28}
  {
  }

  lemma AllValues()
    ensures {28} + ({27, 26, 25} + ({23, 22, 20} + ({19, 18} + {14, 13, 11, 10, 9, 8, 6, 0}))) + {32} ==
            {32, 28, 27, 26, 25, 23, 22, 20, 19, 18, 14, 13, 11, 10, 9, 8, 6, 0}
  {
  }

  /** The generator of CRC-32C (Castagnoli), by its exponents. */
  lemma Crc32cGenerator()
    ensures Generator(Crc32cPolynomial()) == {32, 28, 27, 26, 25, 23, 22, 20, 19, 18, 14, 13, 11, 10, 9, 8, 6, 0}
  {
    var upper := UpperDigits();
    var digits := LowerDigits(upper, {14, 13, 11, 10, 9, 8, 6, 0});
    ValueOfDigits(digits);
    LowerValues();
    AllValues();
  }

  lemma Crc16Digits() returns (digits: seq<nat>)
    ensures |digits| == 4 && (forall i :: 0 <= i < 4 ==> digits[i] < 16)
    ensures Number(digits) == 0xA001 && DigitsValue(digits) == {15, 2, 0}
  {
    OneMoreDigit(0xA, [], 0, {});
    OneMoreDigit(0, [0xA] + [], 0xA, {2, 0});
    OneMoreDigit(0, [0] + ([0xA] + []), 0xA0, {2, 0});
    OneMoreDigit(1, [0] + ([0] + ([0xA] + [])), 0xA00, {2, 0});
    digits := [1] + ([0] + ([0] + ([0xA] + [])));
  }

  /** The generator of CRC-16. */
  lemma Crc16Generator()
    ensures Generator(Crc16Polynomial()) == {16, 15, 2, 0}
  {
    var digits := Crc16Digits();
    ValueOfDigits(digits);
  }

  /** Crc32c and Crc16 compute the remainders by these generators. */
  lemma ChecksumsAreRemainders(seed: Bits, seed': Bits, data: seq<nat>)
    requires |seed| == 32 && |seed'| == 16 && forall k :: 0 <= k < |data| ==> data[k] < Pow2(8)
    ensures Congruent({32, 28, 27, 26, 25, 23, 22, 20, 19, 18, 14, 13, 11, 10, 9, 8, 6, 0},
                      Value(Reference(Crc32cPolynomial(), 8, seed, data)), Dividend(Crc32cPolynomial(), 8, seed, data))
    ensures Congruent({16, 15, 2, 0},
                      Value(Reference(Crc16Polynomial(), 8, seed', data)), Dividend(Crc16Polynomial(), 8, seed', data))
  {
    Crc32cGenerator();
    Crc16Generator();
    ReferenceIsRemainder(Crc32cPolynomial(), 8, seed, data);
    ReferenceIsRemainder(Crc16Polynomial(), 8, seed', data);
  }
}

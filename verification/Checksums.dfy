/**
 The table-driven checksums of drivers/libblockfs/src/checksums.hpp. A register is the
 sequence of its bits, least significant first. The polynomial p (and with it the width
 of the register) and the number n of bits per symbol are parameters: CRC-32C has 32
 bits and 0x82F63B78, CRC-16 has 16 bits and 0xA001, and both take bytes, n = 8.
 */
module Checksums {
  type Bits = seq<bool>

  function Zeros(n: nat): (r: Bits)
    ensures |r| == n && forall i :: 0 <= i < n ==> !r[i]
  {
    seq(n, _ => false)
  }

  function Xor(a: Bits, b: Bits): (r: Bits)
    requires |a| == |b|
    ensures |r| == |a| && forall i :: 0 <= i < |r| ==> r[i] == (a[i] != b[i])
  {
    seq(|a|, i requires 0 <= i < |a| => a[i] != b[i])
  }

  // ---- Polynomial division, one bit at a time ----

  /** Shift right by one bit; reduce by the polynomial if the bit that drops out is set. */
  function Step(p: Bits, v: Bits): (r: Bits)
    requires |p| == |v| > 0
    ensures |r| == |v|
  {
    var shifted := v[1..] + [false];
    if v[0] then Xor(shifted, p) else shifted
  }

  function Steps(p: Bits, v: Bits, n: nat): (r: Bits)
    requires |p| == |v| > 0
    ensures |r| == |v|
    decreases n
  {
    if n == 0 then v else Steps(p, Step(p, v), n - 1)
  }

  /** The checksum as the remainder of a bitwise division. */
  function Reference(p: Bits, n: nat, seed: Bits, data: seq<nat>): (r: Bits)
    requires |p| == |seed| > 0
    ensures |r| == |seed|
  {
    if data == [] then seed
    else
      var v := Reference(p, n, seed, data[..|data| - 1]);
      Steps(p, Xor(v, ToBits(data[|data| - 1], |p|)), n)
  }

  lemma StepIsLinear(p: Bits, a: Bits, b: Bits)
    requires |p| == |a| == |b| > 0
    ensures Step(p, Xor(a, b)) == Xor(Step(p, a), Step(p, b))
  {
    assert Xor(a, b)[1..] + [false] == Xor(a[1..] + [false], b[1..] + [false]);
  }

  lemma {:induction false} StepsAreLinear(p: Bits, a: Bits, b: Bits, n: nat)
    requires |p| == |a| == |b| > 0
    ensures Steps(p, Xor(a, b), n) == Xor(Steps(p, a, n), Steps(p, b, n))
    decreases n
  {
    if n > 0 {
      StepIsLinear(p, a, b);
      StepsAreLinear(p, Step(p, a), Step(p, b), n - 1);
    }
  }

  /** Steps over zero bits only shift. */
  lemma {:induction false} StepsOverZeros(p: Bits, v: Bits, n: nat)
    requires |p| == |v| > 0 && n <= |v| && forall i :: 0 <= i < n ==> !v[i]
    ensures Steps(p, v, n) == v[n..] + Zeros(n)
    decreases n
  {
    if n > 0 {
      StepsOverZeros(p, Step(p, v), n - 1);
    }
  }

  lemma {:induction false} StepsAdd(p: Bits, v: Bits, m: nat, n: nat)
    requires |p| == |v| > 0
    ensures Steps(p, v, m + n) == Steps(p, Steps(p, v, m), n)
    decreases m
  {
    if m > 0 { StepsAdd(p, Step(p, v), m - 1, n); }
  }

  lemma HighAndLow(v: Bits, n: nat)
    requires n <= |v|
    ensures var high, low := Zeros(n) + v[n..], v[..n] + Zeros(|v| - n); v == Xor(high, low) && high[n..] == v[n..]
  {
  }

  /** n steps at once: shift by n bits and add what n steps make of the low n bits. */
  lemma SymbolAtOnce(p: Bits, v: Bits, n: nat)
    requires |p| == |v| >= n && |v| > 0
    ensures Steps(p, v, n) == Xor(v[n..] + Zeros(n), Steps(p, v[..n] + Zeros(|v| - n), n))
  {
    var high, low := Zeros(n) + v[n..], v[..n] + Zeros(|v| - n);
    HighAndLow(v, n);
    StepsAreLinear(p, high, low, n);
    StepsOverZeros(p, high, n);
  }

  // ---- Numbers and bits ----

  function ToBits(x: nat, width: nat): (r: Bits)
    ensures |r| == width
  {
    if width == 0 then [] else [x % 2 == 1] + ToBits(x / 2, width - 1)
  }

  function FromBits(b: Bits): nat {
    if b == [] then 0 else (if b[0] then 1 else 0) + 2 * FromBits(b[1..])
  }

  function Pow2(m: nat): (r: nat)
    ensures r > 0
  {
    if m == 0 then 1 else 2 * Pow2(m - 1)
  }

  lemma {:induction false} FromBitsBound(b: Bits)
    ensures FromBits(b) < Pow2(|b|)
    decreases |b|
  {
    if b != [] { FromBitsBound(b[1..]); }
  }

  lemma {:induction false} ZeroBits(width: nat)
    ensures ToBits(0, width) == Zeros(width)
  {
    if width > 0 { ZeroBits(width - 1); }
  }

  lemma {:induction false} BitsRoundTrip(b: Bits, width: nat)
    requires |b| <= width
    ensures ToBits(FromBits(b), width) == b + Zeros(width - |b|)
    decreases |b|
  {
    if b == [] {
      ZeroBits(width);
    } else {
      BitsRoundTrip(b[1..], width - 1);
    }
  }

  // ---- The table ----

  /** Entry x: n steps on the symbol x. */
  function Entry(p: Bits, n: nat, x: nat): Bits
    requires |p| > 0
  {
    Steps(p, ToBits(x, |p|), n)
  }

  ghost predicate IsTable(p: Bits, n: nat, table: seq<Bits>) {
    |p| > 0 && |table| == Pow2(n) && forall x :: 0 <= x < |table| ==> table[x] == Entry(p, n, x)
  }

  /** x is a multiple of 2^m. */
  predicate Divides(m: nat, x: nat) { m == 0 || (x % 2 == 0 && Divides(m - 1, x / 2)) }

  /** Adding a power of two to a multiple of twice that power sets one bit. */
  lemma {:induction false} AddPower(m: nat, j: nat, width: nat)
    requires Divides(m + 1, j)
    ensures ToBits(Pow2(m) + j, width) == Xor(ToBits(Pow2(m), width), ToBits(j, width))
    decreases m
  {
    if width > 0 {
      if m > 0 {
        assert (Pow2(m) + j) / 2 == Pow2(m - 1) + j / 2;
        AddPower(m - 1, j / 2, width - 1);
      } else {
        assert (1 + j) / 2 == j / 2;
        ZeroBits(width - 1);
      }
    }
  }

  /** Between two multiples of 2^(m+1) there is one more multiple of 2^m. */
  lemma {:induction false} NextMultiple(m: nat, j: nat, x: nat)
    requires Divides(m + 1, j) && Divides(m, x) && j <= x < j + 2 * Pow2(m)
    ensures x == j || x == j + Pow2(m)
    decreases m
  {
    if m > 0 {
      assert Divides(m, j / 2);
      NextMultiple(m - 1, j / 2, x / 2);
    }
  }

  lemma {:induction false} MultipleAdds(m: nat, j: nat)
    requires Divides(m, j)
    ensures Divides(m, j + Pow2(m))
    decreases m
  {
    if m > 0 { MultipleAdds(m - 1, j / 2); }
  }

  /** The bits of a power of two. */
  lemma {:induction false} PowerBits(m: nat, width: nat)
    requires m < width
    ensures ToBits(Pow2(m), width) == Zeros(m) + [true] + Zeros(width - m - 1)
    decreases m
  {
    if m == 0 {
      ZeroBits(width - 1);
    } else {
      PowerBits(m - 1, width - 1);
    }
  }

  lemma ShiftedPower(m: nat, w: nat)
    requires m < w
    ensures (Zeros(m) + [true] + Zeros(w - m - 1))[m..] + Zeros(m) == Zeros(0) + [true] + Zeros(w - 0 - 1)
  {
  }

  /** Entry 2^m needs only n - m steps from the lowest bit. */
  lemma PowerEntry(p: Bits, n: nat, m: nat)
    requires m < n <= |p|
    ensures Entry(p, n, Pow2(m)) == Steps(p, ToBits(1, |p|), n - m)
  {
    var w := |p|;
    var v := ToBits(Pow2(m), w);
    PowerBits(m, w);
    StepsAdd(p, v, m, n - m);
    StepsOverZeros(p, v, m);
    PowerBits(0, w);
    ShiftedPower(m, w);
  }

  lemma SumEntry(p: Bits, n: nat, m: nat, j: nat)
    requires |p| > 0 && Divides(m + 1, j)
    ensures Entry(p, n, Pow2(m) + j) == Xor(Entry(p, n, Pow2(m)), Entry(p, n, j))
  {
    AddPower(m, j, |p|);
    StepsAreLinear(p, ToBits(Pow2(m), |p|), ToBits(j, |p|), n);
  }

  lemma EntryZero(p: Bits, n: nat)
    requires |p| > 0 && n <= |p|
    ensures Entry(p, n, 0) == Zeros(|p|)
  {
    ZeroBits(|p|);
    StepsOverZeros(p, Zeros(|p|), n);
  }

  /** All multiples of 2^m below the limit are filled in. */
  ghost predicate Filled(p: Bits, n: nat, table: seq<Bits>, m: nat, limit: nat) {
    && |p| > 0 && |table| == Pow2(n) && (forall x :: 0 <= x < |table| ==> |table[x]| == |p|)
    && forall x: nat {:trigger table[x]} :: x < limit && x < |table| && Divides(m, x) ==> table[x] == Entry(p, n, x)
  }

  /** One assignment of the inner loop. */
  lemma FillNeighbour(p: Bits, n: nat, table: seq<Bits>, m: nat, j: nat, table': seq<Bits>)
    requires m < n <= |p| && Divides(m + 1, j)
    requires Filled(p, n, table, m + 1, |table|) && Filled(p, n, table, m, j) && Pow2(m) + j < |table|
    requires table' == table[Pow2(m) + j := Entry(p, n, Pow2(m) + j)]
    ensures Filled(p, n, table', m + 1, |table|) && Filled(p, n, table', m, j + 2 * Pow2(m))
  {
    forall x: nat | x < j + 2 * Pow2(m) && x < |table| && Divides(m, x) ensures table'[x] == Entry(p, n, x) {
      if j <= x { NextMultiple(m, j, x); }
    }
  }

  /** What one iteration of the inner loop does. */
  lemma FillOne(p: Bits, n: nat, table: seq<Bits>, m: nat, j: nat, crc: Bits)
    requires |table| == Pow2(n) && m < n <= |p| && Divides(m + 1, j) && j < |table| && crc == Entry(p, n, Pow2(m))
    requires Filled(p, n, table, m + 1, |table|) && Filled(p, n, table, m, j)
    ensures Pow2(m) + j < |table| && |table[j]| == |crc|
    ensures var table' := table[Pow2(m) + j := Xor(crc, table[j])];
            Filled(p, n, table', m + 1, |table|) && Filled(p, n, table', m, j + 2 * Pow2(m))
    ensures Divides(m + 1, j + 2 * Pow2(m))
  {
    RoomForNeighbour(n, m, j);
    SumEntry(p, n, m, j);
    MultipleAdds(m + 1, j);
    FillNeighbour(p, n, table, m, j, table[Pow2(m) + j := Xor(crc, table[j])]);
  }

  /** The inner loop: i = 2^m; every multiple of 2i gets a neighbour. */
  method FillRow(p: Bits, n: nat, arr: array<Bits>, i: nat, ghost m: nat, crc: Bits)
    requires arr.Length == Pow2(n) && m < n <= |p| && i == Pow2(m) && crc == Entry(p, n, Pow2(m))
    requires Filled(p, n, arr[..], m + 1, arr.Length)
    modifies arr
    ensures Filled(p, n, arr[..], m, arr.Length)
  {
    var j := 0;
    AnyMultiple(m + 1);
    while j < arr.Length
      invariant Divides(m + 1, j) && Filled(p, n, arr[..], m + 1, arr.Length) && Filled(p, n, arr[..], m, j)
      decreases arr.Length - j
    {
      ghost var before := arr[..];
      FillOne(p, n, before, m, j, crc);
      arr[i + j] := Xor(crc, arr[j]);
      assert arr[..] == before[i + j := Xor(crc, before[j])];
      j := j + 2 * i;
    }
  }

  lemma {:induction false} AnyMultiple(m: nat)
    ensures Divides(m, 0)
    decreases m
  {
    if m > 0 { AnyMultiple(m - 1); }
  }

  lemma {:induction false} RoomForNeighbour(n: nat, m: nat, j: nat)
    requires m < n && Divides(m + 1, j) && j < Pow2(n)
    ensures Pow2(m) + j < Pow2(n)
    decreases n
  {
    if m > 0 { RoomForNeighbour(n - 1, m - 1, j / 2); }
  }

  lemma {:induction false} OnlyZero(n: nat, x: nat)
    requires Divides(n, x) && x < Pow2(n)
    ensures x == 0
    decreases n
  {
    if n > 0 { OnlyZero(n - 1, x / 2); }
  }

  lemma FilledAtFirst(p: Bits, n: nat, table: seq<Bits>)
    requires 0 < n <= |p| && |table| == Pow2(n) && forall x :: 0 <= x < |table| ==> table[x] == Zeros(|p|)
    ensures Filled(p, n, table, n, |table|)
  {
    EntryZero(p, n);
    forall x: nat | x < |table| && Divides(n, x) ensures table[x] == Entry(p, n, x) { OnlyZero(n, x); }
  }

  lemma FilledAtLast(p: Bits, n: nat, table: seq<Bits>)
    requires Filled(p, n, table, 0, |table|)
    ensures IsTable(p, n, table)
  {
    forall x: nat | x < |table| ensures table[x] == Entry(p, n, x) { assert Divides(0, x); }
  }

  /** One more single step from the lowest bit. */
  lemma NextPower(p: Bits, n: nat, m: nat, crc: Bits)
    requires m < n <= |p| && crc == Steps(p, ToBits(1, |p|), n - m - 1)
    ensures Step(p, crc) == Steps(p, ToBits(1, |p|), n - m) == Entry(p, n, Pow2(m))
  {
    StepsAdd(p, ToBits(1, |p|), n - m - 1, 1);
    assert Steps(p, crc, 1) == Step(p, crc);
    PowerEntry(p, n, m);
  }

  /** The constructor of the table: entries of powers of two by single steps, the rest by addition. */
  method MakeTable(p: Bits, n: nat) returns (arr: array<Bits>)
    requires 0 < n <= |p|
    ensures fresh(arr) && IsTable(p, n, arr[..])
  {
    arr := new Bits[Pow2(n)](_ => Zeros(|p|));
    var crc := ToBits(1, |p|);
    var i := Pow2(n - 1);
    ghost var m: nat := n;
    FilledAtFirst(p, n, arr[..]);
    while i != 0
      invariant m <= n && (i == if m == 0 then 0 else Pow2(m - 1))
      invariant |crc| == |p| && crc == Steps(p, ToBits(1, |p|), n - m)
      invariant Filled(p, n, arr[..], m, arr.Length)
      decreases m
    {
      m := m - 1;
      NextPower(p, n, m, crc);
      crc := Step(p, crc);
      FillRow(p, n, arr, i, m, crc);
      i := i / 2;
    }
    FilledAtLast(p, n, arr[..]);
  }

  const CRC32C: nat := 0x82F63B78

  const CRC16: nat := 0xA001

  function Crc32cPolynomial(): (p: Bits)
    ensures |p| == 32
  {
    ToBits(CRC32C, 32)
  }

  function Crc16Polynomial(): (p: Bits)
    ensures |p| == 16
  {
    ToBits(CRC16, 16)
  }

  // ---- The checksum ----

  /** A table lookup does n steps. */
  lemma Lookup(p: Bits, n: nat, table: seq<Bits>, v: Bits)
    requires 0 < n <= |p| == |v| && IsTable(p, n, table)
    ensures FromBits(v[..n]) < |table| && |table[FromBits(v[..n])]| == |p|
    ensures Xor(v[n..] + Zeros(n), table[FromBits(v[..n])]) == Steps(p, v, n)
  {
    SymbolAtOnce(p, v, n);
    BitsRoundTrip(v[..n], |p|);
    FromBitsBound(v[..n]);
  }

  class Crc {
    const p: Bits
    const n: nat
    const table: array<Bits>
    var value: Bits

    ghost predicate Valid()
      reads this, table
    {
      0 < n <= |p| == |value| && IsTable(p, n, table[..])
    }

    constructor (p: Bits, n: nat, seed: Bits)
      requires 0 < n <= |p| == |seed|
      ensures Valid() && this.p == p && this.n == n && value == seed && fresh(table)
    {
      var arr := MakeTable(p, n);
      this.p, this.n, value, table := p, n, seed, arr;
    }

    /** addData(): the register is the one a bitwise division would give. */
    method AddData(data: seq<nat>)
      requires Valid() && forall k :: 0 <= k < |data| ==> data[k] < Pow2(n)
      modifies this
      ensures Valid() && value == Reference(p, n, old(value), data)
    {
      var k := 0;
      while k < |data|
        invariant k <= |data| && Valid() && value == Reference(p, n, old(value), data[..k])
      {
        assert data[..k + 1][..k] == data[..k];
        value := Xor(value, ToBits(data[k], |p|));
        Lookup(p, n, table[..], value);
        value := Xor(value[n..] + Zeros(n), table[FromBits(value[..n])]);
        k := k + 1;
      }
      assert data[..k] == data;
    }
  }

  /** Crc32c over one block of data: the remainder of its bitwise division. */
  method Crc32c(seed: Bits, data: seq<nat>) returns (value: Bits)
    requires |seed| == 32 && forall k :: 0 <= k < |data| ==> data[k] < Pow2(8)
    ensures value == Reference(Crc32cPolynomial(), 8, seed, data)
  {
    var crc := new Crc(Crc32cPolynomial(), 8, seed);
    crc.AddData(data);
    value := crc.value;
  }

  /** Crc16, likewise. */
  method Crc16(seed: Bits, data: seq<nat>) returns (value: Bits)
    requires |seed| == 16 && forall k :: 0 <= k < |data| ==> data[k] < Pow2(8)
    ensures value == Reference(Crc16Polynomial(), 8, seed, data)
  {
    var crc := new Crc(Crc16Polynomial(), 8, seed);
    crc.AddData(data);
    value := crc.value;
  }
}

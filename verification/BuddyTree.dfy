/**
 The tree that kernel/common/physical-buddy.hpp keeps in a flat int8_t array, and the
 abstract view of it: the table is a function of the set of live blocks.
 */
module BuddyTree {

  newtype int8 = x: int | -128 <= x <= 127

  const ILLEGAL: nat := 0xFFFF_FFFF_FFFF_FFFF // illegalAddress

  /** x << n */
  function Shl(x: nat, n: nat): nat {
    if n == 0 then x else 2 * Shl(x, n - 1)
  }

  /** x >> n */
  function Shr(x: nat, n: nat): nat {
    if n == 0 then x else Shr(x / 2, n - 1)
  }

  lemma {:induction false} ShlAdds(x: nat, y: nat, n: nat)
    ensures Shl(x + y, n) == Shl(x, n) + Shl(y, n)
  {
    if n > 0 { ShlAdds(x, y, n - 1); }
  }

  lemma {:induction false} ShlTwice(x: nat, m: nat, n: nat)
    ensures Shl(Shl(x, m), n) == Shl(x, m + n)
  {
    if n > 0 { ShlTwice(x, m, n - 1); }
  }

  lemma {:induction false} ShlMonotonic(x: nat, y: nat, n: nat)
    requires x <= y
    ensures Shl(x, n) <= Shl(y, n)
  {
    if n > 0 { ShlMonotonic(x, y, n - 1); }
  }

  /** Shifting right undoes shifting left. */
  lemma {:induction false} ShrShl(x: nat, n: nat)
    ensures Shr(Shl(x, n), n) == x
  {
    if n > 0 {
      assert Shl(x, n) / 2 == Shl(x, n - 1);
      ShrShl(x, n - 1);
    }
  }

  lemma {:induction false} ShlPositive(x: nat, n: nat)
    requires x > 0
    ensures Shl(x, n) > 0
  {
    if n > 0 { ShlPositive(x, n - 1); }
  }

  lemma {:induction false} ShlMultiplies(x: nat, n: nat)
    ensures Shl(x, n) == x * Shl(1, n)
  {
    if n > 0 { ShlMultiplies(x, n - 1); }
  }

  /** The parameters of a BuddyAccessor. */
  datatype Shape = Shape(base: nat, sizeShift: nat, numRoots: nat, tableOrder: nat)

  /** The aligned block of 2^order units that starts at unit index * 2^order. */
  datatype Block = Block(order: nat, index: nat)

  // ---- Layout of the table ----

  /** numRoots << (tableOrder - order): the number of chunks of an order. */
  function Chunks(g: Shape, order: nat): nat
    requires order <= g.tableOrder
    decreases g.tableOrder - order
  {
    if order == g.tableOrder then g.numRoots else 2 * Chunks(g, order + 1)
  }

  lemma {:induction false} ChunksIsShift(g: Shape, order: nat)
    requires order <= g.tableOrder
    ensures Chunks(g, order) == Shl(g.numRoots, g.tableOrder - order)
    decreases g.tableOrder - order
  {
    if order < g.tableOrder { ChunksIsShift(g, order + 1); }
  }

  /** Where the slice of an order begins; the slice of the highest order comes first. */
  function Slice(g: Shape, order: nat): nat
    requires order <= g.tableOrder
    decreases g.tableOrder - order
  {
    if order == g.tableOrder then 0 else Slice(g, order + 1) + Chunks(g, order + 1)
  }

  function TableSize(g: Shape): nat {
    Slice(g, 0) + Chunks(g, 0)
  }

  predicate InRegion(g: Shape, b: Block) {
    b.order <= g.tableOrder && b.index < Chunks(g, b.order)
  }

  function Position(g: Shape, b: Block): (k: nat)
    requires InRegion(g, b)
    ensures k < TableSize(g)
  {
    SlicesAreOrdered(g, b.order);
    Slice(g, b.order) + b.index
  }

  lemma SlicesAreOrdered(g: Shape, order: nat)
    requires order <= g.tableOrder
    ensures Slice(g, order) + Chunks(g, order) <= TableSize(g)
  {
    if order > 0 { SlicesAreApart(g, 0, order); }
  }

  lemma {:induction false} SlicesAreApart(g: Shape, low: nat, high: nat)
    requires low < high <= g.tableOrder
    ensures Slice(g, high) + Chunks(g, high) <= Slice(g, low)
    decreases high - low
  {
    if low + 1 < high { SlicesAreApart(g, low + 1, high); }
  }

  lemma PositionIsInjective(g: Shape, a: Block, b: Block)
    requires InRegion(g, a) && InRegion(g, b) && a != b
    ensures Position(g, a) != Position(g, b)
  {
    if a.order < b.order { SlicesAreApart(g, a.order, b.order); }
    if b.order < a.order { SlicesAreApart(g, b.order, a.order); }
  }

  /** Every entry of the table belongs to some chunk. */
  lemma {:induction false} PositionIsOnto(g: Shape, order: nat, k: nat) returns (b: Block)
    requires order <= g.tableOrder && k < Slice(g, order) + Chunks(g, order)
    ensures InRegion(g, b) && Position(g, b) == k
    decreases g.tableOrder - order
  {
    if k >= Slice(g, order) {
      b := Block(order, k - Slice(g, order));
    } else {
      b := PositionIsOnto(g, order + 1, k);
    }
  }

  // ---- Containment of blocks ----

  function Parent(b: Block): Block { Block(b.order + 1, b.index / 2) }

  function Child(b: Block, i: nat): Block
    requires b.order > 0 && i < 2
  {
    Block(b.order - 1, 2 * b.index + i)
  }

  /** Block a is b or one of its descendants. */
  predicate Within(a: Block, b: Block)
    decreases b.order - a.order
  {
    if a.order < b.order then Within(Parent(a), b) else a == b
  }

  predicate Overlap(a: Block, b: Block) { Within(a, b) || Within(b, a) }

  lemma {:induction false} WithinChild(a: Block, b: Block)
    requires a.order < b.order
    ensures Within(a, b) <==> Within(a, Child(b, 0)) || Within(a, Child(b, 1))
    decreases b.order - a.order
  {
    if a.order + 1 < b.order { WithinChild(Parent(a), b); }
  }

  /** A block lies within at most one block of each order. */
  lemma {:induction false} WithinUnique(a: Block, b: Block, c: Block)
    requires Within(a, b) && Within(a, c) && b.order <= c.order
    ensures Within(b, c)
    decreases b.order - a.order
  {
    if a.order < b.order { WithinUnique(Parent(a), b, c); }
  }

  /** Descendants of a chunk to the left lie to the left. */
  lemma {:induction false} WithinOrdered(a: Block, b: Block, c: Block, d: Block)
    requires a.order == c.order && b.order == d.order && Within(a, b) && Within(c, d) && b.index < d.index
    ensures a.index < c.index
    decreases b.order - a.order
  {
    if a.order < b.order { WithinOrdered(Parent(a), b, Parent(c), d); }
  }

  lemma {:induction false} WithinInRegion(g: Shape, a: Block, b: Block)
    requires Within(a, b) && b.order <= g.tableOrder
    ensures InRegion(g, a) <==> InRegion(g, b)
    decreases b.order - a.order
  {
    if a.order < b.order { WithinInRegion(g, Parent(a), b); }
  }

  /** The chunk of a higher order that contains the block. */
  function Ancestor(a: Block, order: nat): (b: Block)
    requires a.order <= order
    ensures b.order == order && Within(a, b)
    decreases order - a.order
  {
    if a.order == order then a else Ancestor(Parent(a), order)
  }

  lemma {:induction false} AncestorStep(a: Block, order: nat)
    requires a.order <= order
    ensures Parent(Ancestor(a, order)) == Ancestor(a, order + 1)
    decreases order - a.order
  {
    if a.order < order { AncestorStep(Parent(a), order); }
  }

  // ---- Addresses ----

  /** Bytes per chunk of the block's order. */
  function SizeOf(g: Shape, b: Block): nat { Shl(1, b.order + g.sizeShift) }

  function Address(g: Shape, b: Block): nat { g.base + Shl(b.index, b.order + g.sizeShift) }

  /** The byte range of a block contains those of its descendants. */
  lemma {:induction false} WithinAddresses(g: Shape, a: Block, b: Block)
    requires Within(a, b)
    ensures Address(g, b) <= Address(g, a) && Address(g, a) + SizeOf(g, a) <= Address(g, b) + SizeOf(g, b)
    decreases b.order - a.order
  {
    if a.order < b.order {
      var p, n := Parent(a), a.order + g.sizeShift;
      ShlTwice(p.index, 1, n);
      ShlAdds(2 * p.index, a.index - 2 * p.index, n);
      ShlMonotonic(0, a.index - 2 * p.index, n);
      ShlMonotonic(a.index - 2 * p.index, 1, n);
      assert Shl(p.index, 1) == 2 * Shl(p.index, 0) == 2 * p.index;
      ShlZero(n);
      WithinAddresses(g, p, b);
    }
  }

  lemma {:induction false} ShlZero(n: nat)
    ensures Shl(0, n) == 0
  {
    if n > 0 { ShlZero(n - 1); }
  }

  lemma LeftIsLower(g: Shape, a: Block, b: Block)
    requires a.order == b.order && a.index < b.index
    ensures Address(g, a) + SizeOf(g, a) <= Address(g, b)
  {
    ShlAdds(a.index, 1, a.order + g.sizeShift);
    ShlMonotonic(a.index + 1, b.index, a.order + g.sizeShift);
  }

  /** Blocks that do not overlap as chunks occupy disjoint byte ranges. */
  lemma ApartAddresses(g: Shape, a: Block, b: Block)
    requires !Overlap(a, b) && a.order <= b.order
    ensures Address(g, a) + SizeOf(g, a) <= Address(g, b) || Address(g, b) + SizeOf(g, b) <= Address(g, a)
  {
    var p := Ancestor(a, b.order);
    WithinAddresses(g, a, p);
    if p.index < b.index { LeftIsLower(g, p, b); }
    if b.index < p.index { LeftIsLower(g, b, p); }
  }

  // ---- The table as a function of the live blocks ----

  function Combine(order: nat, left: int, right: int): int
    requires order > 0
  {
    if left == order - 1 && right == order - 1 then order else if left >= right then left else right
  }

  /** The largest order that is free in chunk b, or -1: what the table stores for b. */
  ghost function Entry(live: set<Block>, b: Block): int
    decreases b.order
  {
    if b in live then -1
    else if b.order == 0 then 0
    else Combine(b.order, Entry(live, Child(b, 0)), Entry(live, Child(b, 1)))
  }

  ghost predicate Disjoint(g: Shape, live: set<Block>) {
    && (forall b :: b in live ==> InRegion(g, b))
    && (forall a, b :: a in live && b in live && a != b ==> !Within(a, b))
  }

  ghost predicate TableOk(g: Shape, live: set<Block>, table: seq<int8>) {
    && |table| == TableSize(g)
    && forall b {:trigger Position(g, b)} :: InRegion(g, b) ==> table[Position(g, b)] as int == Entry(live, b)
  }

  /** The live blocks determine every byte of the table. */
  lemma TableIsUnique(g: Shape, live: set<Block>, t1: seq<int8>, t2: seq<int8>)
    requires TableOk(g, live, t1) && TableOk(g, live, t2)
    ensures t1 == t2
  {
    forall k | 0 <= k < |t1| ensures t1[k] == t2[k] {
      var b := PositionIsOnto(g, 0, k);
    }
  }

  lemma {:induction false} EntryRange(live: set<Block>, b: Block)
    ensures -1 <= Entry(live, b) <= b.order
    decreases b.order
  {
    if b !in live && b.order > 0 {
      EntryRange(live, Child(b, 0));
      EntryRange(live, Child(b, 1));
    }
  }

  /** A chunk is entirely free exactly if no live block lies within it. */
  lemma {:induction false} EntryFull(live: set<Block>, b: Block)
    ensures Entry(live, b) == b.order <==> forall l :: l in live ==> !Within(l, b)
    decreases b.order
  {
    assert Within(b, b);
    if b.order == 0 {
      assert forall l :: Within(l, b) ==> l == b;
    } else {
      EntryRange(live, Child(b, 0));
      EntryRange(live, Child(b, 1));
      EntryFull(live, Child(b, 0));
      EntryFull(live, Child(b, 1));
      forall l | l in live && l != b
        ensures Within(l, b) <==> Within(l, Child(b, 0)) || Within(l, Child(b, 1))
      {
        if l.order < b.order { WithinChild(l, b); }
      }
    }
  }

  /** The entry depends only on the live blocks within the chunk. */
  lemma {:induction false} EntryFrame(live1: set<Block>, live2: set<Block>, b: Block)
    requires forall l :: Within(l, b) ==> (l in live1 <==> l in live2)
    ensures Entry(live1, b) == Entry(live2, b)
    decreases b.order
  {
    assert Within(b, b);
    if b !in live1 && b.order > 0 {
      forall l ensures Within(l, Child(b, 0)) || Within(l, Child(b, 1)) ==> Within(l, b) {
        if l.order < b.order { WithinChild(l, b); }
      }
      EntryFrame(live1, live2, Child(b, 0));
      EntryFrame(live1, live2, Child(b, 1));
    }
  }

  // ---- Free blocks ----

  /** A block that could be handed out. */
  ghost predicate IsFree(g: Shape, live: set<Block>, b: Block) {
    InRegion(g, b) && forall l :: l in live ==> !Overlap(l, b)
  }

  /** Where following the first child that fits leads to. */
  ghost function Leftmost(live: set<Block>, b: Block, order: nat): Block
    requires order <= b.order
    decreases b.order
  {
    if b.order == order then b
    else if Entry(live, Child(b, 0)) >= order then Leftmost(live, Child(b, 0), order)
    else Leftmost(live, Child(b, 1), order)
  }

  /** A chunk offers an order exactly if it contains a free block of that order. */
  lemma {:induction false} EntryOffers(g: Shape, live: set<Block>, b: Block, order: nat)
    requires InRegion(g, b) && order <= b.order
    requires forall l :: l in live && l != b ==> !Within(b, l)
    ensures Entry(live, b) >= order ==>
      IsFree(g, live, Leftmost(live, b, order)) && Within(Leftmost(live, b, order), b)
      && Leftmost(live, b, order).order == order
    ensures forall f :: IsFree(g, live, f) && f.order == order && Within(f, b) ==>
      Entry(live, b) >= order && Leftmost(live, b, order).index <= f.index
    decreases b.order
  {
    EntryRange(live, b);
    EntryFull(live, b);
    if b in live {
      forall f: Block | f.order == order && Within(f, b) ensures !IsFree(g, live, f) { assert Overlap(b, f); }
    } else if order == b.order {
      forall f | IsFree(g, live, f) && f.order == order && Within(f, b)
        ensures Entry(live, b) >= order && Leftmost(live, b, order).index <= f.index
      {
        forall l | l in live ensures !Within(l, b) { assert !Overlap(l, f); }
      }
    } else {
      OffersBelow(g, live, b, order, 0);
      OffersBelow(g, live, b, order, 1);
      EntryRange(live, Child(b, 0));
      EntryRange(live, Child(b, 1));
      forall f | IsFree(g, live, f) && f.order == order && Within(f, b)
        ensures Entry(live, b) >= order && Leftmost(live, b, order).index <= f.index
      {
        WithinChild(f, b);
        if Within(f, Child(b, 1)) && Entry(live, Child(b, 0)) >= order {
          WithinOrdered(Leftmost(live, Child(b, 0), order), Child(b, 0), f, Child(b, 1));
        }
      }
      var c := if Entry(live, Child(b, 0)) >= order then Child(b, 0) else Child(b, 1);
      if Entry(live, b) >= order { WithinChild(Leftmost(live, c, order), b); }
    }
  }

  /** EntryOffers for a child, which the induction needs even if the child is live. */
  lemma {:induction false} OffersBelow(g: Shape, live: set<Block>, b: Block, order: nat, i: nat)
    requires InRegion(g, b) && order < b.order && i < 2 && b !in live
    requires forall l :: l in live && l != b ==> !Within(b, l)
    ensures var c := Child(b, i);
      && (Entry(live, c) >= order ==> IsFree(g, live, Leftmost(live, c, order)) && Within(Leftmost(live, c, order), c)
                                      && Leftmost(live, c, order).order == order)
      && (forall f :: IsFree(g, live, f) && f.order == order && Within(f, c) ==>
            Entry(live, c) >= order && Leftmost(live, c, order).index <= f.index)
    decreases b.order, 0
  {
    var c := Child(b, i);
    assert Parent(c) == b;
    WithinInRegion(g, c, b);
    forall l | l in live && l != c ensures !Within(c, l) {
      if l.order >= b.order { assert !Within(b, l); }
    }
    EntryOffers(g, live, c, order);
  }

  // ---- The whole region ----

  /** Chunk i is the first root that offers the order. */
  ghost predicate FirstRoot(g: Shape, live: set<Block>, order: nat, i: nat)
    requires order <= g.tableOrder
  {
    && i < g.numRoots && Entry(live, Block(g.tableOrder, i)) >= order
    && forall j :: 0 <= j < i ==> Entry(live, Block(g.tableOrder, j)) < order
  }

  /** Following the first fitting child from the first fitting root finds the lowest free block. */
  lemma LeftmostIsLowest(g: Shape, live: set<Block>, order: nat, i: nat)
    requires Disjoint(g, live) && order <= g.tableOrder && FirstRoot(g, live, order, i)
    ensures IsFree(g, live, Leftmost(live, Block(g.tableOrder, i), order))
    ensures Leftmost(live, Block(g.tableOrder, i), order).order == order
    ensures forall f :: IsFree(g, live, f) && f.order == order ==>
      Leftmost(live, Block(g.tableOrder, i), order).index <= f.index
  {
    var root := Block(g.tableOrder, i);
    RootOffers(g, live, order, i);
    forall f | IsFree(g, live, f) && f.order == order ensures Leftmost(live, root, order).index <= f.index {
      var r := Ancestor(f, g.tableOrder);
      WithinInRegion(g, f, r);
      RootOffers(g, live, order, r.index);
      if i < r.index { WithinOrdered(Leftmost(live, root, order), root, f, r); }
    }
  }

  lemma RootOffers(g: Shape, live: set<Block>, order: nat, i: nat)
    requires Disjoint(g, live) && order <= g.tableOrder && i < g.numRoots
    ensures var b := Block(g.tableOrder, i);
      && (Entry(live, b) >= order ==> IsFree(g, live, Leftmost(live, b, order)) && Within(Leftmost(live, b, order), b)
                                      && Leftmost(live, b, order).order == order)
      && (forall f :: IsFree(g, live, f) && f.order == order && Within(f, b) ==>
            Entry(live, b) >= order && Leftmost(live, b, order).index <= f.index)
  {
    EntryOffers(g, live, Block(g.tableOrder, i), order);
  }

  /** If no root offers the order, there is no free block of it. */
  lemma NothingFree(g: Shape, live: set<Block>, order: nat)
    requires Disjoint(g, live) && order <= g.tableOrder
    requires forall i :: 0 <= i < g.numRoots ==> Entry(live, Block(g.tableOrder, i)) < order
    ensures forall f: Block :: f.order == order ==> !IsFree(g, live, f)
  {
    forall f: Block | f.order == order && IsFree(g, live, f) ensures false {
      var r := Ancestor(f, g.tableOrder);
      WithinInRegion(g, f, r);
      RootOffers(g, live, order, r.index);
    }
  }
}

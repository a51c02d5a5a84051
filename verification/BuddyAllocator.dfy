/** BuddyAccessor of kernel/common/physical-buddy.hpp, working in place on its table. */
module BuddyAllocator {
  import opened BuddyTree
  import opened Sequences

  /** The region fits the address type and its orders fit the table's int8_t. */
  predicate Admissible(g: Shape) {
    g.tableOrder <= 127 && g.base + Shl(g.numRoots, g.tableOrder + g.sizeShift) <= ILLEGAL
    && TableSize(g) < ILLEGAL
  }

  /** The block lies wholly below 2^addressBits. */
  predicate Below(g: Shape, b: Block, addressBits: nat) {
    addressBits == 64 || Address(g, b) + SizeOf(g, b) <= Shl(1, addressBits)
  }

  /** The address check of findAllocatableChunk(): weaker on the way down. */
  predicate Passes(g: Shape, b: Block, target: nat, addressBits: nat) {
    if b.order == target then Below(g, b, addressBits)
    else addressBits == 64 || Address(g, b) < Shl(1, addressBits)
  }

  /** A block to be handed out for (order, addressBits). */
  ghost predicate Candidate(g: Shape, live: set<Block>, order: nat, addressBits: nat, b: Block) {
    b.order == order && IsFree(g, live, b) && Below(g, b, addressBits)
  }

  ghost predicate NoCandidate(g: Shape, live: set<Block>, order: nat, addressBits: nat) {
    forall b :: !Candidate(g, live, order, addressBits, b)
  }

  /** A candidate that no free block of the order precedes. */
  ghost predicate LowestCandidate(g: Shape, live: set<Block>, order: nat, addressBits: nat, b: Block) {
    && Candidate(g, live, order, addressBits, b)
    && forall f :: IsFree(g, live, f) && f.order == order ==> b.index <= f.index
  }

  // ---- Address restrictions on the way down ----

  /** If the lowest free block fails the restriction, so does every other one. */
  lemma LowestFails(g: Shape, live: set<Block>, order: nat, addressBits: nat, chunk: Block, lowest: Block)
    requires Within(lowest, chunk) && lowest.order == order && !Passes(g, chunk, order, addressBits)
    requires forall f :: IsFree(g, live, f) && f.order == order ==> lowest.index <= f.index
    ensures NoCandidate(g, live, order, addressBits)
  {
    WithinAddresses(g, lowest, chunk);
    forall f | Candidate(g, live, order, addressBits, f) ensures false {
      if lowest.index < f.index { LeftIsLower(g, lowest, f); }
      ShlPositive(1, f.order + g.sizeShift);
    }
  }

  lemma RegionAddresses(g: Shape, b: Block)
    requires Admissible(g) && InRegion(g, b)
    ensures g.base <= Address(g, b)
    ensures Address(g, b) + SizeOf(g, b) <= g.base + Shl(g.numRoots, g.tableOrder + g.sizeShift) <= ILLEGAL
  {
    var r := Ancestor(b, g.tableOrder);
    WithinInRegion(g, b, r);
    WithinAddresses(g, b, r);
    ShlAdds(r.index, 1, r.order + g.sizeShift);
    ShlMonotonic(r.index + 1, g.numRoots, r.order + g.sizeShift);
  }

  lemma {:induction false} LeftmostWithin(live: set<Block>, b: Block, order: nat)
    requires order <= b.order
    ensures Within(Leftmost(live, b, order), b) && Leftmost(live, b, order).order == order
    decreases b.order
  {
    if order < b.order {
      var c := if Entry(live, Child(b, 0)) >= order then Child(b, 0) else Child(b, 1);
      LeftmostWithin(live, c, order);
      WithinChild(Leftmost(live, c, order), b);
    }
  }

  /** The shifts of free() undo the shift of allocate(), and the alignment check holds. */
  lemma IndexFromAddress(g: Shape, b: Block)
    ensures Address(g, b) >= g.base
    ensures var index := Shr(Address(g, b) - g.base, g.sizeShift);
      Shr(index, b.order) == b.index && Shl(Shr(index, b.order), b.order) == index
  {
    ShlTwice(b.index, b.order, g.sizeShift);
    ShrShl(Shl(b.index, b.order), g.sizeShift);
    ShrShl(b.index, b.order);
  }

  // ---- Live blocks come and go ----

  /** Live blocks lie in the region at multiples of their size, and no two of them share a byte. */
  lemma LiveBlocksAreApart(g: Shape, live: set<Block>, a: Block, b: Block)
    requires Admissible(g) && Disjoint(g, live) && a in live && b in live && a != b
    ensures g.base <= Address(g, a)
    ensures Address(g, a) + SizeOf(g, a) <= g.base + Shl(g.numRoots, g.tableOrder + g.sizeShift)
    ensures Address(g, a) == g.base + a.index * SizeOf(g, a)
    ensures Address(g, a) + SizeOf(g, a) <= Address(g, b) || Address(g, b) + SizeOf(g, b) <= Address(g, a)
  {
    ShlMultiplies(a.index, a.order + g.sizeShift);
    RegionAddresses(g, a);
    if a.order <= b.order { ApartAddresses(g, a, b); } else { ApartAddresses(g, b, a); }
  }

  lemma AllocationIsDisjoint(g: Shape, live: set<Block>, b: Block)
    requires Admissible(g) && Disjoint(g, live) && IsFree(g, live, b)
    ensures Disjoint(g, live + {b}) && b !in live
    ensures forall l :: l in live ==>
              Address(g, b) + SizeOf(g, b) <= Address(g, l) || Address(g, l) + SizeOf(g, l) <= Address(g, b)
  {
    NewBlockIsDisjoint(g, live, b);
    forall l | l in live
      ensures Address(g, b) + SizeOf(g, b) <= Address(g, l) || Address(g, l) + SizeOf(g, l) <= Address(g, b)
    {
      LiveBlocksAreApart(g, live + {b}, b, l);
    }
  }

  lemma NewBlockIsDisjoint(g: Shape, live: set<Block>, b: Block)
    requires Disjoint(g, live) && IsFree(g, live, b)
    ensures Disjoint(g, live + {b}) && b !in live
  {
    assert Within(b, b);
    assert b in live ==> Overlap(b, b);
    forall x, y | x in live + {b} && y in live + {b} && x != y ensures !Within(x, y) {
      if x == b { assert !Overlap(y, b); }
      if y == b { assert !Overlap(x, b); }
    }
  }

  /** Only the block itself and its ancestors change their entries. */
  lemma EntryElsewhere(live1: set<Block>, live2: set<Block>, b: Block, c: Block)
    requires forall l: Block :: l != b ==> (l in live1 <==> l in live2)
    requires !Within(b, c)
    ensures Entry(live1, c) == Entry(live2, c)
  {
    EntryFrame(live1, live2, c);
  }

  // ---- The way down ----

  /** Chunk k is the first of the range whose entry is at least the target. */
  ghost predicate FirstFit(table: seq<int8>, slice: nat, base: nat, limit: nat, target: nat, k: nat)
    requires slice + base + limit <= |table|
  {
    && base <= k < base + limit && table[slice + k] as int >= target
    && forall j :: slice + base <= j < slice + k ==> (table[j] as int) < target
  }

  ghost predicate NoFit(table: seq<int8>, slice: nat, base: nat, limit: nat, target: nat)
    requires slice + base + limit <= |table|
  {
    forall j :: slice + base <= j < slice + base + limit ==> (table[j] as int) < target
  }

  /** The descent stands on a chunk from which first children lead to the lowest free block. */
  ghost predicate OnPath(g: Shape, live: set<Block>, chunk: Block, order: nat, lowest: Block) {
    && InRegion(g, chunk) && order <= chunk.order && Entry(live, chunk) >= order
    && lowest == Leftmost(live, chunk, order) && Within(lowest, chunk)
    && IsFree(g, live, lowest) && lowest.order == order
    && forall f :: IsFree(g, live, f) && f.order == order ==> lowest.index <= f.index
  }

  /** The chunk is on the path and passes the address restriction. */
  ghost predicate Descending(g: Shape, live: set<Block>, order: nat, addressBits: nat, lowest: Block, chunk: Block) {
    OnPath(g, live, chunk, order, lowest) && Passes(g, chunk, order, addressBits)
  }

  lemma RootsInTable(g: Shape, live: set<Block>, table: seq<int8>)
    requires TableOk(g, live, table)
    ensures g.numRoots <= |table|
    ensures forall j :: 0 <= j < g.numRoots ==> table[j] as int == Entry(live, Block(g.tableOrder, j))
  {
    SlicesAreOrdered(g, g.tableOrder);
    forall j | 0 <= j < g.numRoots ensures table[j] as int == Entry(live, Block(g.tableOrder, j)) {
      assert Position(g, Block(g.tableOrder, j)) == j;
    }
  }

  /** The first fitting root leads to the lowest free block of the order. */
  lemma RootFound(g: Shape, live: set<Block>, table: seq<int8>, order: nat, root: nat)
    requires Disjoint(g, live) && TableOk(g, live, table) && order <= g.tableOrder
    requires g.numRoots <= |table| && FirstFit(table, 0, 0, g.numRoots, order, root)
    ensures OnPath(g, live, Block(g.tableOrder, root), order, Leftmost(live, Block(g.tableOrder, root), order))
  {
    RootsInTable(g, live, table);
    assert FirstRoot(g, live, order, root);
    LeftmostIsLowest(g, live, order, root);
    RootOffers(g, live, order, root);
  }

  lemma NoRootFound(g: Shape, live: set<Block>, table: seq<int8>, order: nat)
    requires Disjoint(g, live) && TableOk(g, live, table) && order <= g.tableOrder
    requires g.numRoots <= |table| && NoFit(table, 0, 0, g.numRoots, order)
    ensures forall f: Block :: f.order == order ==> !IsFree(g, live, f)
  {
    RootsInTable(g, live, table);
    NothingFree(g, live, order);
  }

  lemma ChildrenFit(g: Shape, chunk: Block)
    requires InRegion(g, chunk) && chunk.order > 0
    ensures Slice(g, chunk.order - 1) + 2 * chunk.index + 2 <= TableSize(g)
  {
    WithinInRegion(g, Child(chunk, 1), chunk);
    SlicesAreOrdered(g, chunk.order - 1);
  }

  /** One step down: the first child that offers the order stays on the path. */
  lemma NextChunk(g: Shape, live: set<Block>, table: seq<int8>, chunk: Block, order: nat, lowest: Block)
    returns (next: Block)
    requires TableOk(g, live, table) && order < chunk.order && OnPath(g, live, chunk, order, lowest)
    requires Slice(g, chunk.order - 1) + 2 * chunk.index + 2 <= |table|
    ensures next.order == chunk.order - 1 && OnPath(g, live, next, order, lowest)
    ensures FirstFit(table, Slice(g, next.order), 2 * chunk.index, 2, order, next.index)
  {
    var c0, c1 := Child(chunk, 0), Child(chunk, 1);
    next := if Entry(live, c0) >= order then c0 else c1;
    WithinInRegion(g, c0, chunk);
    WithinInRegion(g, c1, chunk);
    assert table[Position(g, c0)] as int == Entry(live, c0) && table[Position(g, c1)] as int == Entry(live, c1);
    LeftmostWithin(live, next, order);
  }

  /** What findAllocatableChunk() returns on a range of chunks. */
  ghost predicate Searched(g: Shape, table: seq<int8>, slice: nat, base: nat, limit: nat, current: nat, target: nat,
                           addressBits: nat, index: nat)
    requires slice + base + limit <= |table|
  {
    if index != ILLEGAL then
      FirstFit(table, slice, base, limit, target, index) && Passes(g, Block(current, index), target, addressBits)
    else
      || NoFit(table, slice, base, limit, target)
      || exists k ::
           FirstFit(table, slice, base, limit, target, k) && !Passes(g, Block(current, k), target, addressBits)
  }

  lemma FromRoots(g: Shape, live: set<Block>, table: seq<int8>, order: nat, addressBits: nat, index: nat)
    requires Disjoint(g, live) && TableOk(g, live, table) && order <= g.tableOrder && g.numRoots <= |table|
    requires Searched(g, table, 0, 0, g.numRoots, g.tableOrder, order, addressBits, index)
    ensures index == ILLEGAL ==> NoCandidate(g, live, order, addressBits)
    ensures index != ILLEGAL ==>
      var root := Block(g.tableOrder, index);
      Descending(g, live, order, addressBits, Leftmost(live, root, order), root)
  {
    if index != ILLEGAL {
      RootFound(g, live, table, order, index);
    } else if NoFit(table, 0, 0, g.numRoots, order) {
      NoRootFound(g, live, table, order);
    } else {
      var k :| FirstFit(table, 0, 0, g.numRoots, order, k) && !Passes(g, Block(g.tableOrder, k), order, addressBits);
      RootFound(g, live, table, order, k);
      LowestFails(g, live, order, addressBits, Block(g.tableOrder, k), Leftmost(live, Block(g.tableOrder, k), order));
    }
  }

  lemma FromChunk(g: Shape, live: set<Block>, table: seq<int8>, chunk: Block, order: nat, lowest: Block,
                  addressBits: nat, index: nat)
    requires TableOk(g, live, table) && order < chunk.order && OnPath(g, live, chunk, order, lowest)
    requires Slice(g, chunk.order - 1) + 2 * chunk.index + 2 <= |table|
    requires Searched(g, table, Slice(g, chunk.order - 1), 2 * chunk.index, 2, chunk.order - 1,
                      order, addressBits, index)
    ensures index == ILLEGAL ==> NoCandidate(g, live, order, addressBits)
    ensures index != ILLEGAL ==> OnPath(g, live, Block(chunk.order - 1, index), order, lowest)
  {
    var slice := Slice(g, chunk.order - 1);
    var next := NextChunk(g, live, table, chunk, order, lowest);
    if index != ILLEGAL {
      FirstFitIsUnique(table, slice, 2 * chunk.index, 2, order, index, next.index);
    } else {
      var k :|
        && FirstFit(table, slice, 2 * chunk.index, 2, order, k)
        && !Passes(g, Block(chunk.order - 1, k), order, addressBits);
      FirstFitIsUnique(table, slice, 2 * chunk.index, 2, order, k, next.index);
      LowestFails(g, live, order, addressBits, next, lowest);
    }
  }

  lemma PathEnds(g: Shape, live: set<Block>, chunk: Block, order: nat, lowest: Block, addressBits: nat)
    requires Descending(g, live, order, addressBits, lowest, chunk) && chunk.order == order
    ensures LowestCandidate(g, live, order, addressBits, chunk) && chunk.index < TableSize(g)
  {
    SlicesAreOrdered(g, order);
  }

  lemma FirstFitIsUnique(table: seq<int8>, slice: nat, base: nat, limit: nat, target: nat, j: nat, k: nat)
    requires slice + base + limit <= |table|
    requires FirstFit(table, slice, base, limit, target, j) && FirstFit(table, slice, base, limit, target, k)
    ensures j == k
  {
  }

  /** Below a live block everything is marked free; above that, an entry sums up its children. */
  lemma EntriesBelow(g: Shape, live: set<Block>, b: Block)
    requires Disjoint(g, live) && b.order > 0
    ensures var k0, k1 := Entry(live, Child(b, 0)), Entry(live, Child(b, 1));
      && -1 <= k0 < b.order && -1 <= k1 < b.order
      && (b in live ==> k0 == b.order - 1 && k1 == b.order - 1)
  {
    EntryRange(live, Child(b, 0));
    EntryRange(live, Child(b, 1));
    EntryFull(live, Child(b, 0));
    EntryFull(live, Child(b, 1));
    if b in live {
      forall l | l in live ensures !Within(l, Child(b, 0)) && !Within(l, Child(b, 1)) {
        if l.order < b.order { WithinChild(l, b); }
      }
    }
  }

  // ---- The way up ----

  /** All entries agree with the live blocks, except above the given order over b. */
  ghost predicate OkExceptAbove(g: Shape, live: set<Block>, table: seq<int8>, b: Block, order: nat) {
    && |table| == TableSize(g)
    && forall c {:trigger Position(g, c)} :: InRegion(g, c) && (c.order <= order || !Within(b, c)) ==>
          table[Position(g, c)] as int == Entry(live, c)
  }

  /** The entry above two correct siblings is what scanFreeChunks() computes from them. */
  lemma StepUp(g: Shape, live: set<Block>, table: seq<int8>, b: Block, order: nat)
    requires InRegion(g, b) && b.order <= order < g.tableOrder && OkExceptAbove(g, live, table, b, order)
    requires forall l :: l in live && l != b ==> !Within(b, l)
    ensures var p := Ancestor(b, order + 1); var k := Slice(g, order) + 2 * p.index;
      && InRegion(g, p) && p == Parent(Ancestor(b, order)) && k + 2 <= |table|
      && -1 <= (table[k] as int) <= order && -1 <= (table[k + 1] as int) <= order
      && Entry(live, p) == Combine(order + 1, table[k] as int, table[k + 1] as int)
      && -1 <= Entry(live, p) <= order + 1
  {
    AncestorStep(b, order);
    var p := Ancestor(b, order + 1);
    var c0, c1 := Child(p, 0), Child(p, 1);
    WithinInRegion(g, b, p);
    WithinInRegion(g, c0, p);
    WithinInRegion(g, c1, p);
    SlicesAreOrdered(g, order);
    assert table[Position(g, c0)] as int == Entry(live, c0) && table[Position(g, c1)] as int == Entry(live, c1);
    EntryRange(live, c0);
    EntryRange(live, c1);
  }

  /** All chunks are free, or the result is the largest entry. */
  ghost predicate Scanned(table: seq<int8>, from: nat, to: nat, order: nat, freeOrder: int)
    requires from <= to <= |table|
  {
    if forall j :: from <= j < to ==> table[j] as int == order then freeOrder == order + 1
    else && -1 <= freeOrder && (forall j :: from <= j < to ==> (table[j] as int) <= freeOrder)
         && (freeOrder == -1 || exists j :: from <= j < to && table[j] as int == freeOrder)
  }

  lemma ScannedPair(table: seq<int8>, k: nat, order: nat, freeOrder: int)
    requires k + 2 <= |table| && Scanned(table, k, k + 2, order, freeOrder)
    requires -1 <= (table[k] as int) <= order && -1 <= (table[k + 1] as int) <= order
    ensures freeOrder == Combine(order + 1, table[k] as int, table[k + 1] as int)
  {
  }

  lemma StoreUp(g: Shape, live: set<Block>, table: seq<int8>, b: Block, order: nat, freeOrder: int)
    requires InRegion(g, b) && b.order < order <= g.tableOrder <= 127 && OkExceptAbove(g, live, table, b, order - 1)
    requires InRegion(g, Ancestor(b, order)) && freeOrder == Entry(live, Ancestor(b, order)) && -1 <= freeOrder <= order
    ensures OkExceptAbove(g, live, table[Position(g, Ancestor(b, order)) := freeOrder as int8], b, order)
  {
    var p := Ancestor(b, order);
    forall c | InRegion(g, c) && (c.order <= order || !Within(b, c)) && c != p
      ensures table[Position(g, p) := freeOrder as int8][Position(g, c)] as int == Entry(live, c)
    {
      PositionIsInjective(g, c, p);
      if c.order == order && Within(b, c) { WithinUnique(b, c, p); }
    }
  }

  class BuddyAccessor {
    const g: Shape
    const table: array<int8>
    ghost var live: set<Block>

    ghost predicate Valid()
      reads this, table
    {
      Admissible(g) && Disjoint(g, live) && TableOk(g, live, table[..])
    }

    /** Attach to a table on which some blocks have been handed out already. */
    constructor (g: Shape, table: array<int8>, ghost live: set<Block>)
      requires Admissible(g) && Disjoint(g, live) && TableOk(g, live, table[..])
      ensures Valid() && this.g == g && this.table == table && this.live == live
    {
      this.g, this.table, this.live := g, table, live;
    }

    static method DetermineSize(numRoots: nat, tableOrder: nat) returns (size: nat)
      ensures size == TableSize(Shape(0, 0, numRoots, tableOrder))
    {
      ghost var g := Shape(0, 0, numRoots, tableOrder);
      size := 0;
      var order := 0;
      while order <= tableOrder
        invariant order <= tableOrder + 1
        invariant size + (if order == 0 then TableSize(g) else Slice(g, order - 1)) == TableSize(g)
      {
        ChunksIsShift(g, order);
        size := size + Shl(numRoots, tableOrder - order);
        order := order + 1;
      }
    }

    /** initialize(): no block is live. */
    static method Initialize(table: array<int8>, g: Shape)
      requires g.tableOrder <= 127 && table.Length == TableSize(g)
      modifies table
      ensures TableOk(g, {}, table[..])
    {
      var slice := 0;
      var order: int := g.tableOrder;
      while order >= 0
        invariant -1 <= order <= g.tableOrder
        invariant slice == if order < 0 then TableSize(g) else Slice(g, order)
        invariant forall b :: InRegion(g, b) && b.order > order ==> table[Position(g, b)] as int == b.order
      {
        ChunksIsShift(g, order);
        var chunksInOrder := Shl(g.numRoots, g.tableOrder - order);
        FillSlice(table, g, slice, chunksInOrder, order);
        slice := slice + chunksInOrder;
        order := order - 1;
      }
      forall b | InRegion(g, b) ensures table[Position(g, b)] as int == Entry({}, b) {
        EntryFull({}, b);
      }
    }

    /** The inner loop of initialize(). */
    static method FillSlice(table: array<int8>, g: Shape, slice: nat, chunksInOrder: nat, order: nat)
      requires order <= g.tableOrder <= 127 && table.Length == TableSize(g)
      requires slice == Slice(g, order) && chunksInOrder == Chunks(g, order)
      modifies table
      ensures forall b :: InRegion(g, b) && b.order == order ==> table[Position(g, b)] as int == order
      ensures forall b :: InRegion(g, b) && b.order > order ==> table[Position(g, b)] == old(table[Position(g, b)])
    {
      SlicesAreOrdered(g, order);
      var i := 0;
      while i < chunksInOrder
        invariant i <= chunksInOrder
        invariant forall k :: slice <= k < slice + i ==> table[k] as int == order
        invariant forall k :: 0 <= k < slice ==> table[k] == old(table[k])
      {
        table[slice + i] := order as int8;
        i := i + 1;
      }
      forall b | InRegion(g, b) && b.order > order ensures Position(g, b) < slice {
        SlicesAreApart(g, order, b.order);
      }
    }

    /** findAllocatableChunk(): the first chunk that offers the target, if it passes. */
    method FindAllocatableChunk(slice: nat, base: nat, limit: nat, current: nat, target: nat, addressBits: nat)
      returns (index: nat)
      requires slice + base + limit <= table.Length && base + limit < ILLEGAL && addressBits <= 64
      ensures Searched(g, table[..], slice, base, limit, current, target, addressBits, index)
    {
      var i := 0;
      while i < limit
        invariant i <= limit
        invariant forall j :: slice + base <= j < slice + base + i ==> (table[j] as int) < target
      {
        if table[slice + base + i] as int >= target { break; }
        i := i + 1;
      }
      if i == limit { return ILLEGAL; }
      assert FirstFit(table[..], slice, base, limit, target, base + i);
      if addressBits != 64 {
        var chunkSize := Shl(1, current + g.sizeShift);
        var address := g.base + Shl(base + i, current + g.sizeShift);
        var addressLimit := Shl(1, addressBits);
        if current == target {
          if address + chunkSize > addressLimit { return ILLEGAL; }
        } else if address >= addressLimit {
          return ILLEGAL;
        }
      }
      return base + i;
    }

    /** scanFreeChunks(): the largest free chunk in the range. */
    method ScanFreeChunks(slice: nat, base: nat, limit: nat, order: nat) returns (freeOrder: int)
      requires slice + base + limit <= table.Length
      ensures Scanned(table[..], slice + base, slice + base + limit, order, freeOrder)
    {
      freeOrder := -1;
      var allEqualOrder := true;
      var i := 0;
      while i < limit
        invariant i <= limit && -1 <= freeOrder
        invariant allEqualOrder <==> forall j :: slice + base <= j < slice + base + i ==> table[j] as int == order
        invariant forall j :: slice + base <= j < slice + base + i ==> (table[j] as int) <= freeOrder
        invariant freeOrder == -1 || exists j :: slice + base <= j < slice + base + i && table[j] as int == freeOrder
      {
        if table[slice + base + i] as int >= freeOrder { freeOrder := table[slice + base + i] as int; }
        if table[slice + base + i] as int != order { allEqualOrder := false; }
        i := i + 1;
      }
      if allEqualOrder { freeOrder := order + 1; }
    }

    /** The second phase of allocate() and free(): recompute all superior entries. */
    method Ascend(b: Block, slice0: nat, ghost live': set<Block>)
      requires g.tableOrder <= 127 && InRegion(g, b) && slice0 == Slice(g, b.order)
      requires OkExceptAbove(g, live', table[..], b, b.order)
      requires forall l :: l in live' && l != b ==> !Within(b, l)
      modifies table
      ensures TableOk(g, live', table[..])
    {
      var slice: nat, currentOrder: nat, updateIndex: nat := slice0, b.order, b.index;
      while currentOrder < g.tableOrder
        invariant b.order <= currentOrder <= g.tableOrder && slice == Slice(g, currentOrder)
        invariant Block(currentOrder, updateIndex) == Ancestor(b, currentOrder)
        invariant OkExceptAbove(g, live', table[..], b, currentOrder)
        decreases g.tableOrder - currentOrder
      {
        updateIndex, slice := AscendOne(b, slice, currentOrder, updateIndex, live');
        currentOrder := currentOrder + 1;
      }
    }

    /** One iteration of the second phase: the entry above becomes correct. */
    method AscendOne(b: Block, slice: nat, order: nat, index: nat, ghost live': set<Block>)
      returns (parentIndex: nat, parentSlice: nat)
      requires g.tableOrder <= 127 && InRegion(g, b) && b.order <= order < g.tableOrder && slice == Slice(g, order)
      requires Block(order, index) == Ancestor(b, order) && OkExceptAbove(g, live', table[..], b, order)
      requires forall l :: l in live' && l != b ==> !Within(b, l)
      modifies table
      ensures parentSlice == Slice(g, order + 1) && Block(order + 1, parentIndex) == Ancestor(b, order + 1)
      ensures OkExceptAbove(g, live', table[..], b, order + 1)
    {
      ghost var table0 := table[..];
      StepUp(g, live', table0, b, order);
      parentIndex := index / 2;
      var freeOrder := ScanFreeChunks(slice, 2 * parentIndex, 2, order);
      ScannedPair(table0, slice + 2 * parentIndex, order, freeOrder);
      ChunksIsShift(g, order + 1);
      parentSlice := slice - Shl(g.numRoots, g.tableOrder - (order + 1));
      table[parentSlice + parentIndex] := freeOrder as int8;
      assert table[..] == table0[parentSlice + parentIndex := freeOrder as int8];
      StoreUp(g, live', table0, b, order + 1, freeOrder);
    }

    /** One iteration of the first phase of allocate(): from a chunk to its first child that fits. */
    method DescendOne(chunkOrder: nat, index: nat, slice: nat, order: nat, addressBits: nat, ghost lowest: Block)
      returns (childIndex: nat, childSlice: nat)
      requires Valid() && addressBits <= 64 && order < chunkOrder <= g.tableOrder && slice == Slice(g, chunkOrder)
      requires Descending(g, live, order, addressBits, lowest, Block(chunkOrder, index))
      ensures childSlice == Slice(g, chunkOrder - 1)
      ensures childIndex == ILLEGAL ==> NoCandidate(g, live, order, addressBits)
      ensures childIndex != ILLEGAL ==>
                Descending(g, live, order, addressBits, lowest, Block(chunkOrder - 1, childIndex))
    {
      ghost var chunk := Block(chunkOrder, index);
      ChildrenFit(g, chunk);
      ChunksIsShift(g, chunkOrder);
      childSlice := slice + Shl(g.numRoots, g.tableOrder - chunkOrder);
      childIndex := FindAllocatableChunk(childSlice, 2 * index, 2, chunkOrder - 1, order, addressBits);
      FromChunk(g, live, table[..], chunk, order, lowest, addressBits, childIndex);
    }

    /**
     The first phase of allocate(): descend to the lowest free block of the order.
     illegalAddress is returned exactly if no free block satisfies the restriction.
     */
    method Descend(order: nat, addressBits: nat) returns (allocIndex: nat, slice: nat)
      requires Valid() && addressBits <= 64 && order <= g.tableOrder
      ensures allocIndex == ILLEGAL ==> NoCandidate(g, live, order, addressBits)
      ensures allocIndex != ILLEGAL ==>
        slice == Slice(g, order) && LowestCandidate(g, live, order, addressBits, Block(order, allocIndex))
    {
      var currentOrder := g.tableOrder;
      slice := 0;
      RootsInTable(g, live, table[..]);
      allocIndex := FindAllocatableChunk(slice, 0, g.numRoots, currentOrder, order, addressBits);
      FromRoots(g, live, table[..], order, addressBits, allocIndex);
      if allocIndex == ILLEGAL { return; }
      ghost var lowest := Leftmost(live, Block(g.tableOrder, allocIndex), order);
      while currentOrder > order
        invariant order <= currentOrder <= g.tableOrder && slice == Slice(g, currentOrder)
        invariant Descending(g, live, order, addressBits, lowest, Block(currentOrder, allocIndex))
      {
        allocIndex, slice := DescendOne(currentOrder, allocIndex, slice, order, addressBits, lowest);
        if allocIndex == ILLEGAL { return; }
        currentOrder := currentOrder - 1;
      }
      PathEnds(g, live, Block(order, allocIndex), order, lowest, addressBits);
    }

    /**
     allocate(): the lowest free block of the order that lies below 2^addressBits.
     illegalAddress is returned exactly if there is none, and then nothing changes.
     */
    method Allocate(order: nat, addressBits: nat) returns (physical: nat, ghost block: Block)
      requires Valid() && addressBits <= 64
      modifies this`live, table
      ensures Valid()
      ensures physical == ILLEGAL <==> NoCandidate(g, old(live), order, addressBits)
      ensures physical == ILLEGAL ==> live == old(live) && table[..] == old(table[..])
      ensures physical != ILLEGAL ==>
        && Candidate(g, old(live), order, addressBits, block) && physical == Address(g, block)
        && live == old(live) + {block}
        && forall b :: Candidate(g, old(live), order, addressBits, b) ==> physical <= Address(g, b)
    {
      block := Block(order, 0);
      if order > g.tableOrder { return ILLEGAL, block; }
      var allocIndex, slice := Descend(order, addressBits);
      if allocIndex == ILLEGAL { return ILLEGAL, block; }
      block := Block(order, allocIndex);
      physical := g.base + Shl(allocIndex, order + g.sizeShift);
      RegionAddresses(g, block);
      ShlPositive(1, order + g.sizeShift);
      forall b | Candidate(g, live, order, addressBits, b) ensures physical <= Address(g, b) {
        if allocIndex < b.index { LeftIsLower(g, block, b); }
      }
      Take(Block(order, allocIndex), slice);
    }

    /** Mark a free block as used and repair its ancestors. */
    method Take(b: Block, slice: nat)
      requires Valid() && IsFree(g, live, b) && slice == Slice(g, b.order)
      modifies this`live, table
      ensures Valid() && live == old(live) + {b}
    {
      AllocationIsDisjoint(g, live, b);
      ghost var live' := live + {b};
      assert slice + b.index == Position(g, b);
      EntryFull(live, b);
      assert table[slice + b.index] as int == b.order;
      table[slice + b.index] := -1;
      forall c | InRegion(g, c) && (c.order <= b.order || !Within(b, c))
        ensures table[Position(g, c)] as int == Entry(live', c)
      {
        if c != b {
          PositionIsInjective(g, c, b);
          EntryElsewhere(live, live', b, c);
        }
      }
      forall l | l in live' && l != b ensures !Within(b, l) { assert !Overlap(l, b); }
      live := live';
      Ascend(b, slice, live');
    }

    /** free() of a live block. */
    method Free(address: nat, order: nat, ghost block: Block)
      requires Valid() && block in live && block.order == order && address == Address(g, block)
      modifies this`live, table
      ensures Valid() && live == old(live) - {block}
    {
      var index := Shr(address - g.base, g.sizeShift);
      var updateIndex := Shr(index, order);
      assert updateIndex == block.index && Shl(updateIndex, order) == index by { IndexFromAddress(g, block); }

      var currentOrder, slice := g.tableOrder, 0;
      while currentOrder > order
        modifies {}
        invariant order <= currentOrder <= g.tableOrder && slice == Slice(g, currentOrder)
      {
        ChunksIsShift(g, currentOrder);
        slice := slice + Shl(g.numRoots, g.tableOrder - currentOrder);
        currentOrder := currentOrder - 1;
      }
      assert slice + updateIndex == Position(g, block);
      assert table[slice + updateIndex] == -1;
      ghost var live' := live - {block};
      table[slice + updateIndex] := order as int8;
      EntryFull(live', block);
      forall c | InRegion(g, c) && (c.order <= order || !Within(block, c))
        ensures table[Position(g, c)] as int == Entry(live', c)
      {
        if c != block {
          PositionIsInjective(g, c, block);
          EntryElsewhere(live, live', block, c);
        }
      }
      live := live';
      Ascend(Block(order, updateIndex), slice, live');
    }

    /** free() of all live blocks, in any order: what is left is the table of initialize(). */
    method FreeAll(blocks: seq<(nat, nat)>, ghost names: seq<Block>)
      requires Valid() && |blocks| == |names| && NoRepeats(names) && forall b :: b in live <==> b in names
      requires forall k :: 0 <= k < |names| ==> blocks[k] == (Address(g, names[k]), names[k].order)
      modifies this`live, table
      ensures Valid() && live == {} && forall t :: TableOk(g, {}, t) ==> table[..] == t
    {
      var k := 0;
      while k < |blocks|
        invariant k <= |blocks| && Valid() && forall b :: b in live <==> b in names[k..]
      {
        Free(blocks[k].0, blocks[k].1, names[k]);
        k := k + 1;
      }
      assert live == {};
      forall t | TableOk(g, {}, t) ensures table[..] == t { TableIsUnique(g, {}, table[..], t); }
    }

    /** traverseForSanityCheck(): every assertion of the source holds. */
    method TraverseForSanityCheck(slice: nat, order: nat, base: nat) returns (k: int)
      requires Valid() && InRegion(g, Block(order, base)) && slice == Slice(g, order)
      ensures k == Entry(live, Block(order, base))
      decreases order
    {
      ghost var b := Block(order, base);
      assert slice + base == Position(g, b);
      EntryRange(live, b);
      var entry := table[slice + base] as int;
      assert entry >= -1;
      assert entry <= order;
      if order == 0 { return entry; }

      ChunksIsShift(g, order);
      var below := slice + Shl(g.numRoots, g.tableOrder - order);
      WithinInRegion(g, Child(b, 0), b);
      WithinInRegion(g, Child(b, 1), b);
      EntriesBelow(g, live, b);
      if entry == -1 {
        var k0 := TraverseForSanityCheck(below, order - 1, 2 * base);
        var k1 := TraverseForSanityCheck(below, order - 1, 2 * base + 1);
        var allFree := k0 == order - 1 && k1 == order - 1;
        var allUsed := k0 == -1 && k1 == -1;
        assert allFree || allUsed;
        return -1;
      } else {
        var k0 := TraverseForSanityCheck(below, order - 1, 2 * base);
        assert entry >= k0;
        var k1 := TraverseForSanityCheck(below, order - 1, 2 * base + 1);
        assert entry >= k1;
        var freeOrder := if k0 < k1 then k1 else k0;
        if k0 == order - 1 && k1 == order - 1 {
          assert entry == order;
          return order;
        } else {
          assert entry == freeOrder;
          return freeOrder;
        }
      }
    }

    method SanityCheck()
      requires Valid()
    {
      var i := 0;
      while i < g.numRoots
        invariant i <= g.numRoots
      {
        var _ := TraverseForSanityCheck(0, g.tableOrder, i);
        i := i + 1;
      }
    }
  }
}

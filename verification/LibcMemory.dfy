/** memcpy(), memset() and memmove() of kernel/common/libc.cpp (the LP64 versions) on one flat memory. */
module LibcMemory {
  import opened Sequences

  type byte = bv8

  /** A run of alias_store() calls: only these bytes change. */
  method Store(mem: array<byte>, p: nat, bytes: seq<byte>)
    requires p + |bytes| <= mem.Length
    modifies mem
    ensures mem[..] == Put(old(mem[..]), p, bytes)
  {
    for i := 0 to |bytes|
      invariant mem[..] == Put(old(mem[..]), p, bytes[..i])
    {
      mem[p + i] := bytes[i];
    }
    assert bytes[..|bytes|] == bytes;
  }

  // ---- memcpy() ----

  /** The memory after b bytes have been loaded at byte k of the source and then stored. */
  function Moved(m: seq<byte>, dest: nat, src: nat, k: nat, b: nat): (r: seq<byte>)
    requires dest + k + b <= |m| && src + k + b <= |m|
    ensures |r| == |m|
  {
    seq(|m|, x requires 0 <= x < |m| => if dest + k <= x < dest + k + b then m[src + (x - dest)] else m[x])
  }

  /** The memory after copying n bytes from src to dest as if through a buffer. */
  function Copied(m: seq<byte>, dest: nat, src: nat, n: nat): (r: seq<byte>)
    requires dest + n <= |m| && src + n <= |m|
    ensures |r| == |m|
  {
    Moved(m, dest, src, 0, n)
  }

  /** What memcpy() copes with: disjoint ranges, or a destination below the source. */
  predicate Copyable(dest: nat, src: nat, n: nat) { dest <= src || src + n <= dest }

  /** A block that is loaded as a whole before it is stored continues the copy. */
  lemma CopyMore(m: seq<byte>, dest: nat, src: nat, k: nat, b: nat, n: nat)
    requires k + b <= n && dest + n <= |m| && src + n <= |m| && Copyable(dest, src, n)
    ensures Moved(Copied(m, dest, src, k), dest, src, k, b) == Copied(m, dest, src, k + b)
  {
  }

  /** The largest block that is left when r bytes remain. */
  function Block(r: nat): (b: nat)
    requires r > 0
    ensures 0 < b <= r
  {
    if r >= 64 then 64 else if r >= 32 then 32 else if r >= 16 then 16 else if r >= 8 then 8
    else if r >= 4 then 4 else if r >= 2 then 2 else 1
  }

  /** The blocks of a copy of n bytes. */
  function Schedule(n: nat): (sizes: seq<nat>)
    ensures Total(sizes) == n
  {
    if n == 0 then []
    else
      var b := Block(n);
      var rest := Schedule(n - b);
      assert ([b] + rest)[1..] == rest;
      [b] + rest
  }

  function Total(sizes: seq<nat>): nat { if sizes == [] then 0 else sizes[0] + Total(sizes[1..]) }

  /** The memory after these blocks have been moved from byte k on, one after the other. */
  function Blocks(m: seq<byte>, dest: nat, src: nat, k: nat, sizes: seq<nat>): (r: seq<byte>)
    requires dest + k + Total(sizes) <= |m| && src + k + Total(sizes) <= |m|
    ensures |r| == |m|
    decreases |sizes|
  {
    if sizes == [] then m else Blocks(Moved(m, dest, src, k, sizes[0]), dest, src, k + sizes[0], sizes[1..])
  }

  lemma ScheduleStep(n: nat)
    requires n > 0
    ensures var s := Schedule(n); s != [] && s[0] == Block(n) && s[1..] == Schedule(n - Block(n))
  {
    var b := Block(n);
    assert ([b] + Schedule(n - b))[1..] == Schedule(n - b);
  }

  /** What memcpy() still has to do with the memory from byte k on. */
  ghost function Remaining(m: seq<byte>, dest: nat, src: nat, k: nat, n: nat): seq<byte>
    requires k <= n && dest + n <= |m| && src + n <= |m|
  {
    Blocks(m, dest, src, k, Schedule(n - k))
  }

  lemma RemainingStep(m: seq<byte>, dest: nat, src: nat, k: nat, n: nat, b: nat)
    requires k < n && dest + n <= |m| && src + n <= |m| && b == Block(n - k)
    ensures Remaining(m, dest, src, k, n) == Remaining(Moved(m, dest, src, k, b), dest, src, k + b, n)
  {
    ScheduleStep(n - k);
    assert n - k - b == n - (k + b);
  }

  /** One unrolled block, if it still fits: all its words are loaded before the first is stored. */
  method MoveBlock(mem: array<byte>, dest: nat, src: nat, n: nat, k: nat, size: nat) returns (k': nat)
    requires k <= n && dest + n <= mem.Length && src + n <= mem.Length && size > 0
    requires n - k >= size ==> size == Block(n - k)
    modifies mem
    ensures k' == (if n - k >= size then k + size else k)
    ensures Remaining(mem[..], dest, src, k', n) == Remaining(old(mem[..]), dest, src, k, n)
  {
    k' := k;
    if n - k >= size {
      ghost var before := mem[..];
      RemainingStep(before, dest, src, k, n, size);
      var words := mem[..][src + k..src + k + size];
      Store(mem, dest + k, words);
      assert mem[..] == Moved(before, dest, src, k, size);
      k' := k + size;
    }
  }

  /** memcpy() for ranges that overlap in any way. */
  method Memcpy(mem: array<byte>, dest: nat, src: nat, n: nat)
    requires dest + n <= mem.Length && src + n <= mem.Length
    modifies mem
    ensures mem[..] == Blocks(old(mem[..]), dest, src, 0, Schedule(n))
    ensures Copyable(dest, src, n) ==> mem[..] == Copied(old(mem[..]), dest, src, n)
  {
    ghost var before := mem[..];
    var k := 0;
    while n - k >= 64
      invariant k <= n && Remaining(mem[..], dest, src, k, n) == Remaining(before, dest, src, 0, n)
    {
      k := MoveBlock(mem, dest, src, n, k, 64);
    }
    k := MoveWords(mem, dest, src, n, k);
    MoveBytes(mem, dest, src, n, k);
    if Copyable(dest, src, n) { BlocksCopy(before, dest, src, 0, n, Schedule(n)); }
  }

  /** The blocks of four, two and one words. */
  method MoveWords(mem: array<byte>, dest: nat, src: nat, n: nat, k: nat) returns (k': nat)
    requires k <= n < k + 64 && dest + n <= mem.Length && src + n <= mem.Length
    modifies mem
    ensures k <= k' <= n < k' + 8
    ensures Remaining(mem[..], dest, src, k', n) == Remaining(old(mem[..]), dest, src, k, n)
  {
    k' := MoveBlock(mem, dest, src, n, k, 32);
    k' := MoveBlock(mem, dest, src, n, k', 16);
    k' := MoveBlock(mem, dest, src, n, k', 8);
  }

  /** The last half word, quarter word and byte. */
  method MoveBytes(mem: array<byte>, dest: nat, src: nat, n: nat, k: nat)
    requires k <= n < k + 8 && dest + n <= mem.Length && src + n <= mem.Length
    modifies mem
    ensures mem[..] == Remaining(old(mem[..]), dest, src, k, n)
  {
    var k' := MoveBlock(mem, dest, src, n, k, 4);
    k' := MoveBlock(mem, dest, src, n, k', 2);
    k' := MoveBlock(mem, dest, src, n, k', 1);
    assert k' == n && Remaining(mem[..], dest, src, n, n) == mem[..];
  }

  /** For disjoint ranges, and for destinations below the source, the blocks make up a copy. */
  lemma {:induction false} BlocksCopy(m: seq<byte>, dest: nat, src: nat, k: nat, n: nat, sizes: seq<nat>)
    requires k + Total(sizes) == n && dest + n <= |m| && src + n <= |m| && Copyable(dest, src, n)
    ensures Blocks(Copied(m, dest, src, k), dest, src, k, sizes) == Copied(m, dest, src, n)
    ensures k == 0 ==> Copied(m, dest, src, k) == m
    decreases |sizes|
  {
    if sizes != [] {
      CopyMore(m, dest, src, k, sizes[0], n);
      BlocksCopy(m, dest, src, k + sizes[0], n, sizes[1..]);
    }
  }

  // ---- Destinations inside the source ----

  lemma {:induction false} BlocksBelow(m: seq<byte>, dest: nat, src: nat, k: nat, sizes: seq<nat>, x: nat)
    requires dest + k + Total(sizes) <= |m| && src + k + Total(sizes) <= |m| && x < dest + k && x < |m|
    ensures Blocks(m, dest, src, k, sizes)[x] == m[x]
    decreases |sizes|
  {
    if sizes != [] {
      BlocksBelow(Moved(m, dest, src, k, sizes[0]), dest, src, k + sizes[0], sizes[1..], x);
    }
  }

  /** A byte that no later block overwrites before it is read. */
  lemma {:induction false} BlocksRead(m: seq<byte>, dest: nat, src: nat, k: nat, sizes: seq<nat>, q: nat)
    requires dest + k + Total(sizes) <= |m| && src + k + Total(sizes) <= |m|
    requires k <= q < k + Total(sizes) && src + q < dest + k
    ensures Blocks(m, dest, src, k, sizes)[dest + q] == m[src + q]
    decreases |sizes|
  {
    var b := sizes[0];
    if q < k + b {
      BlocksBelow(Moved(m, dest, src, k, b), dest, src, k + b, sizes[1..], dest + q);
    } else {
      BlocksRead(Moved(m, dest, src, k, b), dest, src, k + b, sizes[1..], q);
    }
  }

  /** If there is more than one block, the first one overwrites a byte that a later one copies. */
  lemma FirstBlockHits(m: seq<byte>, dest: nat, src: nat, n: nat, sizes: seq<nat>, q: nat)
    requires sizes != [] && Total(sizes) == n && sizes[0] < n && src < dest < src + n && dest + n <= |m|
    requires 0 < sizes[0] && q == if dest - src < sizes[0] then sizes[0] else dest - src
    ensures Blocks(m, dest, src, 0, sizes)[dest + q] == m[src + q - (dest - src)]
  {
    var b := sizes[0];
    BlocksRead(Moved(m, dest, src, 0, b), dest, src, b, sizes[1..], q);
  }

  predicate IsBlockSize(n: nat) { n == 2 || n == 4 || n == 8 || n == 16 || n == 32 || n == 64 }

  ghost predicate CopiesAll(dest: nat, src: nat, n: nat) {
    forall m: seq<byte> :: dest + n <= |m| && src + n <= |m| ==>
      Blocks(m, dest, src, 0, Schedule(n)) == Copied(m, dest, src, n)
  }

  /** memcpy() copies all memories correctly exactly for these ranges. */
  lemma MemcpyIff(dest: nat, src: nat, n: nat)
    ensures CopiesAll(dest, src, n) <==> Copyable(dest, src, n) || IsBlockSize(n)
  {
    if Copyable(dest, src, n) {
      forall m: seq<byte> | dest + n <= |m| && src + n <= |m|
        ensures Blocks(m, dest, src, 0, Schedule(n)) == Copied(m, dest, src, n)
      {
        BlocksCopy(m, dest, src, 0, n, Schedule(n));
      }
    } else if IsBlockSize(n) {
      forall m: seq<byte> | dest + n <= |m| && src + n <= |m|
        ensures Blocks(m, dest, src, 0, Schedule(n)) == Copied(m, dest, src, n)
      {
        OneBlock(m, dest, src, n);
      }
    } else {
      var m := Disagreement(dest, src, n);
    }
  }

  lemma OneBlock(m: seq<byte>, dest: nat, src: nat, n: nat)
    requires IsBlockSize(n) && dest + n <= |m| && src + n <= |m|
    ensures Blocks(m, dest, src, 0, Schedule(n)) == Copied(m, dest, src, n)
  {
    ScheduleStep(n);
    assert Schedule(n)[1..] == [];
    assert Blocks(Moved(m, dest, src, 0, n), dest, src, n, []) == Moved(m, dest, src, 0, n);
  }

  /** A memory that memcpy() does not copy correctly. */
  lemma Disagreement(dest: nat, src: nat, n: nat) returns (m: seq<byte>)
    requires src < dest < src + n && !IsBlockSize(n)
    ensures |m| == dest + n && Blocks(m, dest, src, 0, Schedule(n)) != Copied(m, dest, src, n)
  {
    ScheduleStep(n);
    var b := Block(n);
    var q := if dest - src < b then b else dest - src;
    m := seq(dest + n, i => if i == src + q then 1 else 0);
    FirstBlockHits(m, dest, src, n, Schedule(n), q);
    CopiedBytes(m, dest, src, n, dest + q);
  }

  /** For example: three bytes, one byte up. */
  lemma ThreeBytesUp()
    ensures Blocks([1, 2, 3, 4], 1, 0, 0, Schedule(3)) == [1, 1, 2, 2] && Copied([1, 2, 3, 4], 1, 0, 3) == [1, 1, 2, 3]
  {
    var m: seq<byte> := [1, 2, 3, 4];
    var m1 := Moved(m, 1, 0, 0, 2);
    assert m1 == [1, 1, 2, 4];
    assert Moved(m1, 1, 0, 2, 1) == [1, 1, 2, 2];
    assert Schedule(3) == [2, 1] && [2, 1][1..] == [1];
    assert Copied(m, 1, 0, 3) == [1, 1, 2, 3];
  }

  // ---- memmove() ----

  /** The memory once the last i bytes have been copied. */
  function CopiedFromEnd(m: seq<byte>, dest: nat, src: nat, size: nat, i: nat): seq<byte>
    requires i <= size && dest + size <= |m| && src + size <= |m|
  {
    Moved(m, dest, src, size - i, i)
  }

  /** One more byte: the source byte is below everything that was written. */
  lemma CopyOneBefore(m: seq<byte>, dest: nat, src: nat, size: nat, i: nat)
    requires i < size && src < dest && dest + size <= |m| && src + size <= |m|
    ensures var mid, k := CopiedFromEnd(m, dest, src, size, i), size - i - 1;
            mid[dest + k := mid[src + k]] == CopiedFromEnd(m, dest, src, size, i + 1)
  {
  }

  /** memmove(): the same for every overlap. */
  method Memmove(mem: array<byte>, dest: nat, src: nat, size: nat)
    requires dest + size <= mem.Length && src + size <= mem.Length
    modifies mem
    ensures mem[..] == Copied(old(mem[..]), dest, src, size)
  {
    if dest < src || src + size <= dest {
      Memcpy(mem, dest, src, size);
    } else if dest > src {
      ghost var before := mem[..];
      var i := 0;
      assert CopiedFromEnd(before, dest, src, size, 0) == before;
      while i < size
        invariant i <= size && mem[..] == CopiedFromEnd(before, dest, src, size, i)
      {
        CopyOneBefore(before, dest, src, size, i);
        ghost var mid := mem[..];
        mem[dest + (size - i - 1)] := mem[src + (size - i - 1)];
        assert mem[..] == mid[dest + (size - i - 1) := mid[src + (size - i - 1)]];
        i := i + 1;
      }
    }
  }

  /** What the two have in common with a byte-wise copy through a buffer, address by address. */
  lemma CopiedBytes(m: seq<byte>, dest: nat, src: nat, n: nat, x: nat)
    requires dest + n <= |m| && src + n <= |m| && x < |m|
    ensures Copied(m, dest, src, n)[x] == if dest <= x < dest + n then m[src + (x - dest)] else m[x]
  {
  }

  // ---- memset() ----

  function Fill(b: byte, n: nat): (r: seq<byte>)
    ensures |r| == n && forall i :: 0 <= i < n ==> r[i] == b
  {
    seq(n, _ => b)
  }

  /** The patterns of a byte, as memset() computes them. */
  function Pattern64(b: bv8): bv64 {
    var w := b as bv64;
    w | (w << 8) | (w << 16) | (w << 24) | (w << 32) | (w << 40) | (w << 48) | (w << 56)
  }

  function Pattern32(b: bv8): bv32 {
    var w := b as bv32;
    w | (w << 8) | (w << 16) | (w << 24)
  }

  function Pattern16(b: bv8): bv16 {
    var w := b as bv16;
    w | (w << 8)
  }

  /** The bytes of words in memory order (little endian). */
  function Bytes64(w: bv64): (r: seq<byte>)
    ensures |r| == 8
  {
    [(w & 0xff) as bv8, ((w >> 8) & 0xff) as bv8, ((w >> 16) & 0xff) as bv8, ((w >> 24) & 0xff) as bv8,
     ((w >> 32) & 0xff) as bv8, ((w >> 40) & 0xff) as bv8, ((w >> 48) & 0xff) as bv8, ((w >> 56) & 0xff) as bv8]
  }

  function Bytes32(w: bv32): (r: seq<byte>)
    ensures |r| == 4
  {
    [(w & 0xff) as bv8, ((w >> 8) & 0xff) as bv8, ((w >> 16) & 0xff) as bv8, ((w >> 24) & 0xff) as bv8]
  }

  function Bytes16(w: bv16): (r: seq<byte>)
    ensures |r| == 2
  {
    [(w & 0xff) as bv8, ((w >> 8) & 0xff) as bv8]
  }

  /** All bytes of a pattern are the byte. */
  lemma Pattern64IsFill(b: byte)
    ensures Bytes64(Pattern64(b)) == Fill(b, 8)
  {
    assert (Pattern64(b) >> 56) & 0xff == b as bv64;
  }

  lemma SmallPatternsAreFills(b: byte)
    ensures Bytes32(Pattern32(b)) == Fill(b, 4)
    ensures Bytes16(Pattern16(b)) == Fill(b, 2)
  {
  }

  lemma FillMore(m: seq<byte>, dest: nat, b: byte, k: nat, size: nat)
    requires dest + k + size <= |m|
    ensures Put(Put(m, dest, Fill(b, k)), dest + k, Fill(b, size)) == Put(m, dest, Fill(b, k + size))
  {
  }

  /** One store that continues the fill, if the word still fits. */
  method FillWord(mem: array<byte>, dest: nat, n: nat, k: nat, word: seq<byte>, b: byte, ghost before: seq<byte>)
    returns (k': nat)
    requires word == Fill(b, |word|) && k <= n && dest + n <= mem.Length == |before|
    requires mem[..] == Put(before, dest, Fill(b, k))
    modifies mem
    ensures k' == (if n - k >= |word| then k + |word| else k)
    ensures mem[..] == Put(before, dest, Fill(b, k'))
  {
    k' := k;
    if n - k >= |word| {
      FillMore(before, dest, b, k, |word|);
      Store(mem, dest + k, word);
      k' := k + |word|;
    }
  }

  /** An unrolled run of 64-bit stores, if it still fits. */
  method FillBlock(mem: array<byte>, dest: nat, n: nat, k: nat, size: nat, b: byte, ghost before: seq<byte>)
    returns (k': nat)
    requires size % 8 == 0 && k <= n && dest + n <= mem.Length == |before|
    requires mem[..] == Put(before, dest, Fill(b, k))
    modifies mem
    ensures k' == (if n - k >= size then k + size else k)
    ensures mem[..] == Put(before, dest, Fill(b, k'))
  {
    k' := k;
    if n - k >= size {
      Pattern64IsFill(b);
      while k' < k + size
        invariant k <= k' <= k + size && (k' - k) % 8 == 0
        invariant mem[..] == Put(before, dest, Fill(b, k'))
      {
        k' := FillWord(mem, dest, n, k', Bytes64(Pattern64(b)), b, before);
      }
    }
  }

  /** memset(): a byte fill for every alignment and length. */
  method Memset(mem: array<byte>, dest: nat, b: byte, n: nat)
    requires dest + n <= mem.Length
    modifies mem
    ensures mem[..] == Put(old(mem[..]), dest, Fill(b, n))
  {
    ghost var before := mem[..];
    var k := 0;
    assert Put(before, dest, Fill(b, 0)) == before;
    while k < n && (dest + k) % 8 != 0
      invariant k <= n && mem[..] == Put(before, dest, Fill(b, k))
    {
      k := FillWord(mem, dest, n, k, Fill(b, 1), b, before);
    }
    while n - k >= 64
      invariant k <= n && mem[..] == Put(before, dest, Fill(b, k))
    {
      k := FillBlock(mem, dest, n, k, 64, b, before);
    }
    k := FillWords(mem, dest, n, k, b, before);
    FillBytes(mem, dest, n, k, b, before);
  }

  method FillWords(mem: array<byte>, dest: nat, n: nat, k: nat, b: byte, ghost before: seq<byte>) returns (k': nat)
    requires k <= n < k + 64 && dest + n <= mem.Length == |before| && mem[..] == Put(before, dest, Fill(b, k))
    modifies mem
    ensures k' <= n < k' + 8 && mem[..] == Put(before, dest, Fill(b, k'))
  {
    k' := FillBlock(mem, dest, n, k, 32, b, before);
    k' := FillBlock(mem, dest, n, k', 16, b, before);
    k' := FillBlock(mem, dest, n, k', 8, b, before);
  }

  method FillBytes(mem: array<byte>, dest: nat, n: nat, k: nat, b: byte, ghost before: seq<byte>)
    requires k <= n < k + 8 && dest + n <= mem.Length == |before| && mem[..] == Put(before, dest, Fill(b, k))
    modifies mem
    ensures mem[..] == Put(before, dest, Fill(b, n))
  {
    SmallPatternsAreFills(b);
    var k' := FillWord(mem, dest, n, k, Bytes32(Pattern32(b)), b, before);
    k' := FillWord(mem, dest, n, k', Bytes16(Pattern16(b)), b, before);
    k' := FillWord(mem, dest, n, k', Fill(b, 1), b, before);
  }
}

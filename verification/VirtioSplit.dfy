/** Queue::splitContiguous() of core/virtio/src/core.cpp: a buffer as chunks that are contiguous for the device. */
module VirtioSplit {
  import opened Common

  const PAGE: nat := 0x1000

  /** The length field of a descriptor is only 32 bits wide. */
  const MAX_CHUNK: nat := 0xFFFF_F000

  /** What iova_of() knows: one contiguous mapping, or a frame address for every page. */
  datatype DmaSpace = Iommu(base: nat) | Physical(frame: nat -> nat)

  datatype View = View(data: nat, size: nat)

  datatype DmaChunk = DmaChunk(offset: nat, size: nat, address: nat)

  /** The DMA address of the byte at an offset. */
  function Dma(space: DmaSpace, view: View, i: nat): nat {
    match space
    case Iommu(base) => base + i
    case Physical(frame) => frame((view.data + i) / PAGE) + (view.data + i) % PAGE
  }

  // ---- Splits ----

  /** What setupBuffer() requires: the chunk is contiguous in DMA space and not too long. */
  ghost predicate Usable(space: DmaSpace, view: View, chunk: DmaChunk) {
    && 0 < chunk.size <= MAX_CHUNK && chunk.offset + chunk.size <= view.size
    && forall i :: chunk.offset <= i < chunk.offset + chunk.size ==>
         Dma(space, view, i) == chunk.address + (i - chunk.offset)
  }

  /** The chunks cover the view from an offset on. */
  ghost predicate Splits(space: DmaSpace, view: View, a: nat, chunks: seq<DmaChunk>)
    decreases |chunks|
  {
    if chunks == [] then a == view.size
    else
      chunks[0].offset == a && Usable(space, view, chunks[0]) && Splits(space, view, a + chunks[0].size, chunks[1..])
  }

  /** All chunks but the last one end at a page boundary. */
  ghost predicate CutsAtPages(view: View, chunks: seq<DmaChunk>) {
    chunks != [] ==> AtCut(view, chunks[0].offset + chunks[0].size) && CutsAtPages(view, chunks[1..])
  }

  predicate AtCut(view: View, o: nat) { o == view.size || (view.data + o) % PAGE == 0 }

  // ---- Contiguous runs ----

  predicate Follows(space: DmaSpace, view: View, i: nat)
    requires i > 0
  {
    Dma(space, view, i) == Dma(space, view, i - 1) + 1
  }

  ghost predicate Contiguous(space: DmaSpace, view: View, a: nat, b: nat) {
    forall i :: a < i < b ==> Follows(space, view, i)
  }

  /** How far the bytes from an offset on are contiguous. */
  function RunEnd(space: DmaSpace, view: View, a: nat): (r: nat)
    requires a < view.size
    ensures a < r <= view.size
    decreases view.size - a
  {
    if a + 1 < view.size && Follows(space, view, a + 1) then RunEnd(space, view, a + 1) else a + 1
  }

  lemma {:induction false} RunIsMaximal(space: DmaSpace, view: View, a: nat, b: nat)
    requires a < b <= view.size
    ensures Contiguous(space, view, a, b) <==> b <= RunEnd(space, view, a)
    decreases view.size - a
  {
    if a + 1 < b {
      assert Contiguous(space, view, a, b) ==> Follows(space, view, a + 1);
      RunIsMaximal(space, view, a + 1, b);
    }
  }

  lemma RunsGrow(space: DmaSpace, view: View, a: nat, b: nat)
    requires a <= b < view.size
    ensures RunEnd(space, view, a) <= RunEnd(space, view, b)
    ensures b < RunEnd(space, view, a) ==> RunEnd(space, view, b) == RunEnd(space, view, a)
  {
    var r, s := RunEnd(space, view, a), RunEnd(space, view, b);
    RunIsMaximal(space, view, a, r);
    if b < r {
      RunIsMaximal(space, view, b, r);
      RunIsMaximal(space, view, b, s);
      assert Contiguous(space, view, a, s);
      RunIsMaximal(space, view, a, s);
    }
  }

  lemma {:induction false} RunEndsAtPage(space: DmaSpace, view: View, a: nat)
    requires a < view.size && space.Physical?
    ensures AtCut(view, RunEnd(space, view, a))
    decreases view.size - a
  {
    if a + 1 < view.size && Follows(space, view, a + 1) { RunEndsAtPage(space, view, a + 1); }
  }

  lemma {:induction false} IommuRuns(space: DmaSpace, view: View, a: nat)
    requires a < view.size && space.Iommu?
    ensures RunEnd(space, view, a) == view.size
    decreases view.size - a
  {
    if a + 1 < view.size { IommuRuns(space, view, a + 1); }
  }

  /** The addresses of a contiguous run. */
  lemma {:induction false} RunAddress(space: DmaSpace, view: View, a: nat, i: nat)
    requires a <= i < view.size && i < RunEnd(space, view, a)
    ensures Dma(space, view, i) == Dma(space, view, a) + (i - a)
    decreases i - a
  {
    if a < i {
      RunsGrow(space, view, a, a + 1);
      RunAddress(space, view, a + 1, i);
    }
  }

  lemma UsableIsRun(space: DmaSpace, view: View, chunk: DmaChunk)
    requires Usable(space, view, chunk)
    ensures chunk.offset + chunk.size <= RunEnd(space, view, chunk.offset)
  {
    RunIsMaximal(space, view, chunk.offset, chunk.offset + chunk.size);
  }

  // ---- The fewest chunks ----

  function Farthest(space: DmaSpace, view: View, a: nat): (r: nat)
    requires a < view.size
    ensures a < r <= view.size
  {
    Min(RunEnd(space, view, a), a + MAX_CHUNK)
  }

  function Fewest(space: DmaSpace, view: View, a: nat): nat
    decreases view.size - a
  {
    if a >= view.size then 0 else 1 + Fewest(space, view, Farthest(space, view, a))
  }

  lemma {:induction false} FewestFalls(space: DmaSpace, view: View, a: nat, b: nat)
    requires a <= b
    ensures Fewest(space, view, b) <= Fewest(space, view, a)
    decreases view.size - a
  {
    if b < view.size {
      RunsGrow(space, view, a, b);
      FewestFalls(space, view, Farthest(space, view, a), Farthest(space, view, b));
    }
  }

  /** No split into usable chunks is shorter. */
  lemma {:induction false} NoneShorter(space: DmaSpace, view: View, a: nat, chunks: seq<DmaChunk>)
    requires Splits(space, view, a, chunks)
    ensures Fewest(space, view, a) <= |chunks|
    decreases |chunks|
  {
    if chunks != [] {
      var next := a + chunks[0].size;
      UsableIsRun(space, view, chunks[0]);
      FewestFalls(space, view, next, Farthest(space, view, a));
      NoneShorter(space, view, next, chunks[1..]);
    }
  }

  lemma RunIsUsable(space: DmaSpace, view: View, a: nat, b: nat)
    requires a < view.size && a < b <= Farthest(space, view, a)
    ensures Usable(space, view, DmaChunk(a, b - a, Dma(space, view, a)))
  {
    forall i | a <= i < b ensures Dma(space, view, i) == Dma(space, view, a) + (i - a) {
      RunAddress(space, view, a, i);
    }
  }

  /** Some split is that short. */
  lemma {:induction false} FewestIsReached(space: DmaSpace, view: View, a: nat) returns (chunks: seq<DmaChunk>)
    requires a <= view.size
    ensures Splits(space, view, a, chunks) && |chunks| == Fewest(space, view, a)
    decreases view.size - a
  {
    chunks := [];
    if a < view.size {
      var next := Farthest(space, view, a);
      var rest := FewestIsReached(space, view, next);
      RunIsUsable(space, view, a, next);
      chunks := [DmaChunk(a, next - a, Dma(space, view, a))] + rest;
    }
  }

  // ---- The chunks of splitContiguous() ----

  /** The last page boundary up to an offset. */
  function PageCut(view: View, o: nat): int { o - (view.data + o) % PAGE }

  function NextCut(space: DmaSpace, view: View, a: nat): (r: nat)
    requires a < view.size
    ensures a < r <= Farthest(space, view, a)
  {
    if space.Iommu? || RunEnd(space, view, a) <= a + MAX_CHUNK then Farthest(space, view, a)
    else PageCut(view, a + MAX_CHUNK)
  }

  function Chunks(space: DmaSpace, view: View, a: nat): seq<DmaChunk>
    decreases view.size - a
  {
    if a >= view.size then []
    else
      var next := NextCut(space, view, a);
      [DmaChunk(a, next - a, Dma(space, view, a))] + Chunks(space, view, next)
  }

  /** The chunks are usable and cover the view. */
  lemma {:induction false} ChunksSplit(space: DmaSpace, view: View, a: nat)
    requires a <= view.size
    ensures Splits(space, view, a, Chunks(space, view, a))
    decreases view.size - a
  {
    if a < view.size {
      var next := NextCut(space, view, a);
      RunIsUsable(space, view, a, next);
      ChunksSplit(space, view, next);
    }
  }

  lemma NextCutIsCut(space: DmaSpace, view: View, a: nat)
    requires a < view.size && space.Physical?
    ensures AtCut(view, NextCut(space, view, a))
  {
    RunEndsAtPage(space, view, a);
  }

  lemma NotBeyondNextCut(space: DmaSpace, view: View, a: nat, o: nat)
    requires a < view.size && AtCut(view, o) && a < o <= Farthest(space, view, a)
    ensures o <= NextCut(space, view, a)
  {
  }

  lemma FarthestFromPage(space: DmaSpace, view: View, a: nat)
    requires a < view.size && (space.Iommu? || AtCut(view, a))
    ensures NextCut(space, view, a) == Farthest(space, view, a)
    ensures space.Iommu? || AtCut(view, Farthest(space, view, a))
  {
    if space.Physical? { RunEndsAtPage(space, view, a); }
  }

  /** From a page boundary, and with an IOMMU, the chunks are as few as possible. */
  lemma {:induction false} FewestFromPage(space: DmaSpace, view: View, a: nat)
    requires space.Iommu? || AtCut(view, a)
    ensures |Chunks(space, view, a)| == Fewest(space, view, a)
    decreases view.size - a
  {
    if a < view.size {
      FarthestFromPage(space, view, a);
      FewestFromPage(space, view, Farthest(space, view, a));
    }
  }

  // ---- Fewest at page boundaries ----

  lemma NextCutsGrow(space: DmaSpace, view: View, a: nat, b: nat)
    requires space.Physical? && a <= b < view.size
    ensures NextCut(space, view, a) <= NextCut(space, view, b)
  {
    var cut := NextCut(space, view, a);
    RunsGrow(space, view, a, b);
    NextCutIsCut(space, view, a);
    if b < cut { NotBeyondNextCut(space, view, b, cut); }
  }

  lemma {:induction false} ChunksFall(space: DmaSpace, view: View, a: nat, b: nat)
    requires space.Physical? && a <= b
    ensures |Chunks(space, view, b)| <= |Chunks(space, view, a)|
    decreases view.size - a
  {
    if b < view.size {
      NextCutsGrow(space, view, a, b);
      ChunksFall(space, view, NextCut(space, view, a), NextCut(space, view, b));
    }
  }

  /** Without an IOMMU, no split that cuts at page boundaries only is shorter. */
  lemma {:induction false} NoneShorterAtPages(space: DmaSpace, view: View, a: nat, chunks: seq<DmaChunk>)
    requires space.Physical? && Splits(space, view, a, chunks) && CutsAtPages(view, chunks)
    ensures |Chunks(space, view, a)| <= |chunks|
    decreases |chunks|
  {
    if chunks != [] {
      var next := a + chunks[0].size;
      UsableIsRun(space, view, chunks[0]);
      NotBeyondNextCut(space, view, a, next);
      ChunksFall(space, view, next, NextCut(space, view, a));
      NoneShorterAtPages(space, view, next, chunks[1..]);
    }
  }

  // ---- When the documented minimality holds ----

  function CeilDiv(n: nat): nat { (n + MAX_CHUNK - 1) / MAX_CHUNK }

  lemma {:induction false} FewestInRun(space: DmaSpace, view: View, a: nat, end: nat)
    requires a < view.size && end == RunEnd(space, view, a)
    ensures Fewest(space, view, a) == CeilDiv(end - a) + Fewest(space, view, end)
    decreases view.size - a
  {
    if end > a + MAX_CHUNK {
      RunsGrow(space, view, a, a + MAX_CHUNK);
      FewestInRun(space, view, a + MAX_CHUNK, end);
    }
  }

  /** Whether the pages that the first chunk loses by ending early cost a chunk. */
  predicate FirstRunFits(space: DmaSpace, view: View)
    requires view.size > 0
  {
    var run := RunEnd(space, view, 0);
    run <= MAX_CHUNK || CeilDiv(run + view.data % PAGE) == CeilDiv(run)
  }

  lemma FirstCut(space: DmaSpace, view: View)
    requires view.size > 0 && space.Physical? && RunEnd(space, view, 0) > MAX_CHUNK
    ensures NextCut(space, view, 0) == MAX_CHUNK - view.data % PAGE
  {
  }

  lemma CeilDivShifts(n: nat, lost: nat)
    requires n > MAX_CHUNK > lost
    ensures 1 + CeilDiv(n - (MAX_CHUNK - lost)) == CeilDiv(n + lost)
  {
  }

  lemma LongFirstRun(space: DmaSpace, view: View, run: nat)
    requires view.size > 0 && space.Physical? && run == RunEnd(space, view, 0) > MAX_CHUNK
    ensures |Chunks(space, view, 0)| == CeilDiv(run + view.data % PAGE) + Fewest(space, view, run)
  {
    var next := NextCut(space, view, 0);
    FirstCut(space, view);
    NextCutIsCut(space, view, 0);
    FewestFromPage(space, view, next);
    RunsGrow(space, view, 0, next);
    FewestInRun(space, view, next, run);
    CeilDivShifts(run, view.data % PAGE);
  }

  lemma ShortFirstRun(space: DmaSpace, view: View, run: nat)
    requires view.size > 0 && space.Physical? && run == RunEnd(space, view, 0) <= MAX_CHUNK
    ensures |Chunks(space, view, 0)| == Fewest(space, view, 0)
  {
    RunEndsAtPage(space, view, 0);
    FewestFromPage(space, view, run);
  }

  /** The split is as short as possible exactly if the first contiguous run loses no chunk to its unaligned start. */
  lemma FewestIff(space: DmaSpace, view: View)
    requires view.size > 0 && space.Physical?
    ensures |Chunks(space, view, 0)| == Fewest(space, view, 0) <==> FirstRunFits(space, view)
  {
    var run := RunEnd(space, view, 0);
    if run > MAX_CHUNK {
      LongFirstRun(space, view, run);
      FewestInRun(space, view, 0, run);
    } else {
      ShortFirstRun(space, view, run);
    }
  }

  /** No split is shorter. */
  ghost predicate IsShortest(space: DmaSpace, view: View, chunks: seq<DmaChunk>) {
    Splits(space, view, 0, chunks) && forall other :: Splits(space, view, 0, other) ==> |chunks| <= |other|
  }

  lemma ShortestIsFewest(space: DmaSpace, view: View, chunks: seq<DmaChunk>)
    requires Splits(space, view, 0, chunks)
    ensures IsShortest(space, view, chunks) <==> |chunks| == Fewest(space, view, 0)
  {
    var fewest := FewestIsReached(space, view, 0);
    NoneShorter(space, view, 0, chunks);
    forall other | Splits(space, view, 0, other) ensures Fewest(space, view, 0) <= |other| {
      NoneShorter(space, view, 0, other);
    }
  }

  /** splitContiguous() keeps its promise of a minimal sequence exactly then, and always with an IOMMU. */
  lemma ShortestIff(space: DmaSpace, view: View)
    requires view.size > 0
    ensures IsShortest(space, view, Chunks(space, view, 0)) <==> space.Iommu? || FirstRunFits(space, view)
  {
    ChunksSplit(space, view, 0);
    ShortestIsFewest(space, view, Chunks(space, view, 0));
    if space.Iommu? {
      FewestFromPage(space, view, 0);
    } else {
      FewestIff(space, view);
    }
  }

  /** It can lose one: two chunks of the greatest size, from the last byte of a page on. */
  lemma SplitCanBeLonger()
    ensures var space, view := Physical((p: nat) => p * PAGE), View(PAGE - 1, 2 * MAX_CHUNK);
            !IsShortest(space, view, Chunks(space, view, 0))
  {
    var space, view := Physical((p: nat) => p * PAGE), View(PAGE - 1, 2 * MAX_CHUNK);
    RunIsMaximal(space, view, 0, view.size);
    ShortestIff(space, view);
  }

  // ---- The loops ----

  /** What the second loop knows about the chunk that it is extending. */
  ghost predicate Extending(space: DmaSpace, view: View, chunk: DmaChunk, offset: nat) {
    && space.Physical? && offset <= view.size && chunk.offset + chunk.size == offset && AtCut(view, offset)
    && 0 < chunk.size && chunk.address == Dma(space, view, chunk.offset)
    && offset <= NextCut(space, view, chunk.offset)
  }

  /** The finished chunks and the one in progress; its size is 0 at first. */
  ghost predicate InProgress(
    space: DmaSpace, view: View, all: seq<DmaChunk>, chunks: seq<DmaChunk>, chunk: DmaChunk, offset: nat)
  {
    && all == chunks + Chunks(space, view, chunk.offset)
    && if chunk.size > 0 then Extending(space, view, chunk, offset) else offset == chunk.offset == 0
  }

  /** What is left of the page, or of the view. */
  function Piece(view: View, offset: nat): (r: nat)
    requires offset < view.size
    ensures 0 < r <= view.size - offset
  {
    Min(view.size - offset, PAGE - (view.data + offset) % PAGE)
  }

  /** The bytes of a page follow each other. */
  lemma FollowsInPage(space: DmaSpace, view: View, i: nat)
    requires space.Physical? && i > 0 && (view.data + i) % PAGE != 0
    ensures Follows(space, view, i)
  {
    assert (view.data + i - 1) / PAGE == (view.data + i) / PAGE;
  }

  lemma InsidePiece(view: View, a: nat, i: nat)
    requires a < view.size && a < i < a + Piece(view, a)
    ensures (view.data + i) % PAGE != 0
  {
  }

  lemma PieceIsRun(space: DmaSpace, view: View, a: nat, b: nat)
    requires space.Physical? && a < view.size && a < b <= a + Piece(view, a)
    ensures b <= RunEnd(space, view, a)
  {
    forall i | a < i < b ensures Follows(space, view, i) {
      InsidePiece(view, a, i);
      FollowsInPage(space, view, i);
    }
    RunIsMaximal(space, view, a, b);
  }

  /** Between an offset and the end of its piece there is no page boundary. */
  lemma NoCutInside(view: View, o: nat, cut: nat)
    requires o < cut <= view.size && AtCut(view, cut)
    ensures o + Piece(view, o) <= cut
  {
  }

  lemma IsNextCut(space: DmaSpace, view: View, a: nat, o: nat)
    requires space.Physical? && a < view.size && a < o <= NextCut(space, view, a)
    requires o == RunEnd(space, view, a) || (o < view.size && o + Piece(view, o) > a + MAX_CHUNK)
    ensures o == NextCut(space, view, a)
  {
    var cut := NextCut(space, view, a);
    NextCutIsCut(space, view, a);
    if o < cut { NoCutInside(view, o, cut); }
  }

  lemma PieceEndsAtCut(view: View, o: nat)
    requires o < view.size
    ensures AtCut(view, o + Piece(view, o))
  {
  }

  lemma Begin(space: DmaSpace, view: View, offset: nat)
    requires space.Physical? && offset < view.size
    ensures var piece := Piece(view, offset);
            Extending(space, view, DmaChunk(offset, piece, Dma(space, view, offset)), offset + piece)
  {
    var piece := Piece(view, offset);
    PieceEndsAtCut(view, offset);
    PieceIsRun(space, view, offset, offset + piece);
    NotBeyondNextCut(space, view, offset, offset + piece);
  }

  lemma Merge(space: DmaSpace, view: View, chunk: DmaChunk, offset: nat)
    requires Extending(space, view, chunk, offset) && offset < view.size
    requires Dma(space, view, offset) == chunk.address + chunk.size && chunk.size + Piece(view, offset) <= MAX_CHUNK
    ensures var piece := Piece(view, offset);
            Extending(space, view, chunk.(size := chunk.size + piece), offset + piece)
  {
    var piece := Piece(view, offset);
    PieceEndsAtCut(view, offset);
    JoinRuns(space, view, chunk.offset, offset);
    PieceIsRun(space, view, offset, offset + piece);
    NotBeyondNextCut(space, view, chunk.offset, offset + piece);
  }

  lemma {:induction false} RunGoesOn(space: DmaSpace, view: View, a: nat, i: nat)
    requires a < i < view.size && i <= RunEnd(space, view, a)
    ensures Follows(space, view, i) <==> i < RunEnd(space, view, a)
    decreases i - a
  {
    if a + 1 < i { RunGoesOn(space, view, a + 1, i); }
  }

  /** The next byte follows exactly if the run goes on. */
  lemma JoinRuns(space: DmaSpace, view: View, a: nat, offset: nat)
    requires a < offset < view.size && offset <= RunEnd(space, view, a)
    ensures Dma(space, view, offset) == Dma(space, view, a) + (offset - a) <==> offset < RunEnd(space, view, a)
    ensures offset < RunEnd(space, view, a) ==> RunEnd(space, view, offset) == RunEnd(space, view, a)
  {
    RunAddress(space, view, a, offset - 1);
    RunGoesOn(space, view, a, offset);
    RunsGrow(space, view, a, offset);
  }

  /** A chunk that cannot be extended ends where it should. */
  lemma Finish(space: DmaSpace, view: View, all: seq<DmaChunk>, chunks: seq<DmaChunk>, chunk: DmaChunk, offset: nat)
    requires Extending(space, view, chunk, offset)
    requires all == chunks + Chunks(space, view, chunk.offset)
    requires offset < view.size ==>
               Dma(space, view, offset) != chunk.address + chunk.size || chunk.size + Piece(view, offset) > MAX_CHUNK
    ensures all == (chunks + [chunk]) + Chunks(space, view, offset)
  {
    if offset < view.size { JoinRuns(space, view, chunk.offset, offset); }
    IsNextCut(space, view, chunk.offset, offset);
    assert Chunks(space, view, chunk.offset) == [chunk] + Chunks(space, view, offset);
  }

  lemma Complete(space: DmaSpace, view: View, all: seq<DmaChunk>, chunks: seq<DmaChunk>, chunk: DmaChunk)
    requires space.Physical? && InProgress(space, view, all, chunks, chunk, view.size)
    ensures all == if chunk.size > 0 then chunks + [chunk] else chunks
  {
    assert Chunks(space, view, view.size) == [];
    if chunk.size > 0 { Finish(space, view, all, chunks, chunk, view.size); }
  }

  /** splitContiguous(): both branches. */
  method SplitContiguous(space: DmaSpace, view: View) returns (chunks: seq<DmaChunk>)
    ensures chunks == Chunks(space, view, 0) && Splits(space, view, 0, chunks)
  {
    ChunksSplit(space, view, 0);
    if space.Iommu? {
      chunks := SplitMapped(space, view);
    } else {
      chunks := SplitPages(space, view);
    }
  }

  method SplitMapped(space: DmaSpace, view: View) returns (chunks: seq<DmaChunk>)
    requires space.Iommu?
    ensures chunks == Chunks(space, view, 0)
  {
    chunks := [];
    var offset := 0;
    while offset < view.size
      invariant offset <= view.size && Chunks(space, view, 0) == chunks + Chunks(space, view, offset)
    {
      IommuRuns(space, view, offset);
      var size := Min(view.size - offset, MAX_CHUNK);
      chunks := chunks + [DmaChunk(offset, size, Dma(space, view, offset))];
      offset := offset + size;
    }
  }

  /** One iteration of the second loop: the piece at the offset extends the chunk or starts a new one. */
  method AddPiece(space: DmaSpace, view: View, ghost all: seq<DmaChunk>, chunks: seq<DmaChunk>,
                  chunk: DmaChunk, offset: nat)
    returns (chunks': seq<DmaChunk>, chunk': DmaChunk, piece: nat)
    requires space.Physical? && offset < view.size && InProgress(space, view, all, chunks, chunk, offset)
    ensures 0 < piece <= view.size - offset && InProgress(space, view, all, chunks', chunk', offset + piece)
  {
    piece := Piece(view, offset);
    var address := Dma(space, view, offset);
    if chunk.size > 0 && address == chunk.address + chunk.size && chunk.size + piece <= MAX_CHUNK {
      Merge(space, view, chunk, offset);
      return chunks, chunk.(size := chunk.size + piece), piece;
    }
    chunks' := chunks;
    if chunk.size > 0 {
      Finish(space, view, all, chunks, chunk, offset);
      chunks' := chunks + [chunk];
    }
    Begin(space, view, offset);
    chunk' := DmaChunk(offset, piece, address);
  }

  lemma StartsInProgress(space: DmaSpace, view: View)
    requires space.Physical?
    ensures InProgress(space, view, Chunks(space, view, 0), [], DmaChunk(0, 0, 0), 0)
  {
  }

  /** The second loop, up to the chunk that is still open at its end. */
  method CollectPages(space: DmaSpace, view: View, ghost all: seq<DmaChunk>)
    returns (chunks: seq<DmaChunk>, chunk: DmaChunk)
    requires space.Physical? && InProgress(space, view, all, [], DmaChunk(0, 0, 0), 0)
    ensures InProgress(space, view, all, chunks, chunk, view.size)
  {
    chunks, chunk := [], DmaChunk(0, 0, 0);
    var offset: nat := 0;
    while offset < view.size
      invariant offset <= view.size && InProgress(space, view, all, chunks, chunk, offset)
    {
      var piece;
      chunks, chunk, piece := AddPiece(space, view, all, chunks, chunk, offset);
      offset := offset + piece;
    }
  }

  method SplitPages(space: DmaSpace, view: View) returns (chunks: seq<DmaChunk>)
    requires space.Physical?
    ensures chunks == Chunks(space, view, 0)
  {
    ghost var all := Chunks(space, view, 0);
    StartsInProgress(space, view);
    var chunk;
    chunks, chunk := CollectPages(space, view, all);
    Complete(space, view, all, chunks, chunk);
    if chunk.size > 0 {
      chunks := chunks + [chunk];
    }
  }
}

/** Runs of the completion queue: which chunk sizes keep every write in its chunk, and what happens with the others. */
module DispatcherRuns {
  import opened Dispatcher
  import opened DispatcherLayout

  // ---- Runs ----

  ghost predicate AllValid(chunkSize: nat, steps: seq<Step>) {
    forall k :: 0 <= k < |steps| && steps[k].Submit? ==> ValidSize(chunkSize, steps[k].element)
  }

  /** Some run leads from one state to the other, and all its submissions have a valid size. */
  ghost predicate Leads(st: State, st': State) {
    exists steps :: LeadsBy(st, st', steps)
  }

  ghost predicate LeadsBy(st: State, st': State, steps: seq<Step>) {
    IsRun(st, steps) && After(st, steps) == st' && AllValid(st.chunkSize, steps)
  }

  lemma Stay(st: State)
    ensures Leads(st, st)
  {
    assert LeadsBy(st, st, []);
  }

  lemma {:induction false} Extend(st: State, steps: seq<Step>, step: Step)
    requires IsRun(st, steps) && Enabled(After(st, steps), step)
    ensures IsRun(st, steps + [step]) && After(st, steps + [step]) == Next(After(st, steps), step)
    decreases |steps|
  {
    if steps == [] {
      assert ([] + [step])[1..] == [];
    } else {
      Extend(Next(st, steps[0]), steps[1..], step);
      assert (steps + [step])[1..] == steps[1..] + [step];
    }
  }

  /** One more step. */
  lemma Then(st0: State, st: State, step: Step)
    requires Leads(st0, st) && Enabled(st, step) && (step.Submit? ==> ValidSize(st0.chunkSize, step.element))
    ensures Leads(st0, Next(st, step))
  {
    var steps :| LeadsBy(st0, st, steps);
    Extend(st0, steps, step);
    assert LeadsBy(st0, Next(st, step), steps + [step]);
  }

  lemma FromStart(st0: State, st: State)
    requires Leads(st0, st) && SizesOk(st0)
    ensures st.chunkSize == st0.chunkSize && SizesOk(st)
  {
    var steps :| LeadsBy(st0, st, steps);
    RunKeepsSizes(st0, steps);
  }

  // ---- The right chunk sizes ----

  /** All submissions of all runs from the constructor on write to their own chunk. */
  ghost predicate StaysInside(chunkSize: nat, n: nat) {
    forall st0: State, st: State ::
      Initial(st0, n) && st0.chunkSize == chunkSize && Leads(st0, st) && st.kernelPc.KWrite? ==>
        Overrun(chunkSize, st.currentProgress, st.element) == 0
  }

  /** The progress of all runs can be read back from its word. */
  ghost predicate CountsExactly(chunkSize: nat, n: nat) {
    forall st0: State, st: State :: Initial(st0, n) && st0.chunkSize == chunkSize && Leads(st0, st) ==>
        Fields(st.currentProgress) == Progress(st.currentProgress, false, false)
  }

  function Constructed(chunkSize: nat, n: nat): State
    requires n > 0
  {
    State(chunkSize, seq(n, c requires 0 <= c < n => if c + 1 < n then c + 1 else -1),
          seq(n, _ => Progress(0, false, false)), seq(n, _ => map[]), NONE, false, Outside, NONE, 0, n - 1, 0,
          seq(n, _ => 1), seq(n, _ => []), KIdle, 0, 0, Element(0, []), 0, 0,
          seq(n, c requires 0 <= c < n => c), 0, 0, [[]], 0, [])
  }

  lemma ConstructedIsInitial(chunkSize: nat, n: nat)
    requires n > 0
    ensures Initial(Constructed(chunkSize, n), n)
  {
  }

  /** The rest of a submission: the element is written, its progress stored and the bit set. */
  lemma FinishWrite(st0: State, st: State) returns (st': State)
    requires Leads(st0, st) && st.kernelPc == KWrite && IsChunk(st, st.currentChunk)
    ensures Leads(st0, st')
    ensures var w, n := WriteElement(st), st.currentProgress + Size(st.element);
            st' == w.(progress := w.progress[st.currentChunk := ProgressWord(n, false, false)], currentProgress := n,
                      userNotify := st.userNotify.(cqProgress := true), kernelPc := KIdle, log := st'.log)
  {
    WriteTouches(st);
    var s1 := Next(st, Kernel);
    Then(st0, st, Kernel);
    var s2 := Next(s1, Kernel);
    Then(st0, s1, Kernel);
    st' := Next(s2, Kernel);
    Then(st0, s2, Kernel);
  }

  /** An element that fits is written and its progress stored. */
  lemma Submitted(st0: State, st: State, e: Element) returns (st1: State, st2: State)
    requires Leads(st0, st) && st.chunkSize == st0.chunkSize && st.kernelPc == KIdle && IsChunk(st, st.currentChunk)
    requires ValidSize(st.chunkSize, e) && st.currentProgress + Length(e) <= st.chunkSize
    ensures Leads(st0, st1) && st1 == st.(element := e, kernelPc := KWrite)
    ensures Leads(st0, st2) && st2.kernelPc == KIdle && IsChunk(st2, st2.currentChunk) && st2.chunkSize == st.chunkSize
    ensures st2.currentProgress == st.currentProgress + Size(e)
  {
    st1 := Next(st, Submit(e));
    Then(st0, st, Submit(e));
    st2 := FinishWrite(st0, st1);
    WriteTouches(st1);
  }

  /** Two submissions of valid size bring the progress to its limit. */
  lemma ReachLimit(chunkSize: nat, n: nat) returns (st1: State, st2: State)
    requires n > 0 && chunkSize >= 16
    ensures Leads(Constructed(chunkSize, n), st1) && st1.kernelPc.KWrite?
    ensures st1.currentProgress + Size(st1.element) == Limit(chunkSize)
    ensures Leads(Constructed(chunkSize, n), st2) && st2.currentProgress == Limit(chunkSize)
  {
    var st0 := Constructed(chunkSize, n);
    Stay(st0);
    var _, s := Submitted(st0, st0, Element(0, []));
    var words := (chunkSize - chunkSize % 8) / 8 - 2;
    st1, st2 := Submitted(st0, s, Element(0, seq(words, _ => 0)));
  }

  /** Every write stays in its chunk exactly for these chunk sizes. */
  lemma StaysInsideIff(chunkSize: nat, n: nat)
    requires n > 0
    ensures StaysInside(chunkSize, n) <==> Roomy(chunkSize)
  {
    if Roomy(chunkSize) {
      forall st0: State, st: State |
        Initial(st0, n) && st0.chunkSize == chunkSize && Leads(st0, st) && st.kernelPc.KWrite?
        ensures Overrun(chunkSize, st.currentProgress, st.element) == 0
      {
        FromStart(st0, st);
        NoOverrun(chunkSize, st.currentProgress, st.element);
      }
    } else {
      ConstructedIsInitial(chunkSize, n);
      var st, _ := ReachLimit(chunkSize, n);
      LimitOverruns(chunkSize, st.currentProgress, st.element);
    }
  }

  lemma LimitOverruns(chunkSize: nat, p: nat, e: Element)
    requires !Roomy(chunkSize) && p + Size(e) == Limit(chunkSize)
    ensures Overrun(chunkSize, p, e) > 0
  {
  }

  /** The progress can be read back exactly for these chunk sizes. */
  lemma CountsExactlyIff(chunkSize: nat, n: nat)
    requires n > 0
    ensures CountsExactly(chunkSize, n) <==> Countable(chunkSize)
  {
    if Countable(chunkSize) {
      forall st0: State, st: State | Initial(st0, n) && st0.chunkSize == chunkSize && Leads(st0, st)
        ensures Fields(st.currentProgress) == Progress(st.currentProgress, false, false)
      {
        FromStart(st0, st);
        FieldsOfSmall(st.currentProgress);
      }
    } else {
      ConstructedIsInitial(chunkSize, n);
      var _, st := ReachLimit(chunkSize, n);
      FieldsOfLarge(st.currentProgress);
    }
  }

  // ---- Longer runs ----

  /** The element is written within its chunk. */
  lemma Fill(st0: State, st: State) returns (st': State)
    requires Leads(st0, st) && st.kernelPc == KWrite && IsChunk(st, st.currentChunk)
    requires Overrun(st.chunkSize, st.currentProgress, st.element) == 0
    requires st.currentProgress + Size(st.element) < MASK
    ensures Leads(st0, st')
    ensures var c, p, n := st.currentChunk, st.currentProgress, st.currentProgress + Size(st.element);
            && st' == st.(progress := st.progress[c := Progress(n, false, false)], currentProgress := n,
                          userNotify := st.userNotify.(cqProgress := true), kernelPc := KIdle, log := st'.log,
                          data := st.data[c := Overwrite(st.data[c], p, n)[p := st.element]])
  {
    st' := FinishWrite(st0, st);
    FieldsOfSmall(st.currentProgress + Size(st.element));
  }

  /** An element that does not fit: the kernel marks its chunk as full. */
  lemma MarkFull(st0: State, st: State, e: Element) returns (st': State)
    requires Leads(st0, st) && st.kernelPc == KIdle && IsChunk(st, st.currentChunk) && st.chunkSize == st0.chunkSize
    requires ValidSize(st.chunkSize, e) && st.currentProgress + Length(e) > st.chunkSize && st.currentProgress < MASK
    ensures Leads(st0, st')
    ensures st' == st.(element := e,
                       progress := st.progress[st.currentChunk := Progress(st.currentProgress, true, false)],
                       userNotify := st.userNotify.(cqProgress := true), kernelPc := KLoadNext)
  {
    FieldsOfSmall(st.currentProgress);
    var s1 := Next(st, Submit(e));
    Then(st0, st, Submit(e));
    var s2 := Next(s1, Kernel);
    Then(st0, s1, Kernel);
    st' := Next(s2, Kernel);
    Then(st0, s2, Kernel);
  }

  /** Then it goes on to the next one. */
  lemma MoveOn(st0: State, st: State, e: Element) returns (st': State)
    requires Leads(st0, st) && st.kernelPc == KIdle && IsChunk(st, st.currentChunk) && st.chunkSize == st0.chunkSize
    requires ValidSize(st.chunkSize, e) && st.currentProgress + Length(e) > st.chunkSize && st.currentProgress < MASK
    requires st.next[st.currentChunk] >= 0 && IsChunk(st, st.next[st.currentChunk])
    ensures Leads(st0, st')
    ensures var c, n := st.currentChunk, st.currentProgress;
            st' == st.(element := e, progress := st.progress[c := Progress(n, true, true)], currentChunk := st.next[c],
                       currentProgress := 0, userNotify := st.userNotify.(cqProgress := true), kernelPc := KWrite,
                       kernelAt := st.kernelAt + 1, log := st.log + [[]])
  {
    FieldsOfSmall(st.currentProgress);
    var s3 := MarkFull(st0, st, e);
    var s4 := Next(s3, Kernel);
    Then(st0, s3, Kernel);
    var s5 := Next(s4, Kernel);
    Then(st0, s4, Kernel);
    st' := Next(s5, Kernel);
    Then(st0, s5, Kernel);
  }

  /** The owner looks at its chunk when the bit is set. */
  lemma Look(st0: State, st: State) returns (st': State)
    requires Leads(st0, st) && IsChunk(st, st.retrieveChunk) && IsChunk(st, st.tailChunk)
    requires (st.userPc == Outside || st.userPc == Top) && st.runQueue == 0 && st.userNotify.cqProgress
    ensures Leads(st0, st') && st' == st.(userPc := Check(st.userNotify))
  {
    var s := st;
    if st.userPc == Outside {
      s := Next(st, Wait);
      Then(st0, st, Wait);
    }
    var s1 := Next(s, User);
    Then(st0, s, User);
    st' := Next(s1, User);
    Then(st0, s1, User);
  }

  /** It receives the element there. */
  lemma Receive(st0: State, st: State, e: Element) returns (st': State)
    requires Leads(st0, st) && IsChunk(st, st.retrieveChunk) && IsChunk(st, st.tailChunk)
    requires (st.userPc == Outside || st.userPc == Top) && st.runQueue == 0 && st.userNotify.cqProgress
    requires st.lastProgress != st.progress[st.retrieveChunk].count
    requires st.lastProgress in st.data[st.retrieveChunk] && st.data[st.retrieveChunk][st.lastProgress] == e
    ensures Leads(st0, st')
    ensures var c := st.retrieveChunk;
            st' == st.(lastProgress := st.lastProgress + Size(e), refCounts := st.refCounts[c := st.refCounts[c] + 1],
                       handles := st.handles[c := st.handles[c] + [Handle(st.lastProgress, e)]],
                       consumed := st.consumed + 1, received := st.received + [e], userPc := Outside,
                       pending := st.pending.Or(st.userNotify))
  {
    var s := Look(st0, st);
    st' := Next(s, User);
    Then(st0, s, User);
  }

  /** It leaves a chunk that is done. */
  lemma Leave(st0: State, st: State) returns (st': State)
    requires Leads(st0, st) && IsChunk(st, st.retrieveChunk) && IsChunk(st, st.tailChunk)
    requires (st.userPc == Outside || st.userPc == Top) && st.runQueue == 0 && st.userNotify.cqProgress
    requires st.lastProgress == st.progress[st.retrieveChunk].count && st.progress[st.retrieveChunk].done
    requires st.next[st.retrieveChunk] >= 0
    ensures Leads(st0, st')
    ensures var c := st.retrieveChunk;
            st' == st.(retrieveChunk := st.next[c], lastProgress := 0, userAt := st.userAt + 1, consumed := 0,
                       refCounts := st.refCounts[c := st.refCounts[c] - 1],
                       userPc := if st.refCounts[c] > 1 then Top else ResetChunk(c, true),
                       pending := st.pending.Or(st.userNotify))
  {
    var s := Look(st0, st);
    var s1 := Next(s, User);
    Then(st0, s, User);
    st' := Next(s1, User);
    Then(st0, s1, User);
  }

  /** It recycles a chunk. */
  lemma Recycle(st0: State, st: State) returns (st': State)
    requires Leads(st0, st) && IsChunk(st, st.retrieveChunk) && IsChunk(st, st.tailChunk)
    requires st.userPc.ResetChunk? && st.userPc.inWait && IsChunk(st, st.userPc.chunk)
    requires st.userPc.chunk != st.tailChunk
    ensures Leads(st0, st')
    ensures var c := st.userPc.chunk;
            st' == st.(next := st.next[c := -1][st.tailChunk := c],
                       progress := st.progress[c := Progress(0, false, false)],
                       refCounts := st.refCounts[c := 1], tailChunk := c, supplied := st.supplied + [c],
                       kernelNotify := true, userPc := Top)
  {
    var s1 := Next(st, User);
    Then(st0, st, User);
    var s2 := Next(s1, User);
    Then(st0, s1, User);
    st' := Next(s2, User);
    Then(st0, s2, User);
  }

  // ---- A chunk size that is not roomy ----

  function Blank(words: nat): Element { Element(0, seq(words, _ => 0)) }

  /**
   With two chunks of 56 bytes: the owner holds the only element of chunk 1 when the
   kernel comes back to chunk 0, whose second element reaches into chunk 1.
   */
  lemma OverrunHitsHandle() returns (st: State)
    ensures Leads(Constructed(56, 2), st) && IsChunk(st, 1) && st.handles[1] == [Handle(0, Blank(5))]
    ensures 0 !in st.data[1]
  {
    var st0 := Constructed(56, 2);
    Stay(st0);
    var s := FirstChunkRecycled(st0);
    s := MoveOn(st0, s, Blank(1));
    s := Fill(st0, s);
    var s' := Next(s, Submit(Blank(4)));
    Then(st0, s, Submit(Blank(4)));
    st := Next(s', Kernel);
    Then(st0, s', Kernel);
  }

  lemma FirstChunkDone(st0: State) returns (s: State)
    requires st0 == Constructed(56, 2)
    ensures Leads(st0, s) && s.chunkSize == 56 && IsChunk(s, 1) && |s.next| == 2
    ensures s.userPc == Outside && s.runQueue == 0 && s.userNotify.cqProgress
    ensures s.retrieveChunk == 0 && s.lastProgress == 56
    ensures s.kernelPc == KIdle && s.currentChunk == 1 && s.currentProgress == 56
    ensures s.next[0] == 1 && s.tailChunk == 1 && s.refCounts[0] == 1 && s.handles[1] == []
    ensures s.progress[0] == Progress(56, true, true) && s.progress[1].count == 56
    ensures 0 in s.data[1] && s.data[1][0] == Blank(5)
  {
    Stay(st0);
    var e := Blank(5);
    s := Next(st0, Submit(e));
    Then(st0, st0, Submit(e));
    s := Fill(st0, s);
    s := Receive(st0, s, e);
    var s' := Next(s, Drop(0, 0));
    Then(st0, s, Drop(0, 0));
    s := MoveOn(st0, s', e);
    s := Fill(st0, s);
  }

  lemma FirstChunkRecycled(st0: State) returns (s: State)
    requires st0 == Constructed(56, 2)
    ensures Leads(st0, s) && s.chunkSize == 56 && s.kernelPc == KIdle && s.currentChunk == 1 && s.currentProgress == 56
    ensures |s.next| == |s.progress| == |s.data| == |s.refCounts| == |s.handles| == 2 && s.next[1] == 0
    ensures s.handles[1] == [Handle(0, Blank(5))]
  {
    var e := Blank(5);
    s := FirstChunkDone(st0);
    s := Leave(st0, s);
    s := Recycle(st0, s);
    s := Receive(st0, s, e);
  }

  // ---- The assertion on the full flag ----

  /** The element that takes up a whole chunk. */
  function Filler(chunkSize: nat): Element
    requires chunkSize >= 24
  {
    Blank(chunkSize / 8 - 2)
  }

  /** The owner holds a handle on each of the chunks up to k, which are all full; the others are untouched. */
  ghost predicate Pinned(st: State, n: nat, k: nat) {
    && k < n && IsChunk(st, k) && |st.next| == n && 24 <= st.chunkSize < MASK
    && st.userPc == Outside && st.kernelPc == KIdle && st.userNotify.cqProgress && st.runQueue == 0
    && st.retrieveChunk == st.currentChunk == k && st.tailChunk == n - 1
    && st.currentProgress == st.lastProgress == Size(Filler(st.chunkSize))
    && st.progress[k].count == st.lastProgress && st.refCounts[k] > 1
    && (forall c :: k <= c < n ==> st.next[c] == if c + 1 < n then c + 1 else -1)
    && (forall c :: 0 <= c <= k ==> st.handles[c] != []) && (forall c :: k < c < n ==> st.refCounts[c] == 1)
  }

  lemma FillerFits(chunkSize: nat)
    requires 24 <= chunkSize < MASK
    ensures Size(Filler(chunkSize)) == chunkSize / 8 * 8 && ValidSize(chunkSize, Filler(chunkSize))
    ensures Overrun(chunkSize, 0, Filler(chunkSize)) == 0
    ensures Size(Filler(chunkSize)) + Length(Filler(chunkSize)) > chunkSize
  {
  }

  lemma PinFirst(st0: State, n: nat) returns (st: State)
    requires n > 0 && 24 <= st0.chunkSize < MASK && Initial(st0, n)
    ensures Leads(st0, st) && Pinned(st, n, 0) && st.chunkSize == st0.chunkSize
  {
    Stay(st0);
    FillerFits(st0.chunkSize);
    var e := Filler(st0.chunkSize);
    var s := Next(st0, Submit(e));
    Then(st0, st0, Submit(e));
    s := Fill(st0, s);
    st := Receive(st0, s, e);
  }

  lemma PinNext(st0: State, st: State, n: nat, k: nat) returns (st': State)
    requires Leads(st0, st) && Pinned(st, n, k) && k + 1 < n && st.chunkSize == st0.chunkSize
    ensures Leads(st0, st') && Pinned(st', n, k + 1) && st'.chunkSize == st0.chunkSize
  {
    FillerFits(st0.chunkSize);
    var e := Filler(st0.chunkSize);
    var s := MoveOn(st0, st, e);
    s := Fill(st0, s);
    s := Leave(st0, s);
    st' := Receive(st0, s, e);
  }

  lemma {:induction false} PinAll(st0: State, n: nat, k: nat) returns (st: State)
    requires k < n && 24 <= st0.chunkSize < MASK && Initial(st0, n)
    ensures Leads(st0, st) && Pinned(st, n, k) && st.chunkSize == st0.chunkSize
    decreases k
  {
    if k == 0 {
      st := PinFirst(st0, n);
    } else {
      var s := PinAll(st0, n, k - 1);
      st := PinNext(st0, s, n, k - 1);
    }
  }

  /** The owner asserts that a full chunk is not the tail; it is when all chunks are pinned. */
  lemma TailCanBeFull(st0: State, n: nat) returns (st: State)
    requires n > 0 && 24 <= st0.chunkSize < MASK && Initial(st0, n)
    ensures Leads(st0, st) && st.userPc.Check? && IsChunk(st, st.retrieveChunk)
    ensures st.progress[st.retrieveChunk].full && st.retrieveChunk == st.tailChunk
  {
    var s := PinAll(st0, n, n - 1);
    FillerFits(st0.chunkSize);
    s := MarkFull(st0, s, Filler(st0.chunkSize));
    st := Look(st0, s);
  }

  /** So the assertion fails with the eight chunks of 4096 bytes of helix::Dispatcher. */
  lemma FullAssertionCanFail() returns (st: State)
    ensures Leads(Constructed(4096, 8), st) && st.userPc.Check? && IsChunk(st, st.retrieveChunk)
    ensures st.progress[st.retrieveChunk].full && st.retrieveChunk == st.tailChunk
  {
    ConstructedIsInitial(4096, 8);
    st := TailCanBeFull(Constructed(4096, 8), 8);
  }
}

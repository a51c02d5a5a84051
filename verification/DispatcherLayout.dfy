/** Where the elements of a completion queue lie, and for which chunk sizes they stay in their chunks. */
module DispatcherLayout {
  import opened Dispatcher

  // ---- Offsets ----

  /** The bytes that the elements of a chunk take up. */
  function Bytes(items: seq<Element>): nat {
    if items == [] then 0 else Bytes(items[..|items| - 1]) + Size(items[|items| - 1])
  }

  lemma BytesAppend(items: seq<Element>, e: Element)
    ensures Bytes(items + [e]) == Bytes(items) + Size(e)
  {
    assert (items + [e])[..|items|] == items;
  }

  lemma BytesOne(items: seq<Element>, k: nat)
    requires k < |items|
    ensures Bytes(items[..k + 1]) == Bytes(items[..k]) + Size(items[k])
  {
    assert items[..k + 1] == items[..k] + [items[k]];
    BytesAppend(items[..k], items[k]);
  }

  /** An element ends before the next one begins. */
  lemma {:induction false} BytesGrow(items: seq<Element>, j: nat, k: nat)
    requires j < k <= |items|
    ensures Bytes(items[..j]) + Size(items[j]) <= Bytes(items[..k])
    decreases k
  {
    BytesOne(items, k - 1);
    if j + 1 < k {
      BytesGrow(items, j, k - 1);
    }
  }

  lemma BytesPrefix(items: seq<Element>, k: nat)
    requires k <= |items|
    ensures Bytes(items[..k]) <= Bytes(items)
    ensures Bytes(items[..k]) == Bytes(items) <==> k == |items|
  {
    assert items[..|items|] == items;
    if k < |items| { BytesGrow(items, k, |items|); }
  }

  // ---- What submit() checks ----

  /** The kernel's progress and the element of a submission, between the size test and the end of the submission. */
  predicate SizeInv(chunkSize: nat, currentProgress: nat, pc: KernelPc, element: Element) {
    && currentProgress % 8 == 0 && currentProgress <= Limit(chunkSize)
    && (!pc.KIdle? ==> Length(element) <= chunkSize)
    && (pc.KNotifyDone? ==> currentProgress == 0)
    && (pc.KWrite? || pc.KStoreProgress? ==> currentProgress + Length(element) <= chunkSize)
  }

  /** The most that progress can reach: the size test leaves out the header of the element. */
  function Limit(chunkSize: nat): nat { chunkSize - chunkSize % 8 + ELEMENT_HEADER }

  ghost predicate SizesOk(st: State) { SizeInv(st.chunkSize, st.currentProgress, st.kernelPc, st.element) }

  /** Only its own steps change what is private to the kernel. */
  lemma OthersKeepKernel(st: State, step: Step)
    requires Enabled(st, step) && !step.Kernel? && !step.Submit?
    ensures var st' := Next(st, step);
            && st'.chunkSize == st.chunkSize && st'.currentProgress == st.currentProgress
            && st'.kernelPc == st.kernelPc && st'.element == st.element && st'.log == st.log
  {
    if step.User? {
      assert StepUser(st).chunkSize == st.chunkSize && StepUser(st).currentProgress == st.currentProgress
             && StepUser(st).kernelPc == st.kernelPc && StepUser(st).element == st.element
             && StepUser(st).log == st.log;
    }
  }

  lemma KernelSizes(st: State, st': State)
    requires Enabled(st, Kernel) && st' == StepKernel(st)
    ensures st'.chunkSize == st.chunkSize && st'.element == st.element
    ensures st'.currentProgress == if st.kernelPc.KStoreDone? then 0
                                   else if st.kernelPc.KStoreProgress? then st.currentProgress + Size(st.element)
                                   else st.currentProgress
    ensures st'.kernelPc.KWrite? ==> st.kernelPc.KNotifyDone?
    ensures st'.kernelPc.KStoreProgress? ==> st.kernelPc.KWrite?
    ensures st'.kernelPc.KNotifyDone? ==> st.kernelPc.KStoreDone?
  {
    if st.kernelPc.KWrite? { WriteTouches(st); }
  }

  /** Writing an element changes memory only. */
  lemma WriteTouches(st: State)
    requires IsChunk(st, st.currentChunk)
    ensures var st' := WriteElement(st); st' == st.(next := st'.next, progress := st'.progress, data := st'.data)
  {
  }

  lemma ProgressStays(chunkSize: nat, p: nat, e: Element)
    requires p % 8 == 0 && p + Length(e) <= chunkSize
    ensures (p + Size(e)) % 8 == 0 && p + Size(e) <= Limit(chunkSize)
  {
  }

  lemma KernelKeepsSizes(st: State)
    requires Enabled(st, Kernel) && SizesOk(st)
    ensures SizesOk(StepKernel(st)) && StepKernel(st).chunkSize == st.chunkSize
  {
    KernelSizes(st, StepKernel(st));
    if st.kernelPc.KStoreProgress? { ProgressStays(st.chunkSize, st.currentProgress, st.element); }
  }

  lemma KeepSizes(st: State, step: Step)
    requires Enabled(st, step) && SizesOk(st)
    ensures SizesOk(Next(st, step)) && Next(st, step).chunkSize == st.chunkSize
  {
    if step.Kernel? {
      KernelKeepsSizes(st);
    } else if !step.Submit? {
      OthersKeepKernel(st, step);
    }
  }

  lemma {:induction false} RunKeepsSizes(st: State, steps: seq<Step>)
    requires SizesOk(st) && IsRun(st, steps)
    ensures SizesOk(After(st, steps)) && After(st, steps).chunkSize == st.chunkSize
    decreases |steps|
  {
    if steps != [] {
      KeepSizes(st, steps[0]);
      RunKeepsSizes(Next(st, steps[0]), steps[1..]);
    }
  }

  // ---- The right chunk sizes ----

  /** The room behind the buffer takes the header that the size test leaves out. */
  predicate Roomy(chunkSize: nat) { !(48 <= chunkSize % 64 <= 56) }

  /** The progress fits its 24 bits. */
  predicate Countable(chunkSize: nat) { Limit(chunkSize) < MASK }

  lemma NoOverrun(chunkSize: nat, p: nat, e: Element)
    requires Roomy(chunkSize) && p % 8 == 0 && p + Length(e) <= chunkSize
    ensures Overrun(chunkSize, p, e) == 0
  {
    RoomAtEnd(chunkSize / 64, chunkSize % 64, p / 8 + |e.payload|);
  }

  lemma StrideOf(q: nat, r: nat)
    requires r < 64
    ensures Stride(64 * q + r) == 64 * q + (if r <= 56 then 64 else 128)
  {
    var n := CHUNK_HEADER + (64 * q + r) + 63;
    assert n == 64 * (q + 1) + (r + 7);
  }

  /** A multiple of 8 within the chunk leaves room for the headers. */
  lemma RoomAtEnd(q: nat, r: nat, m: nat)
    requires r < 64 && !(48 <= r <= 56) && 8 * m <= 64 * q + r
    ensures CHUNK_HEADER + 8 * m + ELEMENT_HEADER <= Stride(64 * q + r)
  {
    StrideOf(q, r);
  }

  lemma FieldsOfSmall(n: nat)
    requires n < MASK
    ensures Fields(n) == Progress(n, false, false)
  {
  }

  lemma FieldsOfLarge(n: nat)
    requires n >= MASK
    ensures Fields(n) != Progress(n, false, false)
  {
  }

  /** With the sizes of helix::Dispatcher everything stays in its place. */
  lemma HelixSizes()
    ensures Roomy(4096) && Countable(4096)
  {
  }

  /** validSize(): what the system calls check before they submit. */
  predicate ValidSize(chunkSize: nat, e: Element) { Size(e) <= chunkSize }
}

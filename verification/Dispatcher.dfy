/**
 The completion queue between the kernel and helix::Dispatcher as a state machine.

 The user side is Dispatcher of hel/include/helix/ipc.hpp, driven by its owner thread;
 the kernel side is IpcQueue::submit() of kernel/thor/generic/ipc-queue.cpp, one
 submission at a time under its mutex; wakers are threads that post to the run queue.
 A step is one access to shared memory (sequentially consistent); assignments to fields
 that only one side reads are folded into a neighbouring step of that side.

 Progress counts bytes. A chunk is a header word (next and progressFutex) and a buffer;
 chunks follow each other at the distance that both sides compute from chunkSize, and an
 element that is written past the end of its chunk lands in the chunk behind it. All
 offsets are multiples of 8, so memory is divided into 64-bit words.
 */
module Dispatcher {

  // ---- Chunks ----

  /** What a completion carries: its context and the words of its payload. */
  datatype Element = Element(context: nat, payload: seq<nat>)

  const CHUNK_HEADER: nat := 8    // sizeof(ChunkStruct)
  const ELEMENT_HEADER: nat := 16 // sizeof(ElementStruct)

  /** The length of the payload, each of its sources rounded up to 8 bytes. */
  function Length(e: Element): nat { 8 * |e.payload| }

  function Size(e: Element): nat { ELEMENT_HEADER + Length(e) }

  /** An element in memory: the length word (the opcode in its upper half is 0), the context, the payload. */
  function Words(e: Element): seq<nat> { [Length(e), e.context] + e.payload }

  /** reservedPerChunk: the distance between two chunks. */
  function Stride(chunkSize: nat): nat { (CHUNK_HEADER + chunkSize + 63) / 64 * 64 }

  /** The bytes of an element at offset p that do not fit its chunk's part of the memory. */
  function Overrun(chunkSize: nat, p: nat, e: Element): nat {
    var end := CHUNK_HEADER + p + Size(e);
    if end > Stride(chunkSize) then end - Stride(chunkSize) else 0
  }

  /** progressFutex: the number of valid bytes and the two flags. */
  datatype Progress = Progress(count: nat, full: bool, done: bool)

  const MASK: nat := 0x100_0000 // kProgressMask + 1

  /** The fields of a progress word, with kProgressDone at bit 25 and kProgressFull at bit 26. */
  function Fields(word: nat): Progress { Progress(word % MASK, word / (4 * MASK) % 2 == 1, word / (2 * MASK) % 2 == 1) }

  /** Storing n with its flags: bits of n that reach the flags are or-ed into them. */
  function ProgressWord(n: nat, full: bool, done: bool): Progress {
    Progress(Fields(n).count, full || Fields(n).full, done || Fields(n).done)
  }

  /** The chunk number in a next word, or -1 if kNextPresent (bit 24) is not set. */
  function NextOf(word: nat): int { if word / MASK % 2 == 1 then word - MASK else -1 }

  /** The elements that lie in a buffer, by offset. */
  type Buffer = map<nat, Element>

  /** Overwriting the bytes between two offsets destroys the elements there. */
  function Overwrite(data: Buffer, from: nat, to: nat): Buffer {
    map p | p in data && (p + Size(data[p]) <= from || to <= p) :: data[p]
  }

  /** The word of an element that lands in the header of the next chunk. */
  function Spilled(e: Element, overrun: nat): nat {
    var k := overrun / 8;
    if 0 < k <= |Words(e)| then Words(e)[|Words(e)| - k] else 0
  }

  /** A live ElementHandle: where its element lies and what was there when it was made. */
  datatype Handle = Handle(offset: nat, element: Element)

  /** The bits of userNotify that _waitProgressFutex() looks at. */
  datatype Notify = Notify(cqProgress: bool, alert: bool) {
    predicate Any() { cqProgress || alert }
    function Or(other: Notify): Notify { Notify(cqProgress || other.cqProgress, alert || other.alert) }
    function Without(other: Notify): Notify { Notify(cqProgress && !other.cqProgress, alert && !other.alert) }
  }

  const NONE := Notify(false, false)

  /** Where the owner thread is: outside wait(), or before which access to shared memory. */
  datatype UserPc =
    | Outside
    | Top
    | LoadNotify
    | Check(notify: Notify)
    | Clear(toClear: Notify)
    | CheckRunQueue
    | Sleep
    | RetireChunk
    | ResetChunk(chunk: nat, inWait: bool)
    | SupplyChunk(chunk: nat, inWait: bool)
    | SignalSupply(inWait: bool)

  datatype KernelPc =
    | KIdle
    | KStoreFull
    | KNotifyFull
    | KLoadNext
    | KCheckSupply
    | KSleep
    | KStoreDone(next: nat)
    | KNotifyDone
    | KWrite
    | KStoreProgress
    | KNotify

  /**
   The size of the chunks, shared memory, the fields of the dispatcher, the fields of the
   IpcQueue, the wakers, and history that no step reads: all chunks in the order in which
   they were supplied, the positions of both sides in it, the elements of each supplied
   chunk, how many of them the user has consumed in its chunk, and what it has received.
   */
  datatype State = State(
    chunkSize: nat, next: seq<int>, progress: seq<Progress>, data: seq<Buffer>,
    userNotify: Notify, kernelNotify: bool,
    userPc: UserPc, pending: Notify, retrieveChunk: nat, tailChunk: nat, lastProgress: nat,
    refCounts: seq<int>, handles: seq<seq<Handle>>,
    kernelPc: KernelPc, currentChunk: nat, currentProgress: nat, element: Element,
    runQueue: nat, wakers: nat,
    supplied: seq<nat>, userAt: nat, kernelAt: nat, log: seq<seq<Element>>, consumed: nat, received: seq<Element>)

  datatype Step =
    | Wait                            // the owner calls wait()
    | Copy(chunk: nat, k: nat)        // ElementHandle's copy constructor
    | Drop(chunk: nat, k: nat)        // ElementHandle's destructor
    | RunIteration(items: nat)
    | User                            // the owner's next access
    | SpuriousWake                    // helDriveQueue() is cancelled
    | Submit(element: Element)
    | Kernel                          // the submission's next access
    | Post(alerts: bool)              // a thread posts to the run queue ...
    | Alert                           // ... and calls helAlertQueue()

  predicate IsChunk(st: State, c: nat) {
    c < |st.next| == |st.progress| == |st.data| == |st.refCounts| == |st.handles|
  }

  ghost predicate Enabled(st: State, step: Step) {
    match step
    case Wait => st.userPc.Outside?
    case Copy(c, k) => st.userPc.Outside? && IsChunk(st, c) && k < |st.handles[c]|
    case Drop(c, k) => st.userPc.Outside? && IsChunk(st, c) && k < |st.handles[c]|
    case RunIteration(items) => st.userPc.Top? && 0 < items <= st.runQueue
    case User =>
      && !st.userPc.Outside? && IsChunk(st, st.retrieveChunk) && IsChunk(st, st.tailChunk)
      && (st.userPc.Top? ==> st.runQueue == 0)
      && (st.userPc.Sleep? ==> st.userNotify.Any())
      && (st.userPc.ResetChunk? ==> IsChunk(st, st.userPc.chunk))
      && (st.userPc.SupplyChunk? ==> IsChunk(st, st.userPc.chunk))
    case SpuriousWake => st.userPc.Sleep?
    case Submit(element) => st.kernelPc.KIdle? && Length(element) <= st.chunkSize
    case Kernel =>
      && !st.kernelPc.KIdle? && IsChunk(st, st.currentChunk)
      && (st.kernelPc.KSleep? ==> st.kernelNotify)
    case Post(alerts) => st.runQueue == 0 ==> alerts
    case Alert => st.wakers > 0
  }

  // ---- The owner thread ----

  /** Where an owner thread goes on after _surrender(). */
  function Resume(inWait: bool): UserPc { if inWait then Top else Outside }

  /** _surrender(): give back one reference; the last one resets and supplies the chunk. */
  function Surrender(st: State, c: nat, inWait: bool): State
    requires IsChunk(st, c)
  {
    var st' := st.(refCounts := st.refCounts[c := st.refCounts[c] - 1]);
    if st.refCounts[c] > 1 then st'.(userPc := Resume(inWait)) else st'.(userPc := ResetChunk(c, inWait))
  }

  /** One iteration of the loop of _waitProgressFutex() up to its next shared access. */
  function StepCheck(st: State, notify: Notify): State
    requires IsChunk(st, st.retrieveChunk)
  {
    var pending := st.pending.Or(notify);
    var progress := st.progress[st.retrieveChunk];
    if pending.cqProgress && st.lastProgress != progress.count then Dequeue(st.(pending := pending))
    else if pending.cqProgress && progress.done then st.(pending := pending, userPc := RetireChunk)
    else st.(pending := NONE, userPc := if notify.Any() then Clear(notify) else CheckRunQueue)
  }

  /** The element is handed to its context: wait() 281-289. */
  function Dequeue(st: State): State
    requires IsChunk(st, st.retrieveChunk)
  {
    var c := st.retrieveChunk;
    var element := if st.lastProgress in st.data[c] then st.data[c][st.lastProgress] else Element(0, []);
    st.(lastProgress := st.lastProgress + Size(element), consumed := st.consumed + 1,
        refCounts := st.refCounts[c := st.refCounts[c] + 1],
        handles := st.handles[c := st.handles[c] + [Handle(st.lastProgress, element)]],
        received := st.received + [element], userPc := Outside)
  }

  function StepUser(st: State): State
    requires IsChunk(st, st.retrieveChunk) && IsChunk(st, st.tailChunk) && !st.userPc.Outside?
    requires st.userPc.ResetChunk? || st.userPc.SupplyChunk? ==> IsChunk(st, st.userPc.chunk)
  {
    match st.userPc
    case Top => st.(userPc := LoadNotify)
    case LoadNotify => st.(userPc := Check(st.userNotify))
    case Check(notify) => StepCheck(st, notify)
    case Clear(toClear) => st.(userNotify := st.userNotify.Without(toClear), userPc := Check(st.userNotify))
    case CheckRunQueue => st.(userPc := if st.runQueue > 0 then Top else Sleep)
    case Sleep => st.(userPc := LoadNotify)
    case RetireChunk =>
      var c := st.retrieveChunk;
      var next := if st.next[c] >= 0 then st.next[c] else 0;
      Surrender(st.(retrieveChunk := next, lastProgress := 0, userAt := st.userAt + 1, consumed := 0), c, true)
    case ResetChunk(c, inWait) =>
      st.(next := st.next[c := -1], progress := st.progress[c := Progress(0, false, false)],
          refCounts := st.refCounts[c := 1], userPc := SupplyChunk(c, inWait))
    case SupplyChunk(c, inWait) =>
      st.(next := st.next[st.tailChunk := c], tailChunk := c, supplied := st.supplied + [c],
          userPc := SignalSupply(inWait))
    case SignalSupply(inWait) => st.(kernelNotify := true, userPc := Resume(inWait))
  }

  // ---- The kernel ----

  /** Header and payload of the element are copied behind the progress of the kernel's chunk. */
  function WriteElement(st: State): State
    requires IsChunk(st, st.currentChunk)
  {
    var c, p, e := st.currentChunk, st.currentProgress, st.element;
    var overrun := Overrun(st.chunkSize, p, e);
    var data := st.data[c := Overwrite(st.data[c], p, p + Size(e))[p := e]];
    if overrun == 0 || c + 1 >= |st.next| then st.(data := data)
    else
      var word := Spilled(e, overrun);
      st.(next := st.next[c + 1 := NextOf(word % 0x1_0000_0000)],
          progress := st.progress[c + 1 := Fields(word / 0x1_0000_0000)],
          data := data[c + 1 := Overwrite(data[c + 1], 0,
                                          if overrun > CHUNK_HEADER then overrun - CHUNK_HEADER else 0)])
  }

  function StepKernel(st: State): State
    requires IsChunk(st, st.currentChunk) && !st.kernelPc.KIdle?
  {
    var c := st.currentChunk;
    var n: nat := st.currentProgress;
    match st.kernelPc
    case KStoreFull => st.(progress := st.progress[c := ProgressWord(n, true, false)], kernelPc := KNotifyFull)
    case KNotifyFull => st.(userNotify := st.userNotify.(cqProgress := true), kernelPc := KLoadNext)
    case KLoadNext => st.(kernelPc := if st.next[c] >= 0 then KStoreDone(st.next[c]) else KCheckSupply)
    case KCheckSupply =>
      if st.kernelNotify then st.(kernelNotify := false, kernelPc := KLoadNext) else st.(kernelPc := KSleep)
    case KSleep => st.(kernelPc := KLoadNext)
    case KStoreDone(next) =>
      st.(progress := st.progress[c := ProgressWord(n, true, true)], currentChunk := next, currentProgress := 0,
          kernelAt := st.kernelAt + 1, log := st.log + [[]], kernelPc := KNotifyDone)
    case KNotifyDone => st.(userNotify := st.userNotify.(cqProgress := true), kernelPc := KWrite)
    case KWrite => WriteElement(st).(kernelPc := KStoreProgress)
    case KStoreProgress =>
      var n' := n + Size(st.element);
      st.(progress := st.progress[c := ProgressWord(n', false, false)], currentProgress := n',
          log := if |st.log| > 0 then st.log[|st.log| - 1 := st.log[|st.log| - 1] + [st.element]] else st.log,
          kernelPc := KNotify)
    case KNotify => st.(userNotify := st.userNotify.(cqProgress := true), kernelPc := KIdle)
  }

  ghost function Next(st: State, step: Step): State
    requires Enabled(st, step)
  {
    match step
    case Wait => st.(userPc := Top)
    case Copy(c, k) =>
      st.(refCounts := st.refCounts[c := st.refCounts[c] + 1],
          handles := st.handles[c := st.handles[c] + [st.handles[c][k]]])
    case Drop(c, k) =>
      Surrender(st.(handles := st.handles[c := st.handles[c][..k] + st.handles[c][k + 1..]]), c, false)
    case RunIteration(items) => st.(runQueue := st.runQueue - items, userPc := Outside)
    case User => StepUser(st)
    case SpuriousWake => st.(userPc := LoadNotify)
    case Submit(element) =>
      var fits := st.currentProgress + Length(element) <= st.chunkSize;
      st.(element := element, kernelPc := if fits then KWrite else KStoreFull)
    case Kernel => StepKernel(st)
    case Post(alerts) => st.(runQueue := st.runQueue + 1, wakers := st.wakers + if alerts then 1 else 0)
    case Alert => st.(userNotify := st.userNotify.(alert := true), wakers := st.wakers - 1)
  }

  // ---- Runs ----

  /** After the constructor: chunks 0, 1, ..., n - 1 are linked in this order. */
  ghost predicate Initial(st: State, n: nat) {
    && 0 < n && |st.next| == |st.progress| == |st.data| == |st.refCounts| == |st.handles| == n == |st.supplied|
    && (forall c :: 0 <= c < n ==>
          && st.next[c] == (if c + 1 < n then c + 1 else -1) && st.progress[c] == Progress(0, false, false)
          && st.refCounts[c] == 1 && st.handles[c] == [] && st.supplied[c] == c)
    && st.userNotify == NONE && st.userPc == Outside && st.pending == NONE
    && st.retrieveChunk == 0 && st.tailChunk == n - 1 && st.lastProgress == 0
    && st.kernelPc == KIdle && st.currentChunk == 0 && st.currentProgress == 0
    && st.runQueue == 0 && st.wakers == 0
    && st.userAt == 0 && st.kernelAt == 0 && st.log == [[]] && st.consumed == 0 && st.received == []
  }

  ghost predicate IsRun(st: State, steps: seq<Step>)
    decreases |steps|
  {
    steps != [] ==> Enabled(st, steps[0]) && IsRun(Next(st, steps[0]), steps[1..])
  }

  ghost function After(st: State, steps: seq<Step>): State
    requires IsRun(st, steps)
    decreases |steps|
  {
    if steps == [] then st else After(Next(st, steps[0]), steps[1..])
  }

  /** All elements of a sequence of chunks, in order. */
  ghost function Flatten(log: seq<seq<Element>>): seq<Element> {
    if log == [] then [] else Flatten(log[..|log| - 1]) + log[|log| - 1]
  }
}

/** The completion queue loses no wakeup, no element and no chunk. */
module DispatcherProofs {
  import opened Dispatcher
  import opened DispatcherLayout

  // ---- Chunks ----

  /** Chunk c is in the supply history at or after position `from`. */
  ghost predicate IsSupplied(supplied: seq<nat>, from: nat, c: nat) {
    exists i :: from <= i < |supplied| && supplied[i] == c
  }

  ghost predicate Distinct(supplied: seq<nat>, from: nat) {
    forall i, j :: from <= i < j < |supplied| ==> supplied[i] != supplied[j]
  }

  predicate LinkOk(next: seq<int>, supplied: seq<nat>, i: nat) {
    && i < |supplied| && supplied[i] < |next|
    && next[supplied[i]] == (if i + 1 < |supplied| then supplied[i + 1] else -1)
  }

  /** From position `from` on, the chunks are linked in the order of the supply history. */
  ghost predicate Linked(next: seq<int>, supplied: seq<nat>, from: nat) {
    forall i: nat {:trigger LinkOk(next, supplied, i)} :: from <= i < |supplied| ==> LinkOk(next, supplied, i)
  }

  /** The full flag is set while the submission waits for the next chunk. */
  predicate WaitsForChunk(pc: KernelPc) {
    pc.KNotifyFull? || pc.KLoadNext? || pc.KCheckSupply? || pc.KSleep? || pc.KStoreDone?
  }

  /** What the kernel has stored for position i when it is at position |log| - 1. */
  function Expected(log: seq<seq<Element>>, waits: bool, i: nat): Progress {
    if i + 1 < |log| then Progress(Bytes(log[i]), true, true)
    else if i + 1 == |log| then Progress(Bytes(log[i]), waits, false)
    else Progress(0, false, false)
  }

  ghost predicate Stored(progress: seq<Progress>, supplied: seq<nat>, from: nat, log: seq<seq<Element>>, waits: bool) {
    forall i :: from <= i < |supplied| ==> supplied[i] < |progress| && progress[supplied[i]] == Expected(log, waits, i)
  }

  predicate HasAt(data: Buffer, items: seq<Element>, k: nat)
    requires k < |items|
  {
    Bytes(items[..k]) in data && data[Bytes(items[..k])] == items[k]
  }

  /** The elements lie one behind the other. */
  ghost predicate Holds(data: Buffer, items: seq<Element>) {
    forall k: nat {:trigger HasAt(data, items, k)} :: k < |items| ==> HasAt(data, items, k)
  }

  ghost predicate Written(data: seq<Buffer>, supplied: seq<nat>, from: nat, log: seq<seq<Element>>) {
    forall i :: from <= i < |log| ==> i < |supplied| && supplied[i] < |data| && Holds(data[supplied[i]], log[i])
  }

  ghost predicate ShapeInv(st: State) {
    && IsChunk(st, st.retrieveChunk) && IsChunk(st, st.tailChunk) && IsChunk(st, st.currentChunk)
    && st.userAt <= st.kernelAt < |st.supplied| && |st.log| == st.kernelAt + 1
    && st.retrieveChunk == st.supplied[st.userAt] && st.currentChunk == st.supplied[st.kernelAt]
    && st.tailChunk == st.supplied[|st.supplied| - 1]
    && st.currentProgress == Bytes(st.log[st.kernelAt])
    && st.consumed <= |st.log[st.userAt]| && st.lastProgress == Bytes(st.log[st.userAt][..st.consumed])
    && Roomy(st.chunkSize) && Countable(st.chunkSize) && SizesOk(st)
    && (st.userPc.ResetChunk? || st.userPc.SupplyChunk? ==> IsChunk(st, st.userPc.chunk))
    && (st.kernelPc.KStoreDone? ==> st.kernelAt + 1 < |st.supplied| && st.kernelPc.next == st.supplied[st.kernelAt + 1])
  }

  ghost predicate QueueInv(st: State) {
    && Distinct(st.supplied, st.userAt) && Linked(st.next, st.supplied, st.userAt)
    && Stored(st.progress, st.supplied, st.userAt, st.log, WaitsForChunk(st.kernelPc))
    && Written(st.data, st.supplied, st.userAt, st.log)
    && (st.kernelPc.KStoreProgress? ==>
          && st.currentChunk < |st.data| && st.currentProgress in st.data[st.currentChunk]
          && st.data[st.currentChunk][st.currentProgress] == st.element)
  }

  // ---- References ----

  /** The owner thread is between dropping the last reference and supplying the chunk. */
  predicate Recycles(pc: UserPc, c: nat) {
    (pc.ResetChunk? && pc.chunk == c) || (pc.SupplyChunk? && pc.chunk == c)
  }

  /** References of a chunk: its handles, and one more while it is supplied. */
  ghost predicate RefOk(st: State, c: nat)
    requires IsChunk(st, c)
  {
    if IsSupplied(st.supplied, st.userAt, c) then
      !Recycles(st.userPc, c) && st.refCounts[c] == |st.handles[c]| + 1
    else if Recycles(st.userPc, c) then
      && st.handles[c] == []
      && (st.userPc.ResetChunk? ==> st.refCounts[c] == 0)
      && (st.userPc.SupplyChunk? ==>
            st.refCounts[c] == 1 && st.next[c] == -1 && st.progress[c] == Progress(0, false, false))
    else
      st.refCounts[c] == |st.handles[c]| > 0
  }

  ghost predicate RefInv(st: State) {
    forall c {:trigger RefOk(st, c)} :: IsChunk(st, c) ==> RefOk(st, c)
  }

  /** The data of a handle is still what it was when the handle was made. */
  predicate Intact(h: Handle, data: Buffer) { h.offset in data && data[h.offset] == h.element }

  ghost predicate AllIntact(handles: seq<Handle>, data: Buffer) {
    forall k :: 0 <= k < |handles| ==> Intact(handles[k], data)
  }

  ghost predicate Below(handles: seq<Handle>, limit: nat) {
    forall k :: 0 <= k < |handles| ==> handles[k].offset + Size(handles[k].element) <= limit
  }

  ghost predicate EveryHandleIntact(handles: seq<seq<Handle>>, data: seq<Buffer>) {
    forall c :: 0 <= c < |handles| ==> c < |data| && AllIntact(handles[c], data[c])
  }

  /** Chunks that the user has not reached have no handles. */
  ghost predicate Untouched(handles: seq<seq<Handle>>, supplied: seq<nat>, userAt: nat) {
    forall i :: userAt < i < |supplied| ==> supplied[i] < |handles| && handles[supplied[i]] == []
  }

  ghost predicate HandleInv(st: State) {
    && EveryHandleIntact(st.handles, st.data) && Untouched(st.handles, st.supplied, st.userAt)
    && st.retrieveChunk < |st.handles| && Below(st.handles[st.retrieveChunk], st.lastProgress)
  }

  /** All elements before position `at`, and n more. */
  ghost predicate IsPrefix(received: seq<Element>, log: seq<seq<Element>>, at: nat, n: nat) {
    at < |log| && n <= |log[at]| && received == Flatten(log[..at]) + log[at][..n]
  }

  /** What the user has received is a prefix of what was submitted. */
  ghost predicate ReceivedInv(st: State) {
    IsPrefix(st.received, st.log, st.userAt, st.consumed)
  }

  // ---- Notifications ----

  /** There is something for the user to do with its chunk. */
  predicate CqPending(st: State)
    requires IsChunk(st, st.retrieveChunk)
  {
    st.lastProgress != st.progress[st.retrieveChunk].count || st.progress[st.retrieveChunk].done
  }

  /** The kernel has stored progress and is about to set the notify bit. */
  predicate NotifyInFlight(pc: KernelPc) { pc.KNotifyFull? || pc.KNotifyDone? || pc.KNotify? }

  predicate Noticed(pc: UserPc) { pc.Check? && pc.notify.cqProgress }

  predicate LooksForSupply(pc: KernelPc) { pc.KCheckSupply? || pc.KSleep? }

  ghost predicate WakeInv(st: State)
    requires IsChunk(st, st.retrieveChunk) && IsChunk(st, st.currentChunk)
  {
    && (CqPending(st) ==>
          st.userNotify.cqProgress || st.pending.cqProgress || Noticed(st.userPc) || NotifyInFlight(st.kernelPc))
    && (st.userPc.Clear? || st.userPc.CheckRunQueue? || st.userPc.Sleep? ==> st.pending == NONE)
    && (st.userPc.Sleep? && st.runQueue > 0 ==> st.userNotify.alert || st.wakers > 0)
    && (st.userPc.RetireChunk? ==>
          && st.pending.cqProgress && st.progress[st.retrieveChunk].done
          && st.lastProgress == st.progress[st.retrieveChunk].count)
    && (LooksForSupply(st.kernelPc) && st.next[st.currentChunk] >= 0 ==> st.kernelNotify || st.userPc.SignalSupply?)
  }

  ghost predicate Inv(st: State) {
    ShapeInv(st) && QueueInv(st) && RefInv(st) && HandleInv(st) && ReceivedInv(st) && WakeInv(st)
  }

  lemma InitialInv(st: State, n: nat)
    requires Initial(st, n) && Roomy(st.chunkSize) && Countable(st.chunkSize)
    ensures Inv(st)
  {
    forall c | 0 <= c < n ensures RefOk(st, c) { assert st.supplied[c] == c; }
    assert st.log[..0] == [];
  }

  // ---- Steps that leave the queue alone ----

  ghost predicate SameQueue(st: State, st': State) {
    && st'.next == st.next && st'.progress == st.progress && st'.data == st.data && st'.supplied == st.supplied
    && st'.refCounts == st.refCounts && st'.handles == st.handles && st'.log == st.log && st'.received == st.received
    && st'.userAt == st.userAt && st'.kernelAt == st.kernelAt && st'.retrieveChunk == st.retrieveChunk
    && st'.tailChunk == st.tailChunk && st'.currentChunk == st.currentChunk
    && st'.lastProgress == st.lastProgress && st'.currentProgress == st.currentProgress
    && st'.chunkSize == st.chunkSize && st'.consumed == st.consumed
  }

  predicate IsRecycling(pc: UserPc) { pc.ResetChunk? || pc.SupplyChunk? }

  lemma Unrelated(st: State, st': State)
    requires Inv(st) && SameQueue(st, st') && WakeInv(st') && SizesOk(st')
    requires st'.kernelPc == st.kernelPc || WaitsForChunk(st'.kernelPc) == WaitsForChunk(st.kernelPc)
    requires st'.kernelPc == st.kernelPc || !(st'.kernelPc.KStoreProgress? || st'.kernelPc.KStoreDone?)
    requires st'.userPc == st.userPc || (!IsRecycling(st'.userPc) && !IsRecycling(st.userPc))
    requires st'.element == st.element || !st'.kernelPc.KStoreProgress?
    ensures Inv(st')
  {
    forall c: nat | IsChunk(st', c) ensures RefOk(st', c) { assert RefOk(st, c); }
  }

  // ---- Handles ----

  /** One more handle and one more reference on chunk c. */
  lemma MoreRefs(st: State, st': State, c: nat)
    requires RefInv(st) && IsChunk(st, c) && !IsRecycling(st.userPc) && !IsRecycling(st'.userPc)
    requires |st'.next| == |st.next| && |st'.progress| == |st.progress| && |st'.data| == |st.data|
    requires st'.refCounts == st.refCounts[c := st.refCounts[c] + 1]
    requires |st'.handles| == |st.handles| && |st'.handles[c]| == |st.handles[c]| + 1
    requires forall d :: 0 <= d < |st.handles| && d != c ==> st'.handles[d] == st.handles[d]
    requires st'.supplied == st.supplied && st'.userAt == st.userAt
    ensures RefInv(st')
  {
    forall d: nat | IsChunk(st', d) ensures RefOk(st', d) { assert RefOk(st, d); }
  }

  lemma KeepCopy(st: State, c: nat, k: nat)
    requires Inv(st) && Enabled(st, Copy(c, k))
    ensures Inv(Next(st, Copy(c, k)))
  {
    MoreRefs(st, Next(st, Copy(c, k)), c);
  }

  function Without(handles: seq<Handle>, k: nat): seq<Handle>
    requires k < |handles|
  {
    handles[..k] + handles[k + 1..]
  }

  lemma WithoutKeeps(handles: seq<Handle>, k: nat, data: Buffer, limit: nat)
    requires k < |handles| && AllIntact(handles, data)
    ensures AllIntact(Without(handles, k), data) && |Without(handles, k)| == |handles| - 1
    ensures Below(handles, limit) ==> Below(Without(handles, k), limit)
  {
  }

  lemma DropHandles(st: State, c: nat, k: nat, handles: seq<seq<Handle>>)
    requires ShapeInv(st) && HandleInv(st) && IsChunk(st, c) && k < |st.handles[c]|
    requires handles == st.handles[c := Without(st.handles[c], k)]
    ensures EveryHandleIntact(handles, st.data) && Untouched(handles, st.supplied, st.userAt)
    ensures Below(handles[st.retrieveChunk], st.lastProgress)
  {
    WithoutKeeps(st.handles[c], k, st.data[c], st.lastProgress);
  }

  lemma DropRefs(st: State, c: nat, k: nat, st': State)
    requires RefInv(st) && Enabled(st, Drop(c, k)) && st' == Next(st, Drop(c, k))
    ensures RefInv(st')
  {
    assert RefOk(st, c);
    forall d: nat | IsChunk(st', d) ensures RefOk(st', d) { assert RefOk(st, d); }
  }

  lemma DropEffect(st: State, c: nat, k: nat, st': State)
    requires Enabled(st, Drop(c, k)) && st' == Next(st, Drop(c, k))
    ensures st' == st.(handles := st.handles[c := Without(st.handles[c], k)],
                       refCounts := st'.refCounts, userPc := st'.userPc)
    ensures |st'.refCounts| == |st.refCounts| && (st'.userPc == Outside || st'.userPc == ResetChunk(c, false))
  {
  }

  lemma KeepDrop(st: State, c: nat, k: nat)
    requires Inv(st) && Enabled(st, Drop(c, k))
    ensures Inv(Next(st, Drop(c, k)))
  {
    var st' := Next(st, Drop(c, k));
    DropRefs(st, c, k, st');
    DropEffect(st, c, k, st');
    DropHandles(st, c, k, st'.handles);
  }

  // ---- The owner thread ----

  lemma KeepCheck(st: State)
    requires Inv(st) && st.userPc.Check?
    ensures Inv(StepUser(st))
  {
    var st' := StepUser(st);
    var pending := st.pending.Or(st.userPc.notify);
    if pending.cqProgress && st.lastProgress != st.progress[st.retrieveChunk].count {
      KeepDequeue(st, st');
    } else {
      Unrelated(st, st');
    }
  }

  lemma DequeueEffect(st: State, st': State)
    requires ShapeInv(st) && QueueInv(st) && st.userPc.Check? && st' == StepUser(st)
    requires st'.pending.cqProgress && st.lastProgress != st.progress[st.retrieveChunk].count
    ensures st.consumed < |st.log[st.userAt]|
    ensures var c, n, element := st.retrieveChunk, st.lastProgress, st.log[st.userAt][st.consumed];
            && Intact(Handle(n, element), st.data[c])
            && st' == st.(lastProgress := n + Size(element), consumed := st.consumed + 1,
                          refCounts := st.refCounts[c := st.refCounts[c] + 1],
                          handles := st.handles[c := st.handles[c] + [Handle(n, element)]],
                          received := st.received + [element], userPc := Outside, pending := st'.pending)
  {
    assert st.supplied[st.userAt] == st.retrieveChunk;
    assert st.progress[st.supplied[st.userAt]] == Expected(st.log, WaitsForChunk(st.kernelPc), st.userAt);
    BytesPrefix(st.log[st.userAt], st.consumed);
    assert Holds(st.data[st.retrieveChunk], st.log[st.userAt]);
    assert HasAt(st.data[st.retrieveChunk], st.log[st.userAt], st.consumed);
  }

  lemma KeepDequeue(st: State, st': State)
    requires Inv(st) && st.userPc.Check? && st' == StepUser(st)
    requires st'.pending.cqProgress && st.lastProgress != st.progress[st.retrieveChunk].count
    ensures Inv(st')
  {
    DequeueEffect(st, st');
    MoreRefs(st, st', st.retrieveChunk);
    LongerPrefix(st.received, st.log, st.userAt, st.consumed);
    MoreHandles(st, st'.handles, Handle(st.lastProgress, st.log[st.userAt][st.consumed]));
    DequeueQueue(st, st');
  }

  lemma DequeueQueue(st: State, st': State)
    requires ShapeInv(st) && QueueInv(st) && WakeInv(st) && st.userPc.Check? && st.consumed < |st.log[st.userAt]|
    requires st' == st.(lastProgress := st.lastProgress + Size(st.log[st.userAt][st.consumed]),
                        consumed := st.consumed + 1, refCounts := st'.refCounts, handles := st'.handles,
                        received := st'.received, userPc := Outside, pending := st'.pending)
    requires |st'.refCounts| == |st.refCounts| && |st'.handles| == |st.handles| && st'.pending.cqProgress
    ensures ShapeInv(st') && QueueInv(st') && WakeInv(st')
  {
    BytesOne(st.log[st.userAt], st.consumed);
  }

  lemma LongerPrefix(received: seq<Element>, log: seq<seq<Element>>, at: nat, n: nat)
    requires IsPrefix(received, log, at, n) && n < |log[at]|
    ensures IsPrefix(received + [log[at][n]], log, at, n + 1)
  {
    assert log[at][..n + 1] == log[at][..n] + [log[at][n]];
  }

  lemma MoreHandles(st: State, handles: seq<seq<Handle>>, h: Handle)
    requires ShapeInv(st) && HandleInv(st) && Intact(h, st.data[st.retrieveChunk]) && h.offset == st.lastProgress
    requires Distinct(st.supplied, st.userAt)
    requires handles == st.handles[st.retrieveChunk := st.handles[st.retrieveChunk] + [h]]
    ensures EveryHandleIntact(handles, st.data) && Untouched(handles, st.supplied, st.userAt)
    ensures Below(handles[st.retrieveChunk], st.lastProgress + Size(h.element))
  {
  }

  /** The user leaves its chunk: the chunk is done, so the kernel has gone on to the next. */
  lemma RetireFacts(st: State)
    requires ShapeInv(st) && QueueInv(st) && WakeInv(st) && st.userPc.RetireChunk?
    ensures st.userAt < st.kernelAt && st.consumed == |st.log[st.userAt]|
    ensures st.next[st.retrieveChunk] == st.supplied[st.userAt + 1]
  {
    assert st.progress[st.supplied[st.userAt]] == Expected(st.log, WaitsForChunk(st.kernelPc), st.userAt);
    BytesPrefix(st.log[st.userAt], st.consumed);
    assert LinkOk(st.next, st.supplied, st.userAt);
  }

  lemma RetireRefs(st: State, st': State)
    requires ShapeInv(st) && RefInv(st) && Distinct(st.supplied, st.userAt) && st.userPc.RetireChunk?
    requires st.userAt < st.kernelAt && st' == StepUser(st)
    ensures RefInv(st')
  {
    var c := st.retrieveChunk;
    assert st.supplied[st.userAt] == c && RefOk(st, c);
    forall d: nat | IsChunk(st', d) ensures RefOk(st', d) {
      assert RefOk(st, d);
      if IsSupplied(st.supplied, st.userAt, d) && d != c {
        var i :| st.userAt <= i < |st.supplied| && st.supplied[i] == d;
        assert IsSupplied(st'.supplied, st'.userAt, d);
      }
    }
  }

  lemma RetireReceived(st: State, st': State)
    requires ShapeInv(st) && ReceivedInv(st) && ShapeInv(st') && st.consumed == |st.log[st.userAt]|
    requires st'.log == st.log && st'.userAt == st.userAt + 1 && st'.consumed == 0 && st'.received == st.received
    ensures ReceivedInv(st')
  {
    var log, at := st.log, st.userAt;
    assert log[..at + 1][..at] == log[..at];
    assert log[at][..|log[at]|] == log[at];
  }

  lemma ShorterWindow(next: seq<int>, progress: seq<Progress>, data: seq<Buffer>, supplied: seq<nat>,
                      from: nat, log: seq<seq<Element>>, waits: bool)
    requires Distinct(supplied, from) && Linked(next, supplied, from)
    requires Stored(progress, supplied, from, log, waits) && Written(data, supplied, from, log)
    ensures Distinct(supplied, from + 1) && Linked(next, supplied, from + 1)
    ensures Stored(progress, supplied, from + 1, log, waits) && Written(data, supplied, from + 1, log)
  {
  }

  /** The step as an equation, with the two outcomes of _surrender() in `refCounts` and `pc`. */
  lemma RetireEffect(st: State, st': State, at: nat)
    requires ShapeInv(st) && st.userPc.RetireChunk? && st' == StepUser(st) && st.next[st.retrieveChunk] == at
    ensures st' == st.(retrieveChunk := at, lastProgress := 0, userAt := st.userAt + 1, consumed := 0,
                       refCounts := st'.refCounts, userPc := st'.userPc)
    ensures |st'.refCounts| == |st.refCounts|
    ensures st'.userPc == Top || st'.userPc == ResetChunk(st.retrieveChunk, true)
  {
  }

  lemma RetireQueue(st: State, st': State)
    requires ShapeInv(st) && QueueInv(st) && HandleInv(st) && st.userAt < st.kernelAt
    requires st' == st.(retrieveChunk := st.supplied[st.userAt + 1], lastProgress := 0, userAt := st.userAt + 1,
                        consumed := 0, refCounts := st'.refCounts, userPc := st'.userPc)
    requires |st'.refCounts| == |st.refCounts|
    requires st'.userPc == Top || st'.userPc == ResetChunk(st.retrieveChunk, true)
    ensures ShapeInv(st') && QueueInv(st') && HandleInv(st')
  {
    ShorterWindow(st.next, st.progress, st.data, st.supplied, st.userAt, st.log, WaitsForChunk(st.kernelPc));
    assert LinkOk(st.next, st.supplied, st.userAt + 1);
    assert Untouched(st'.handles, st'.supplied, st'.userAt);
  }

  lemma KeepRetire(st: State)
    requires Inv(st) && st.userPc.RetireChunk?
    ensures Inv(StepUser(st))
  {
    var st' := StepUser(st);
    RetireFacts(st);
    RetireEffect(st, st', st.supplied[st.userAt + 1]);
    RetireQueue(st, st');
    RetireRefs(st, st');
    RetireReceived(st, st');
  }

  /** A chunk that is being recycled is not supplied. */
  lemma RecycledFacts(st: State, c: nat)
    requires ShapeInv(st) && RefInv(st) && Recycles(st.userPc, c)
    ensures !IsSupplied(st.supplied, st.userAt, c) && st.handles[c] == []
    ensures forall i :: st.userAt <= i < |st.supplied| ==> st.supplied[i] != c
  {
    assert RefOk(st, c);
  }

  lemma KeepReset(st: State)
    requires Inv(st) && st.userPc.ResetChunk?
    ensures Inv(StepUser(st))
  {
    var st', c := StepUser(st), st.userPc.chunk;
    RecycledFacts(st, c);
    forall i: nat | st.userAt <= i < |st.supplied| ensures LinkOk(st'.next, st'.supplied, i) {
      assert LinkOk(st.next, st.supplied, i);
    }
    assert st.supplied[st.userAt] != c && st.supplied[st.kernelAt] != c;
    forall d: nat | IsChunk(st', d) ensures RefOk(st', d) { assert RefOk(st, d); }
  }

  lemma SupplyRefs(st: State, st': State)
    requires ShapeInv(st) && RefInv(st) && st.userPc.SupplyChunk? && st' == StepUser(st)
    ensures RefInv(st')
  {
    var c := st.userPc.chunk;
    forall d: nat | IsChunk(st', d) ensures RefOk(st', d) {
      assert RefOk(st, d);
      assert st'.supplied[|st.supplied|] == c;
      if IsSupplied(st.supplied, st.userAt, d) {
        var i :| st.userAt <= i < |st.supplied| && st.supplied[i] == d;
        assert st'.supplied[i] == d;
      } else if d != c {
        assert !IsSupplied(st'.supplied, st'.userAt, d);
      }
    }
  }

  lemma SupplyQueue(st: State, st': State)
    requires ShapeInv(st) && QueueInv(st) && RefInv(st) && st.userPc.SupplyChunk? && st' == StepUser(st)
    ensures QueueInv(st')
  {
    var c := st.userPc.chunk;
    RecycledFacts(st, c);
    assert RefOk(st, c);
    forall i: nat | st.userAt <= i < |st'.supplied| ensures LinkOk(st'.next, st'.supplied, i) {
      if i < |st.supplied| { assert LinkOk(st.next, st.supplied, i); }
    }
  }

  lemma KeepSupply(st: State)
    requires Inv(st) && st.userPc.SupplyChunk?
    ensures Inv(StepUser(st))
  {
    var st' := StepUser(st);
    RecycledFacts(st, st.userPc.chunk);
    SupplyRefs(st, st');
    SupplyQueue(st, st');
  }

  lemma QuietUserWakes(st: State)
    requires Enabled(st, User) && IsChunk(st, st.currentChunk) && WakeInv(st)
    requires !st.userPc.RetireChunk? && !st.userPc.Check? && !IsRecycling(st.userPc)
    ensures WakeInv(StepUser(st))
  {
  }

  lemma QuietUserEffect(st: State, st': State)
    requires Enabled(st, User) && st' == StepUser(st)
    requires !st.userPc.RetireChunk? && !st.userPc.Check? && !IsRecycling(st.userPc)
    ensures st' == st.(userNotify := st'.userNotify, kernelNotify := st'.kernelNotify, userPc := st'.userPc)
    ensures !IsRecycling(st'.userPc)
  {
  }

  lemma KeepQuietUser(st: State)
    requires Inv(st) && Enabled(st, User) && !st.userPc.RetireChunk? && !st.userPc.Check? && !IsRecycling(st.userPc)
    ensures Inv(StepUser(st))
  {
    var st' := StepUser(st);
    QuietUserWakes(st);
    QuietUserEffect(st, st');
    Unrelated(st, st');
  }

  lemma KeepUser(st: State)
    requires Inv(st) && Enabled(st, User)
    ensures Inv(StepUser(st))
  {
    if st.userPc.Check? {
      KeepCheck(st);
    } else if st.userPc.RetireChunk? {
      KeepRetire(st);
    } else if st.userPc.ResetChunk? {
      KeepReset(st);
    } else if st.userPc.SupplyChunk? {
      KeepSupply(st);
    } else {
      KeepQuietUser(st);
    }
  }

  // ---- The kernel ----

  /** Storing to the progress word of the kernel's chunk concerns that chunk alone. */
  lemma KernelStores(st: State, progress: seq<Progress>, log: seq<seq<Element>>, waits: bool)
    requires ShapeInv(st) && QueueInv(st)
    requires progress == st.progress[st.currentChunk := Expected(log, waits, st.kernelAt)]
    requires |log| >= |st.log| && log[..st.kernelAt] == st.log[..st.kernelAt] && |log| <= |st.log| + 1
    requires |log| > |st.log| ==> log[|st.log|] == []
    requires |log| > |st.log| ==> !waits
    ensures Stored(progress, st.supplied, st.userAt, log, waits)
  {
    forall i | st.userAt <= i < |st.supplied|
      ensures st.supplied[i] < |progress| && progress[st.supplied[i]] == Expected(log, waits, i)
    {
      assert st.progress[st.supplied[i]] == Expected(st.log, WaitsForChunk(st.kernelPc), i);
      if i < st.kernelAt { assert log[i] == log[..st.kernelAt][i]; }
    }
  }

  lemma KeepStoreFull(st: State)
    requires Inv(st) && st.kernelPc.KStoreFull?
    ensures Inv(StepKernel(st))
  {
    var st' := StepKernel(st);
    FieldsOfSmall(st.currentProgress);
    KernelStores(st, st'.progress, st'.log, true);
    assert st.progress[st.supplied[st.userAt]] == Expected(st.log, false, st.userAt);
    KernelRefs(st, st');
  }

  lemma KeepStoreDone(st: State)
    requires Inv(st) && st.kernelPc.KStoreDone?
    ensures Inv(StepKernel(st))
  {
    var st' := StepKernel(st);
    FieldsOfSmall(st.currentProgress);
    KernelStores(st, st'.progress, st'.log, false);
    KernelRefs(st, st');
    assert st'.log[..st.userAt] == st.log[..st.userAt];
  }

  /** The kernel's buffer once the element has been written behind its progress. */
  function Appended(data: Buffer, p: nat, e: Element): Buffer { Overwrite(data, p, p + Size(e))[p := e] }

  /** A write behind the elements of a chunk leaves them alone. */
  lemma AppendKeepsItems(data: Buffer, items: seq<Element>, e: Element)
    requires Holds(data, items)
    ensures Holds(Appended(data, Bytes(items), e), items)
  {
    var p := Bytes(items);
    forall k: nat | k < |items| ensures HasAt(Appended(data, p, e), items, k) {
      assert HasAt(data, items, k);
      assert items[..|items|] == items;
      BytesGrow(items, k, |items|);
    }
  }

  lemma AppendKeepsHandles(data: Buffer, handles: seq<Handle>, p: nat, e: Element)
    requires AllIntact(handles, data) && Below(handles, p)
    ensures AllIntact(handles, Appended(data, p, e))
  {
  }

  /** The element stays in its chunk. */
  lemma WriteEffect(st: State, st': State)
    requires ShapeInv(st) && st.kernelPc.KWrite? && st' == StepKernel(st)
    ensures st' == st.(data := st.data[st.currentChunk :=
                                 Appended(st.data[st.currentChunk], st.currentProgress, st.element)],
                       kernelPc := KStoreProgress)
  {
    NoOverrun(st.chunkSize, st.currentProgress, st.element);
  }

  lemma WriteData(st: State, data: seq<Buffer>)
    requires ShapeInv(st) && QueueInv(st) && HandleInv(st)
    requires data == st.data[st.currentChunk := Appended(st.data[st.currentChunk], st.currentProgress, st.element)]
    ensures Written(data, st.supplied, st.userAt, st.log) && EveryHandleIntact(st.handles, data)
  {
    var c, n := st.currentChunk, st.currentProgress;
    forall i | st.userAt <= i < |st.log|
      ensures i < |st.supplied| && st.supplied[i] < |data| && Holds(data[st.supplied[i]], st.log[i])
    {
      assert Holds(st.data[st.supplied[i]], st.log[i]);
      if i == st.kernelAt { AppendKeepsItems(st.data[c], st.log[i], st.element); }
    }
    BytesPrefix(st.log[st.userAt], st.consumed);
    assert AllIntact(st.handles[c], st.data[c]);
    assert Below(st.handles[c], n);
    AppendKeepsHandles(st.data[c], st.handles[c], n, st.element);
  }

  lemma KeepWrite(st: State)
    requires Inv(st) && st.kernelPc.KWrite?
    ensures Inv(StepKernel(st))
  {
    var st' := StepKernel(st);
    WriteEffect(st, st');
    WriteData(st, st'.data);
    KernelRefs(st, st');
  }

  /** The last element of the log grows by the element that was written. */
  lemma GrowLog(data: seq<Buffer>, supplied: seq<nat>, from: nat, log: seq<seq<Element>>, element: Element)
    requires Written(data, supplied, from, log) && 0 <= from < |log| <= |supplied| && supplied[|log| - 1] < |data|
    requires var c, p := supplied[|log| - 1], Bytes(log[|log| - 1]); p in data[c] && data[c][p] == element
    ensures Written(data, supplied, from, log[|log| - 1 := log[|log| - 1] + [element]])
  {
    var last := |log| - 1;
    forall i | from <= i < |log|
      ensures Holds(data[supplied[i]], if i == last then log[i] + [element] else log[i])
    {
      assert Holds(data[supplied[i]], log[i]);
      if i == last { HoldsMore(data[supplied[i]], log[i], element); }
    }
  }

  lemma HoldsMore(data: Buffer, items: seq<Element>, e: Element)
    requires Holds(data, items) && Bytes(items) in data && data[Bytes(items)] == e
    ensures Holds(data, items + [e])
  {
    forall k: nat | k < |items + [e]| ensures HasAt(data, items + [e], k) {
      if k < |items| {
        assert HasAt(data, items, k);
        assert (items + [e])[..k] == items[..k];
      } else {
        assert (items + [e])[..k] == items;
      }
    }
  }

  lemma KernelRefs(st: State, st': State)
    requires ShapeInv(st) && RefInv(st) && |st'.next| == |st.next| && |st'.data| == |st.data|
    requires st'.refCounts == st.refCounts && st'.handles == st.handles && st'.next == st.next
    requires st'.supplied == st.supplied && st'.userAt == st.userAt && st'.userPc == st.userPc
    requires |st'.progress| == |st.progress|
    requires forall c :: 0 <= c < |st.progress| && c != st.currentChunk ==> st'.progress[c] == st.progress[c]
    ensures RefInv(st')
  {
    forall c: nat | IsChunk(st', c) ensures RefOk(st', c) {
      assert RefOk(st, c);
      assert st.supplied[st.kernelAt] == st.currentChunk;
    }
  }

  lemma PrefixOfGrown(received: seq<Element>, log: seq<seq<Element>>, at: nat, n: nat, element: Element)
    requires IsPrefix(received, log, at, n)
    ensures IsPrefix(received, log[|log| - 1 := log[|log| - 1] + [element]], at, n)
  {
    var log' := log[|log| - 1 := log[|log| - 1] + [element]];
    assert log'[..at] == log[..at] && log'[at][..n] == log[at][..n];
  }

  lemma StoreProgressEffect(st: State, st': State)
    requires IsChunk(st, st.currentChunk) && st.log != [] && st.kernelPc.KStoreProgress? && st' == StepKernel(st)
    requires SizesOk(st) && Countable(st.chunkSize)
    ensures var n := st.currentProgress + Size(st.element);
            st' == st.(progress := st.progress[st.currentChunk := Progress(n, false, false)],
                       currentProgress := n, kernelPc := KNotify,
                       log := st.log[|st.log| - 1 := st.log[|st.log| - 1] + [st.element]])
  {
    KernelKeepsSizes(st);
    FieldsOfSmall(st.currentProgress + Size(st.element));
  }

  lemma StoreProgressShape(st: State, st': State)
    requires ShapeInv(st) && st.kernelPc.KStoreProgress? && st' == StepKernel(st)
    ensures ShapeInv(st')
  {
    StoreProgressEffect(st, st');
    KernelKeepsSizes(st);
    BytesAppend(st.log[st.kernelAt], st.element);
    assert st'.log[st.userAt][..st.consumed] == st.log[st.userAt][..st.consumed];
  }

  lemma StoreProgressQueue(st: State, st': State)
    requires ShapeInv(st) && QueueInv(st) && st.kernelPc.KStoreProgress? && st' == StepKernel(st)
    ensures QueueInv(st')
  {
    StoreProgressEffect(st, st');
    BytesAppend(st.log[st.kernelAt], st.element);
    KernelStores(st, st'.progress, st'.log, false);
    GrowLog(st.data, st.supplied, st.userAt, st.log, st.element);
  }

  lemma KeepStoreProgress(st: State)
    requires Inv(st) && st.kernelPc.KStoreProgress?
    ensures Inv(StepKernel(st))
  {
    var st' := StepKernel(st);
    StoreProgressEffect(st, st');
    StoreProgressShape(st, st');
    StoreProgressQueue(st, st');
    KernelRefs(st, st');
    PrefixOfGrown(st.received, st.log, st.userAt, st.consumed, st.element);
    StoreProgressWakes(st, st');
  }

  lemma StoreProgressWakes(st: State, st': State)
    requires ShapeInv(st) && QueueInv(st) && WakeInv(st) && st.kernelPc.KStoreProgress? && st' == StepKernel(st)
    ensures WakeInv(st')
  {
    StoreProgressEffect(st, st');
    assert st.progress[st.supplied[st.kernelAt]] == Expected(st.log, false, st.kernelAt);
  }

  lemma KeepLoadNext(st: State)
    requires Inv(st) && st.kernelPc.KLoadNext?
    ensures Inv(StepKernel(st))
  {
    var st' := StepKernel(st);
    assert LinkOk(st.next, st.supplied, st.kernelAt);
    KernelRefs(st, st');
  }

  predicate IsQuiet(pc: KernelPc) {
    pc.KNotifyFull? || pc.KCheckSupply? || pc.KSleep? || pc.KNotifyDone? || pc.KNotify?
  }

  lemma KeepQuietKernel(st: State)
    requires Inv(st) && Enabled(st, Kernel) && IsQuiet(st.kernelPc)
    ensures Inv(StepKernel(st))
  {
    QuietKernelEffect(st, StepKernel(st));
    Unrelated(st, StepKernel(st));
  }

  lemma QuietKernelEffect(st: State, st': State)
    requires Enabled(st, Kernel) && IsQuiet(st.kernelPc) && st' == StepKernel(st)
    ensures st' == st.(userNotify := st'.userNotify, kernelNotify := st'.kernelNotify, kernelPc := st'.kernelPc)
    ensures !st'.kernelPc.KStoreProgress? && !st'.kernelPc.KStoreDone?
    ensures WaitsForChunk(st'.kernelPc) == WaitsForChunk(st.kernelPc)
  {
  }

  lemma KeepKernel(st: State)
    requires Inv(st) && Enabled(st, Kernel)
    ensures Inv(StepKernel(st))
  {
    if IsQuiet(st.kernelPc) {
      KeepQuietKernel(st);
    } else {
      match st.kernelPc
      case KStoreFull => KeepStoreFull(st);
      case KLoadNext => KeepLoadNext(st);
      case KStoreDone(_) => KeepStoreDone(st);
      case KWrite => KeepWrite(st);
      case KStoreProgress => KeepStoreProgress(st);
    }
  }

  // ---- Runs ----

  lemma QuietWakes(st: State, step: Step)
    requires IsChunk(st, st.retrieveChunk) && IsChunk(st, st.currentChunk) && WakeInv(st)
    requires Enabled(st, step) && !step.Copy? && !step.Drop? && !step.User? && !step.Kernel?
    ensures WakeInv(Next(st, step))
  {
  }

  lemma KeepQuiet(st: State, step: Step)
    requires Inv(st) && Enabled(st, step) && !step.Copy? && !step.Drop? && !step.User? && !step.Kernel?
    ensures Inv(Next(st, step))
  {
    QuietWakes(st, step);
    Unrelated(st, Next(st, step));
  }

  lemma KeepStep(st: State, step: Step)
    requires Inv(st) && Enabled(st, step)
    ensures Inv(Next(st, step))
  {
    match step
    case Copy(c, k) => KeepCopy(st, c, k);
    case Drop(c, k) => KeepDrop(st, c, k);
    case User => KeepUser(st);
    case Kernel => KeepKernel(st);
    case _ => KeepQuiet(st, step);
  }

  lemma {:induction false} RunKeepsInv(st: State, steps: seq<Step>)
    requires Inv(st) && IsRun(st, steps)
    ensures Inv(After(st, steps))
    decreases |steps|
  {
    if steps != [] {
      KeepStep(st, steps[0]);
      RunKeepsInv(Next(st, steps[0]), steps[1..]);
    }
  }
}

/** What the completion queue promises over every run from the constructor on. */
module DispatcherTheorems {
  import opened Dispatcher
  import opened DispatcherLayout
  import opened DispatcherProofs
  import opened Sequences

  /** A state of some run with chunks of a size that keeps every write in its chunk. */
  ghost predicate Reachable(st: State) {
    exists st0: State, n: nat, steps: seq<Step> ::
      && Initial(st0, n) && Roomy(st0.chunkSize) && Countable(st0.chunkSize)
      && IsRun(st0, steps) && After(st0, steps) == st
  }

  lemma ReachableInv(st: State)
    requires Reachable(st)
    ensures Inv(st)
  {
    var st0: State, n: nat, steps: seq<Step> :|
      && Initial(st0, n) && Roomy(st0.chunkSize) && Countable(st0.chunkSize)
      && IsRun(st0, steps) && After(st0, steps) == st;
    InitialInv(st0, n);
    RunKeepsInv(st0, steps);
  }

  // ---- Wakeups ----

  /**
   While the owner thread is blocked in helDriveQueue() and no bit is set, everything
   submitted has been received unless the submission is between its store and its
   notification, and the run queue is empty unless a thread is about to alert.
   */
  lemma NoLostWakeup(st: State)
    requires Reachable(st) && st.userPc.Sleep? && !st.userNotify.Any()
    ensures IsChunk(st, st.retrieveChunk)
    ensures st.received != Flatten(st.log) || st.progress[st.retrieveChunk].done ==> NotifyInFlight(st.kernelPc)
    ensures st.runQueue > 0 ==> st.wakers > 0
  {
    ReachableInv(st);
    var at := st.userAt;
    assert st.progress[st.supplied[at]] == Expected(st.log, WaitsForChunk(st.kernelPc), at);
    if !CqPending(st) {
      BytesPrefix(st.log[at], st.consumed);
      assert at + 1 == |st.log| && st.log[at][..st.consumed] == st.log[at];
    }
  }

  /** While a submission is blocked for lack of a chunk, no chunk has been supplied, or the signal is on its way. */
  lemma NoLostSupply(st: State)
    requires Reachable(st) && st.kernelPc.KSleep? && !st.kernelNotify
    ensures st.currentChunk != st.tailChunk ==> st.userPc.SignalSupply?
  {
    ReachableInv(st);
    assert LinkOk(st.next, st.supplied, st.kernelAt);
  }

  // ---- Chunks and handles ----

  /** The chunks that the list from _retrieveChunk to _tailChunk runs through. */
  ghost function Window(st: State): seq<nat>
    requires st.userAt <= |st.supplied|
  {
    st.supplied[st.userAt..]
  }

  /** The list that starts at chunk c and follows the next words. */
  ghost predicate IsList(next: seq<int>, c: nat, chunks: seq<nat>)
    decreases |chunks|
  {
    && chunks != [] && chunks[0] == c && c < |next|
    && (if |chunks| == 1 then next[c] == -1 else next[c] >= 0 && IsList(next, next[c], chunks[1..]))
  }

  lemma {:induction false} LinkedIsList(next: seq<int>, supplied: seq<nat>, from: nat)
    requires from < |supplied| && Linked(next, supplied, from)
    ensures IsList(next, supplied[from], supplied[from..])
    decreases |supplied| - from
  {
    assert LinkOk(next, supplied, from);
    if from + 1 < |supplied| {
      LinkedIsList(next, supplied, from + 1);
      assert supplied[from..][1..] == supplied[from + 1..];
    }
  }

  /** The list of supplied chunks runs from _retrieveChunk to _tailChunk and has no repeats. */
  lemma SuppliedListIsSimple(st: State)
    requires Reachable(st)
    ensures st.userAt < |st.supplied| && IsList(st.next, st.retrieveChunk, Window(st))
    ensures Window(st)[|Window(st)| - 1] == st.tailChunk && st.currentChunk in Window(st)
    ensures forall i, j :: 0 <= i < j < |Window(st)| ==> Window(st)[i] != Window(st)[j]
  {
    ReachableInv(st);
    LinkedIsList(st.next, st.supplied, st.userAt);
    WindowEnds(st);
  }

  lemma WindowEnds(st: State)
    requires ShapeInv(st) && Distinct(st.supplied, st.userAt)
    ensures Window(st)[|Window(st)| - 1] == st.tailChunk && st.currentChunk in Window(st)
    ensures forall i, j :: 0 <= i < j < |Window(st)| ==> Window(st)[i] != Window(st)[j]
  {
    assert Window(st)[st.kernelAt - st.userAt] == st.currentChunk;
  }

  /**
   References are exact: the live handles, and one while the chunk is not retired. No
   chunk is leaked: without handles it is supplied or on its way to the tail.
   */
  lemma RefCountsAreExact(st: State, c: nat)
    requires Reachable(st) && c < |st.next|
    ensures st.userAt <= |st.supplied| && IsChunk(st, c)
    ensures !Recycles(st.userPc, c) ==>
              st.refCounts[c] == |st.handles[c]| + (if c in Window(st) then 1 else 0) && st.refCounts[c] > 0
    ensures Recycles(st.userPc, c) ==> st.handles[c] == [] && c !in Window(st)
  {
    ReachableInv(st);
    assert RefOk(st, c);
    SuppliedInSlice(st.supplied, st.userAt, c);
  }

  lemma SuppliedInSlice(supplied: seq<nat>, from: nat, c: nat)
    requires from <= |supplied|
    ensures IsSupplied(supplied, from, c) <==> c in supplied[from..]
  {
    forall i | from <= i < |supplied| ensures supplied[i] == supplied[from..][i - from] {}
  }

  /** A chunk is supplied again only after it was retired and its last handle is gone. */
  lemma SuppliedOnlyWhenFree(st: State, step: Step)
    requires Reachable(st) && Enabled(st, step) && Next(st, step).supplied != st.supplied
    ensures step.User? && st.userPc.SupplyChunk?
    ensures var c := st.userPc.chunk;
            && Next(st, step).supplied == st.supplied + [c] && IsChunk(st, c) && st.handles[c] == []
            && st.userAt <= |st.supplied| && c !in Window(st)
  {
    ReachableInv(st);
    SupplyAppends(st, step);
    RefCountsAreExact(st, st.userPc.chunk);
  }

  lemma SupplyAppends(st: State, step: Step)
    requires Enabled(st, step)
    ensures Next(st, step).supplied ==
              if step.User? && st.userPc.SupplyChunk? then st.supplied + [st.userPc.chunk] else st.supplied
  {
  }

  /** No submission overwrites or resets what a live handle points to. */
  lemma HandlesStayIntact(st: State, c: nat, k: nat)
    requires Reachable(st) && IsChunk(st, c) && k < |st.handles[c]|
    ensures Intact(st.handles[c][k], st.data[c])
  {
    ReachableInv(st);
    assert AllIntact(st.handles[c], st.data[c]);
  }

  // ---- Elements ----

  /** The elements of the submissions of a run, in order. */
  function Submitted(steps: seq<Step>): seq<Element> {
    if steps == [] then []
    else (if steps[0].Submit? then [steps[0].element] else []) + Submitted(steps[1..])
  }

  /** The element of a submission that has not stored its progress yet. */
  function InFlight(st: State): seq<Element> {
    if st.kernelPc.KIdle? || st.kernelPc.KNotify? then [] else [st.element]
  }

  /** All elements that have entered the queue, including the one that is on its way in. */
  ghost function Entered(st: State): seq<Element> { Flatten(st.log) + InFlight(st) }

  lemma FlattenAppend(log: seq<seq<Element>>, element: Element)
    requires log != []
    ensures Flatten(log[|log| - 1 := log[|log| - 1] + [element]]) == Flatten(log) + [element]
  {
    var log' := log[|log| - 1 := log[|log| - 1] + [element]];
    assert log'[..|log| - 1] == log[..|log| - 1];
  }

  lemma StepAccounts(st: State, step: Step)
    requires ShapeInv(st) && Enabled(st, step)
    ensures Entered(Next(st, step)) == Entered(st) + Submitted([step])
  {
    if step.Kernel? {
      KernelAccounts(st, StepKernel(st));
    } else {
      OthersAccount(st, step, Next(st, step));
    }
    assert Submitted([step]) == if step.Submit? then [step.element] else [];
  }

  lemma KernelAccounts(st: State, st': State)
    requires ShapeInv(st) && !st.kernelPc.KIdle? && st' == StepKernel(st)
    ensures Entered(st') == Entered(st)
  {
    if st.kernelPc.KStoreProgress? {
      StoreProgressEffect(st, st');
      FlattenAppend(st.log, st.element);
      assert InFlight(st') == [] && InFlight(st) == [st.element];
    } else if st.kernelPc.KStoreDone? {
      FlattenOpen(st.log);
      assert InFlight(st') == InFlight(st);
    } else {
      KernelKeepsLog(st, st');
    }
  }

  lemma FlattenOpen(log: seq<seq<Element>>)
    ensures Flatten(log + [[]]) == Flatten(log)
  {
    assert (log + [[]])[..|log|] == log;
  }

  lemma KernelKeepsLog(st: State, st': State)
    requires IsChunk(st, st.currentChunk) && !st.kernelPc.KIdle? && st' == StepKernel(st)
    requires !st.kernelPc.KStoreProgress? && !st.kernelPc.KStoreDone?
    ensures st'.log == st.log && InFlight(st') == InFlight(st)
  {
    if st.kernelPc.KWrite? { WriteTouches(st); }
  }

  lemma OthersAccount(st: State, step: Step, st': State)
    requires Enabled(st, step) && !step.Kernel? && st' == Next(st, step)
    ensures st'.log == st.log
    ensures InFlight(st') == InFlight(st) + if step.Submit? then [step.element] else []
  {
    if !step.Submit? { OthersKeepKernel(st, step); }
  }

  lemma {:induction false} RunAccounts(st: State, steps: seq<Step>)
    requires Inv(st) && IsRun(st, steps)
    ensures Entered(After(st, steps)) == Entered(st) + Submitted(steps)
    decreases |steps|
  {
    if steps != [] {
      KeepStep(st, steps[0]);
      StepAccounts(st, steps[0]);
      RunAccounts(Next(st, steps[0]), steps[1..]);
      Regroup(Entered(st), steps);
    }
  }

  lemma Regroup(entered: seq<Element>, steps: seq<Step>)
    requires steps != []
    ensures (entered + Submitted([steps[0]])) + Submitted(steps[1..]) == entered + Submitted(steps)
  {
    assert Submitted(steps) == Submitted([steps[0]]) + Submitted(steps[1..]);
    Associative(entered, Submitted([steps[0]]), Submitted(steps[1..]));
  }

  lemma {:induction false} FlattenSplit(log: seq<seq<Element>>, at: nat)
    requires at <= |log|
    ensures Flatten(log[..at]) <= Flatten(log)
    decreases |log|
  {
    if at < |log| {
      FlattenSplit(log[..|log| - 1], at);
      assert log[..|log| - 1][..at] == log[..at];
    } else {
      assert log[..at] == log;
    }
  }

  /** Exactly once and in order: what the contexts received is a prefix of what was submitted. */
  lemma DeliveredInOrder(st: State, n: nat, steps: seq<Step>)
    requires Initial(st, n) && Roomy(st.chunkSize) && Countable(st.chunkSize) && IsRun(st, steps)
    ensures After(st, steps).received <= Submitted(steps)
  {
    InitialInv(st, n);
    RunKeepsInv(st, steps);
    RunAccounts(st, steps);
    ReceivedIsPrefix(After(st, steps));
    assert Flatten(st.log) == [] by { assert st.log[..0] == []; }
    assert Entered(After(st, steps)) == Submitted(steps);
  }

  lemma ReceivedIsPrefix(st: State)
    requires ReceivedInv(st)
    ensures st.received <= Flatten(st.log)
  {
    var at := st.userAt;
    FlattenSplit(st.log, at + 1);
    assert st.log[..at + 1][..at] == st.log[..at];
    assert st.received <= Flatten(st.log[..at + 1]) <= Flatten(st.log);
  }

  // ---- The assertion on the full flag ----

  /**
   When the user sees the full flag it asserts that its chunk is not the tail. That
   holds exactly if some other chunk is not pinned by a handle.
   */
  lemma FullAssertion(st: State)
    requires Reachable(st) && st.userPc.Check? && IsChunk(st, st.retrieveChunk)
    requires st.progress[st.retrieveChunk].full
    ensures st.retrieveChunk != st.tailChunk <==>
            exists c :: 0 <= c < |st.handles| && c != st.retrieveChunk && st.handles[c] == []
  {
    ReachableInv(st);
    if st.retrieveChunk != st.tailChunk {
      assert st.handles[st.tailChunk] == [];
    }
    if c :| 0 <= c < |st.handles| && c != st.retrieveChunk && st.handles[c] == [] {
      assert RefOk(st, c);
      var i :| st.userAt <= i < |st.supplied| && st.supplied[i] == c;
    }
  }
}

/** The owner of a dispatcher and the kernel get their work done: what each of them reaches on its own. */
module DispatcherProgress {
  import opened Dispatcher
  import opened DispatcherLayout
  import opened DispatcherProofs
  import opened DispatcherTheorems

  // ---- The owner inside wait() ----

  predicate InWait(pc: UserPc) {
    match pc
    case Outside => false
    case ResetChunk(_, inWait) => inWait
    case SupplyChunk(_, inWait) => inWait
    case SignalSupply(inWait) => inWait
    case _ => true
  }

  predicate IsOwnerStep(step: Step) { step.User? || step.RunIteration? }

  /** The owner is blocked in helDriveQueue() and no bit is set. */
  predicate Asleep(st: State) { st.userPc.Sleep? && !st.userNotify.Any() }

  /** The owner has seen, or will see before it sleeps, that the completion queue has progressed. */
  predicate IsVisible(st: State) {
    st.userNotify.cqProgress || st.pending.cqProgress || Noticed(st.userPc)
  }

  /** Something was submitted that the owner has not received. */
  ghost predicate IsUnread(st: State) { st.received != Flatten(st.log) }

  /** wait() is going to return: an item can be run, or an element can be handed to its context. */
  ghost predicate Returns(st: State) {
    !Asleep(st) && (st.runQueue > 0 || (IsVisible(st) && IsUnread(st)))
  }

  // ---- wait() ends ----

  function Bits(n: Notify): nat { (if n.cqProgress then 1 else 0) + if n.alert then 1 else 0 }

  predicate Meets(a: Notify, b: Notify) { (a.cqProgress && b.cqProgress) || (a.alert && b.alert) }

  /** How far the owner is from clearing a bit, sleeping or leaving. */
  function Distance(st: State): nat {
    var bits := st.userNotify;
    match st.userPc
    case Top => if st.runQueue > 0 then 1 else 6
    case LoadNotify => if bits.Any() then 3 else 4
    case Check(notify) =>
      if Meets(notify, bits) then 2 else if notify.Any() then 5 else if bits.Any() then 6 else 3
    case Clear(notify) => if Meets(notify, bits) then 1 else 4
    case CheckRunQueue => if bits.Any() then 5 else 2
    case Sleep => if bits.Any() then 4 else 0
    case _ => 0
  }

  /** A bound for the steps of the owner until it leaves wait() or sleeps. */
  function Rank(st: State): nat {
    var chunks: nat := if st.userAt <= st.kernelAt then st.kernelAt - st.userAt else 0;
    64 * chunks +
    match st.userPc
    case Outside => 0
    case RetireChunk => 0
    case ResetChunk(_, _) => 63
    case SupplyChunk(_, _) => 62
    case SignalSupply(_) => 61
    case _ => 8 * Bits(st.userNotify) + Distance(st)
  }

  /** A chunk is retired only after the kernel has moved on to the next one. */
  lemma RetiresBehind(st: State)
    requires Inv(st) && st.userPc.RetireChunk?
    ensures st.userAt < st.kernelAt
  {
    assert st.progress[st.supplied[st.userAt]] == Expected(st.log, WaitsForChunk(st.kernelPc), st.userAt);
  }

  lemma CheckDescends(st: State)
    requires st.userPc.Check? && Enabled(st, User)
    ensures Rank(StepUser(st)) < Rank(st)
  {
    var notify := st.userPc.notify;
    var st' := StepUser(st);
    assert st'.userAt == st.userAt && st'.kernelAt == st.kernelAt && st'.userNotify == st.userNotify;
    assert st'.userPc == Outside || st'.userPc == RetireChunk
           || st'.userPc == (if notify.Any() then Clear(notify) else CheckRunQueue);
  }

  lemma OwnerDescends(st: State, step: Step)
    requires InWait(st.userPc) && IsOwnerStep(step) && Enabled(st, step)
    requires st.userPc.RetireChunk? ==> st.userAt < st.kernelAt
    ensures Rank(Next(st, step)) < Rank(st)
  {
    if st.userPc.Check? { CheckDescends(st); }
  }

  // ---- Whether it returns ----

  /** What has not been received is in the chunk, or in a later one after the kernel has finished this one. */
  lemma UnreadInChunk(st: State)
    requires Inv(st)
    ensures st.lastProgress != st.progress[st.retrieveChunk].count ==> IsUnread(st)
    ensures IsUnread(st) ==> CqPending(st)
  {
    var at := st.userAt;
    assert st.progress[st.supplied[at]] == Expected(st.log, WaitsForChunk(st.kernelPc), at);
    BytesPrefix(st.log[at], st.consumed);
    FlattenSplit(st.log, at + 1);
    assert st.log[..at + 1][..at] == st.log[..at];
    if at + 1 == |st.log| { assert st.log[..at + 1] == st.log && st.log[at][..|st.log[at]|] == st.log[at]; }
  }

  /** The owner does one piece of work: it runs items, or receives the next element. */
  ghost predicate Works(st: State, st': State) {
    || (0 <= st'.runQueue < st.runQueue && st'.received == st.received)
    || (&& st'.runQueue == st.runQueue && |st'.received| == |st.received| + 1
        && st.received <= st'.received <= Flatten(st.log))
  }

  /** What one step of the owner means for the outcome of wait(). */
  ghost predicate Continues(st: State, st': State) {
    && st'.log == st.log
    && (if InWait(st'.userPc) then
          Returns(st') == Returns(st) && st'.runQueue == st.runQueue && st'.received == st.received
        else st'.userPc.Outside? && Returns(st) && Works(st, st'))
  }

  lemma CheckReturns(st: State, st': State)
    requires OwnerOk(st) && st.userPc.Check? && st' == StepUser(st)
    requires st.lastProgress != st.progress[st.retrieveChunk].count ==> IsUnread(st)
    requires IsUnread(st) ==> CqPending(st)
    requires st'.userPc.Outside? ==> st'.received <= Flatten(st.log)
    ensures Continues(st, st')
  {
  }

  ghost predicate OwnerOk(st: State) {
    && IsChunk(st, st.retrieveChunk) && IsChunk(st, st.tailChunk)
    && (st.userPc.ResetChunk? || st.userPc.SupplyChunk? ==> IsChunk(st, st.userPc.chunk))
    && (st.userPc.Clear? || st.userPc.CheckRunQueue? || st.userPc.Sleep? ==> st.pending == NONE)
  }

  lemma QuietReturns(st: State, step: Step)
    requires OwnerOk(st) && InWait(st.userPc) && IsOwnerStep(step) && Enabled(st, step) && !st.userPc.Check?
    ensures Continues(st, Next(st, step))
  {
  }

  lemma ReceivesPrefix(st: State)
    requires Inv(st) && st.userPc.Check?
    ensures StepUser(st).received <= Flatten(st.log)
  {
    KeepUser(st);
    ReceivedIsPrefix(StepUser(st));
    assert StepUser(st).log == st.log;
  }

  lemma OwnerReturns(st: State, step: Step)
    requires Inv(st) && InWait(st.userPc) && IsOwnerStep(step) && Enabled(st, step)
    ensures Continues(st, Next(st, step))
  {
    if st.userPc.Check? {
      UnreadInChunk(st);
      ReceivesPrefix(st);
      CheckReturns(st, StepUser(st));
    } else {
      QuietReturns(st, step);
    }
  }

  ghost predicate IsOwnerRun(st: State, steps: seq<Step>) {
    IsRun(st, steps) && forall i :: 0 <= i < |steps| ==> IsOwnerStep(steps[i])
  }

  /** wait() has returned, or the owner sleeps and nothing wakes it. */
  predicate IsOver(st: State) { st.userPc.Outside? || Asleep(st) }

  /** Inside wait(), the owner can go on until it returns or sleeps; then it cannot. */
  lemma OwnerIsNeverStuck(st: State)
    requires Inv(st) && (InWait(st.userPc) || st.userPc.Outside?)
    ensures IsOver(st) <==> !Enabled(st, User) && forall items :: !Enabled(st, RunIteration(items))
  {
    if st.userPc.Top? && st.runQueue > 0 { assert Enabled(st, RunIteration(st.runQueue)); }
  }

  /** What a series of owner steps in wait() amounts to. */
  ghost predicate Amounts(st: State, n: nat, st': State) {
    && n + Rank(st') <= Rank(st) && Inv(st') && st'.log == st.log
    && (if InWait(st'.userPc) then
          Returns(st') == Returns(st) && st'.runQueue == st.runQueue && st'.received == st.received
        else st'.userPc.Outside? && Returns(st) && Works(st, st'))
  }

  lemma OneMore(st: State, step: Step, n: nat, st': State)
    requires Inv(st) && InWait(st.userPc) && IsOwnerStep(step) && Enabled(st, step)
    requires var st1 := Next(st, step); if InWait(st1.userPc) then Amounts(st1, n, st') else n == 0 && st' == st1
    ensures Amounts(st, n + 1, st')
  {
    if st.userPc.RetireChunk? { RetiresBehind(st); }
    OwnerDescends(st, step);
    OwnerReturns(st, step);
    KeepStep(st, step);
  }

  lemma NoStepOutside(st: State, steps: seq<Step>)
    requires st.userPc.Outside? && IsOwnerRun(st, steps)
    ensures steps == []
  {
    assert steps != [] ==> IsOwnerStep(steps[0]);
  }

  lemma RestOfRun(st: State, steps: seq<Step>)
    requires steps != [] && IsOwnerRun(st, steps)
    ensures Enabled(st, steps[0]) && IsOwnerStep(steps[0]) && IsOwnerRun(Next(st, steps[0]), steps[1..])
    ensures After(st, steps) == After(Next(st, steps[0]), steps[1..])
  {
  }

  lemma {:induction false} OwnerRuns(st: State, steps: seq<Step>)
    requires Inv(st) && InWait(st.userPc) && IsOwnerRun(st, steps)
    ensures Amounts(st, |steps|, After(st, steps))
    decreases |steps|
  {
    if steps == [] {
      assert After(st, steps) == st;
    } else {
      var st1 := Next(st, steps[0]);
      KeepStep(st, steps[0]);
      OwnerReturns(st, steps[0]);
      RestOfRun(st, steps);
      if InWait(st1.userPc) {
        OwnerRuns(st1, steps[1..]);
      } else {
        NoStepOutside(st1, steps[1..]);
      }
      OneMore(st, steps[0], |steps| - 1, After(st, steps));
    }
  }

  lemma {:induction false} OwnerFinishes(st: State) returns (steps: seq<Step>)
    requires Inv(st) && InWait(st.userPc)
    ensures IsOwnerRun(st, steps) && IsOver(After(st, steps))
    decreases Rank(st)
  {
    if Asleep(st) { return []; }
    var step := if st.userPc.Top? && st.runQueue > 0 then RunIteration(st.runQueue) else User;
    if st.userPc.RetireChunk? { RetiresBehind(st); }
    OwnerDescends(st, step);
    OwnerReturns(st, step);
    KeepStep(st, step);
    var st1 := Next(st, step);
    var rest := [];
    if InWait(st1.userPc) { rest := OwnerFinishes(st1); }
    steps := [step] + rest;
    assert steps[1..] == rest;
  }

  /**
   While kernel and wakers are silent, every series of owner steps inside wait() is bounded, and
   can be continued until the owner has left or sleeps. It leaves, after one piece of work,
   exactly if there is an item to run or an element that it has been notified of.
   */
  lemma WaitEnds(st: State, steps: seq<Step>)
    requires Reachable(st) && InWait(st.userPc) && IsOwnerRun(st, steps)
    ensures st.userAt <= st.kernelAt && |steps| <= 64 * (st.kernelAt - st.userAt + 1)
    ensures exists more :: IsOwnerRun(After(st, steps), more) && IsOver(After(After(st, steps), more))
    ensures IsOver(After(st, steps)) ==> (After(st, steps).userPc.Outside? <==> Returns(st))
    ensures After(st, steps).userPc.Outside? ==> Works(st, After(st, steps))
  {
    ReachableInv(st);
    OwnerRuns(st, steps);
    var st' := After(st, steps);
    if InWait(st'.userPc) {
      var more := OwnerFinishes(st');
    } else {
      assert IsOwnerRun(st', []) && After(st', []) == st';
    }
    assert Asleep(st') ==> InWait(st'.userPc) && !Returns(st');
  }

  /** With no submission under way, wait() returns exactly if there is something to run or to receive. */
  lemma WaitReturnsIff(st: State)
    requires Reachable(st) && InWait(st.userPc) && st.kernelPc.KIdle? && !Asleep(st)
    ensures Returns(st) <==> st.runQueue > 0 || st.received != Flatten(st.log)
  {
    ReachableInv(st);
    UnreadInChunk(st);
  }

  /** From the constructor on, with nothing to do, the owner goes to sleep in wait(). */
  lemma FirstWaitSleeps(st: State, n: nat) returns (steps: seq<Step>)
    requires Initial(st, n) && Roomy(st.chunkSize) && Countable(st.chunkSize)
    ensures IsRun(st, [Wait] + steps) && Asleep(After(st, [Wait] + steps))
  {
    InitialInv(st, n);
    var st1 := Next(st, Wait);
    KeepStep(st, Wait);
    steps := OwnerFinishes(st1);
    OwnerRuns(st1, steps);
    assert ([Wait] + steps)[1..] == steps;
    assert Flatten(st.log) == [] by { assert st.log[..0] == []; }
  }

  /** A thread that posts an item and alerts gets the owner out of wait(), wherever it was in there. */
  lemma PostIsRun(st: State)
    requires Reachable(st) && InWait(st.userPc)
    ensures Enabled(st, Post(true)) && Enabled(Next(st, Post(true)), Alert)
    ensures var st' := Next(Next(st, Post(true)), Alert);
            InWait(st'.userPc) && st'.runQueue == st.runQueue + 1 && Returns(st')
  {
  }

  // ---- A submission ----

  /** The submission is blocked for lack of a chunk and no bit is set. */
  predicate IsBlocked(st: State) { st.kernelPc.KSleep? && !st.kernelNotify }

  /** The submission has not got the next chunk yet. */
  predicate NeedsChunk(pc: KernelPc) {
    pc.KStoreFull? || pc.KNotifyFull? || pc.KLoadNext? || pc.KCheckSupply? || pc.KSleep?
  }

  /** The submission is going to finish: it has its chunk, or finds one. */
  predicate Finishes(st: State)
    requires IsChunk(st, st.currentChunk)
  {
    NeedsChunk(st.kernelPc) ==> st.next[st.currentChunk] >= 0 && (LooksForSupply(st.kernelPc) ==> st.kernelNotify)
  }

  /** A bound for the steps of a submission until it is over or blocked. */
  function KernelRank(st: State): nat
    requires IsChunk(st, st.currentChunk)
  {
    match st.kernelPc
    case KIdle => 0
    case KNotify => 1
    case KStoreProgress => 2
    case KWrite => 3
    case KNotifyDone => 4
    case KStoreDone(_) => 5
    case KLoadNext => if st.next[st.currentChunk] >= 0 then 6 else if st.kernelNotify then 10 else 8
    case KCheckSupply => if st.kernelNotify then 9 else 7
    case KSleep => if st.kernelNotify then 11 else 0
    case KNotifyFull => 12
    case KStoreFull => 13
  }

  lemma KernelDescends(st: State, st': State)
    requires Enabled(st, Kernel) && st' == StepKernel(st) && IsChunk(st', st'.currentChunk)
    ensures KernelRank(st') < KernelRank(st) && st'.element == st.element
    ensures if st'.kernelPc.KIdle? then Finishes(st) && st'.userNotify.cqProgress
            else (Finishes(st') <==> Finishes(st))
  {
    if st.kernelPc.KWrite? {
      WriteTouches(st);
    } else if NeedsChunk(st.kernelPc) {
      SearchDescends(st, st');
    }
  }

  lemma SearchDescends(st: State, st': State)
    requires Enabled(st, Kernel) && st' == StepKernel(st) && IsChunk(st', st'.currentChunk) && NeedsChunk(st.kernelPc)
    ensures KernelRank(st') < KernelRank(st) && st'.element == st.element
    ensures !st'.kernelPc.KIdle? && (Finishes(st') <==> Finishes(st))
  {
  }

  /** Steps of the kernel alone. */
  function KernelSteps(k: nat): seq<Step> { seq(k, _ => Kernel) }

  /** A submission that has come to its end: it is over, or blocked. */
  ghost predicate IsSettled(st: State, st': State)
    requires IsChunk(st, st.currentChunk)
  {
    && Inv(st') && Entered(st') == Entered(st) && st'.element == st.element
    && (if Finishes(st) then st'.kernelPc.KIdle? && st'.userNotify.cqProgress else IsBlocked(st'))
  }

  lemma Prepend(st: State, step: Step, steps: seq<Step>)
    requires Enabled(st, step) && IsRun(Next(st, step), steps)
    ensures IsRun(st, [step] + steps) && After(st, [step] + steps) == After(Next(st, step), steps)
  {
    assert ([step] + steps)[1..] == steps;
  }

  lemma SubmissionStep(st: State)
    requires Inv(st) && !st.kernelPc.KIdle? && !IsBlocked(st)
    ensures Enabled(st, Kernel)
    ensures var st1 := StepKernel(st);
            && Inv(st1) && KernelRank(st1) < KernelRank(st)
            && (st1.kernelPc.KIdle? ==> IsSettled(st, st1))
            && (!st1.kernelPc.KIdle? ==> forall st' :: IsSettled(st1, st') ==> IsSettled(st, st'))
  {
    KeepStep(st, Kernel);
    KernelDescends(st, StepKernel(st));
    KernelAccounts(st, StepKernel(st));
  }

  ghost predicate Settles(st: State, steps: seq<Step>)
    requires IsChunk(st, st.currentChunk)
  {
    IsRun(st, steps) && IsSettled(st, After(st, steps))
  }

  lemma SettlesLater(st: State, steps: seq<Step>)
    requires Inv(st) && !st.kernelPc.KIdle? && !IsBlocked(st)
    requires if StepKernel(st).kernelPc.KIdle? then steps == KernelSteps(0)
             else IsChunk(StepKernel(st), StepKernel(st).currentChunk) && Settles(StepKernel(st), steps)
    ensures Settles(st, [Kernel] + steps)
  {
    SubmissionStep(st);
    assert KernelSteps(0) == [];
    Prepend(st, Kernel, steps);
  }

  lemma {:induction false} SubmissionRuns(st: State) returns (k: nat)
    requires Inv(st) && !st.kernelPc.KIdle?
    ensures k <= KernelRank(st) && Settles(st, KernelSteps(k))
    decreases KernelRank(st)
  {
    if IsBlocked(st) {
      BlockedSettles(st);
      return 0;
    }
    SubmissionStep(st);
    var st1 := StepKernel(st);
    var j := 0;
    if !st1.kernelPc.KIdle? { j := SubmissionRuns(st1); }
    SettlesLater(st, KernelSteps(j));
    OneMoreKernelStep(j);
    k := j + 1;
  }

  lemma OneMoreKernelStep(j: nat)
    ensures [Kernel] + KernelSteps(j) == KernelSteps(j + 1)
  {
  }

  lemma BlockedSettles(st: State)
    requires Inv(st) && IsBlocked(st)
    ensures Settles(st, KernelSteps(0))
  {
    assert KernelSteps(0) == [];
  }

  /**
   A submission: within 13 steps of the kernel it is over, with the element at the end of what
   was submitted and the owner notified, exactly if the element fits or there is another chunk;
   otherwise the submission blocks until a chunk is supplied.
   */
  lemma SubmissionEnds(st: State, element: Element) returns (k: nat)
    requires Reachable(st) && Enabled(st, Submit(element))
    ensures k <= 13 && IsRun(st, [Submit(element)] + KernelSteps(k)) && IsChunk(st, st.currentChunk)
    ensures var st' := After(st, [Submit(element)] + KernelSteps(k));
            if st.currentProgress + Length(element) <= st.chunkSize || st.next[st.currentChunk] >= 0 then
              st'.kernelPc.KIdle? && st'.userNotify.cqProgress && Flatten(st'.log) == Flatten(st.log) + [element]
            else IsBlocked(st') && st'.element == element
  {
    ReachableInv(st);
    var st1 := Next(st, Submit(element));
    KeepStep(st, Submit(element));
    StepAccounts(st, Submit(element));
    k := SubmissionRuns(st1);
    Prepend(st, Submit(element), KernelSteps(k));
    var st' := After(st1, KernelSteps(k));
    assert Submitted([Submit(element)]) == [element];
    assert st'.kernelPc.KIdle? ==> Entered(st') == Flatten(st'.log) + [] == Flatten(st'.log);
    assert Entered(st) == Flatten(st.log) + [] == Flatten(st.log);
  }

  // ---- Handles ----

  /** Copying a handle gives one more handle to the same element. */
  lemma CopyCopies(st: State, c: nat, k: nat)
    requires Enabled(st, Copy(c, k))
    ensures var st' := Next(st, Copy(c, k));
            && st'.handles[c] == st.handles[c] + [st.handles[c][k]] && st'.userPc == Outside
            && forall d :: 0 <= d < |st.handles| && d != c ==> st'.handles[d] == st.handles[d]
  {
  }

  /** Dropping a handle of a chunk that is still in use removes the handle and nothing else. */
  lemma DropDrops(st: State, c: nat, k: nat)
    requires Reachable(st) && Enabled(st, Drop(c, k)) && st.userAt <= |st.supplied|
    requires |st.handles[c]| > 1 || c in Window(st)
    ensures var st' := Next(st, Drop(c, k));
            && st'.handles == st.handles[c := Without(st.handles[c], k)] && st'.userPc.Outside?
            && st'.supplied == st.supplied && st'.next == st.next && st'.progress == st.progress
  {
    RefCountsAreExact(st, c);
  }

  /** Dropping the last handle of a retired chunk empties it and puts it behind the tail of the list. */
  lemma DropSupplies(st: State, c: nat, k: nat)
    requires Reachable(st) && Enabled(st, Drop(c, k)) && st.userAt <= |st.supplied|
    requires |st.handles[c]| == 1 && c !in Window(st)
    ensures IsChunk(st, st.tailChunk) && IsRecycled(st, c, k)
  {
    ReachableInv(st);
    RefCountsAreExact(st, c);
    TailInWindow(st);
    Recycled(st, c, k);
  }

  /** The chunk is dropped, reset, supplied and signalled. */
  ghost predicate IsRecycled(st: State, c: nat, k: nat)
    requires IsChunk(st, c) && IsChunk(st, st.tailChunk)
  {
    var steps := [Drop(c, k)] + [User, User, User];
    && IsRun(st, steps)
    && var st' := After(st, steps);
       && st'.userPc.Outside? && st'.supplied == st.supplied + [c] && st'.tailChunk == c
       && |st'.next| == |st.next| && st'.next[st.tailChunk] == c && st'.next[c] == -1
       && |st'.progress| == |st.progress| && st'.progress[c] == Progress(0, false, false) && st'.kernelNotify
  }

  lemma TailInWindow(st: State)
    requires ShapeInv(st)
    ensures st.tailChunk in Window(st)
  {
    assert Window(st)[|Window(st)| - 1] == st.tailChunk;
  }

  /** _surrender() goes on after the last reference: reset, supply and signal. */
  lemma SuppliesChunk(st: State, c: nat)
    requires IsChunk(st, c) && IsChunk(st, st.tailChunk) && IsChunk(st, st.retrieveChunk) && c != st.tailChunk
    requires st.userPc == ResetChunk(c, false)
    ensures IsRun(st, [User, User, User])
    ensures After(st, [User, User, User]) ==
            st.(next := st.next[c := -1][st.tailChunk := c], progress := st.progress[c := Progress(0, false, false)],
                refCounts := st.refCounts[c := 1], tailChunk := c, supplied := st.supplied + [c],
                kernelNotify := true, userPc := Outside)
  {
    var st1 := Next(st, User);
    var st2 := Next(st1, User);
    Prepend(st2, User, []);
    Prepend(st1, User, [User]);
    Prepend(st, User, [User, User]);
    assert [User] + [User, User] == [User, User, User] && [User] + [User] == [User, User] && [User] + [] == [User];
  }

  lemma Recycled(st: State, c: nat, k: nat)
    requires Inv(st) && Enabled(st, Drop(c, k)) && st.refCounts[c] == 1 && c != st.tailChunk
    ensures IsRecycled(st, c, k)
  {
    SuppliesChunk(Next(st, Drop(c, k)), c);
    Prepend(st, Drop(c, k), [User, User, User]);
  }
}

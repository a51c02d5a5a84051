/** What every run of the shootdown protocol guarantees. */
module ShootdownTheorems {
  import opened Shootdown
  import opened ShootdownInvariant
  import opened ShootdownSafety
  import opened ShootdownLockSteps
  import opened ShootdownEntrySteps
  import opened ShootdownSubmit

  lemma KeepAdvance(st: State, c: nat)
    requires Inv(st) && c < |st.cpus| && !st.cpus[c].Idle?
    ensures Inv(StepAdvance(st, c))
  {
    match st.cpus[c]
    case SwitchTable(_, _, _) => KeepSwitchTable(st, c);
    case Detach(_, _, _, _) => KeepDetach(st, c);
    case LoadTail(_) => KeepLoadTail(st, c);
    case LoadPrev(_, _) => KeepLoadPrev(st, c);
    case LoadNext(_, _) => KeepLoadNext(st, c);
    case Visit(_, _, _) => KeepVisit(st, c);
    case Decrement(_, _, _) => KeepDecrement(st, c);
    case Erase(_, _, _) => KeepErase(st, c);
    case Complete(_, _, _) => KeepComplete(st, c);
    case Finish(_) => KeepFinish(st, c);
    case FinishRetire(_) => KeepFinish(st, c);
  }

  lemma KeepStep(st: State, step: Step)
    requires Inv(st) && Enabled(st, step)
    ensures Inv(Next(st, step))
  {
    match step
    case WritePage(s, page) => KeepWritePage(st, s, page);
    case FillTlb(b, page) => KeepFillTlb(st, b, page);
    case InitialBind(c) => KeepInitialBind(st, c);
    case Rebind(b, s) => KeepRebind(st, b, s);
    case Unbind(b) => KeepUnbind(st, b);
    case ShootdownIpi(b) => KeepShootdownIpi(st, b);
    case Submit(c, s, first, count) => KeepSubmit(st, c, s, first, count);
    case Retire(c, s) => KeepRetire(st, c, s);
    case Advance(c) => KeepAdvance(st, c);
  }

  lemma InitialInv(st: State)
    requires Initial(st)
    ensures Inv(st)
  {
  }

  lemma {:induction false} RunKeepsInv(st: State, steps: seq<Step>)
    requires Inv(st) && IsRun(st, steps)
    ensures Inv(After(st, steps))
    decreases |steps|
  {
    if steps != [] {
      KeepStep(st, steps[0]);
      RunKeepsInv(Next(st, steps[0]), steps[1..]);
    }
  }

  /**
   Once the submitter of a shootdown has been told that it is done, no binding on any
   CPU holds a translation for the pages of the node that predates the submission.
   */
  lemma CompletionIsSafe(init: State, steps: seq<Step>, n: nat, b: nat)
    requires Initial(init) && IsRun(init, steps)
    requires n < |After(init, steps).nodes| && b < |After(init, steps).bindings|
    ensures Done(After(init, steps).nodes[n]) ==> !HoldsStale(After(init, steps), b, n)
  {
    InitialInv(init);
    RunKeepsInv(init, steps);
    var st := After(init, steps);
    assert NodeInv(st, n) && TlbInv(st, b);
    if Done(st.nodes[n]) && st.bindings[b].tlbSpace == st.nodes[n].space {
      assert Fresh(st.bindings[b].tlb, st.nodes[n]);
    }
  }

  /**
   bindingsToShoot_ is exactly the number of counted bindings that have neither
   processed nor drained the node; a node is in the list while that number is positive
   or the CPU that made it zero is about to unlink it; complete() runs at most once.
   */
  lemma CountIsExact(init: State, steps: seq<Step>, n: nat)
    requires Initial(init) && IsRun(init, steps) && n < |After(init, steps).nodes|
    requires After(init, steps).nodes[n].Submitted()
    ensures var node := After(init, steps).nodes[n];
      && node.bindingsToShoot == |node.waiting|
      && (node.phase == Queued <==> node.bindingsToShoot > 0)
      && node.completions == (if node.phase == Completed then 1 else 0)
  {
    InitialInv(init);
    RunKeepsInv(init, steps);
    assert NodeInv(After(init, steps), n);
  }

  /** A CPU decrements only the count of a queued node that still waits for its binding. */
  lemma FetchSubIsOwed(init: State, steps: seq<Step>, c: nat)
    requires Initial(init) && IsRun(init, steps)
    requires c < |After(init, steps).cpus| && After(init, steps).cpus[c].Decrement?
    ensures var st := After(init, steps); var pc := st.cpus[c];
      && pc.cur < |st.nodes| && st.nodes[pc.cur].phase == Queued
      && pc.job.binding in st.nodes[pc.cur].waiting && st.nodes[pc.cur].bindingsToShoot >= 1
  {
    InitialInv(init);
    RunKeepsInv(init, steps);
    VisitedIsOwed(After(init, steps), c);
  }

  /**
   No node is forgotten: when all CPUs are idle, a submitted node is incomplete exactly
   if some binding of another CPU is still bound to its space and has not caught up.
   */
  lemma QuiescentNodes(init: State, steps: seq<Step>, n: nat)
    requires Initial(init) && IsRun(init, steps) && n < |After(init, steps).nodes|
    requires After(init, steps).nodes[n].Submitted()
    requires forall c :: 0 <= c < |After(init, steps).cpus| ==> After(init, steps).cpus[c].Idle?
    ensures var st := After(init, steps); var node := st.nodes[n];
      node.completions == 0 <==>
      exists b :: 0 <= b < |st.bindings| && st.bindings[b].boundSpace == node.space
                  && st.bindings[b].cpu != node.initiator && st.bindings[b].alreadyShot < node.sequence
  {
    InitialInv(init);
    RunKeepsInv(init, steps);
    var st := After(init, steps);
    var node := st.nodes[n];
    assert NodeInv(st, n);
    if node.completions == 0 {
      assert node.phase == Queued;
      var b :| b in node.waiting;
      assert WaitInv(st, b) && AttachInv(st, b) && st.cpus[st.bindings[b].cpu].Idle?;
      assert Owes(st, b, n);
    }
    forall b | 0 <= b < |st.bindings| && st.bindings[b].boundSpace == node.space
      && st.bindings[b].cpu != node.initiator && st.bindings[b].alreadyShot < node.sequence
      ensures node.completions == 0
    {
      assert WaitInv(st, b) && AttachInv(st, b) && st.cpus[st.bindings[b].cpu].Idle?;
      assert Owes(st, b, n);
    }
  }

  /** doShootdown_() on CPU c is about to return with its next step. */
  ghost predicate Returns(st: State, c: nat)
    requires WellFormed(st)
  {
    && c < |st.cpus| && HasJob(st.cpus[c]) && st.cpus[c].job.kind.Process?
    && StepAdvance(st, c).cpus[c].Idle?
  }

  /**
   One pass of doShootdown_() is enough: when it returns, no node that was submitted
   before it read the back of the queue waits for its binding any more, although nodes
   are unlinked and appended while the pass is under way.
   */
  lemma OnePassServesAll(init: State, steps: seq<Step>, c: nat, n: nat)
    requires Initial(init) && IsRun(init, steps) && WellFormed(After(init, steps)) && Returns(After(init, steps), c)
    requires var st := After(init, steps);
      && n < |st.nodes| && st.nodes[n].Submitted() && st.nodes[n].space == st.cpus[c].job.space
      && st.nodes[n].sequence <=
         (if st.cpus[c].LoadTail? then st.spaces[st.nodes[n].space].shootSequence else st.cpus[c].job.goal)
    ensures n < |StepAdvance(After(init, steps), c).nodes|
    ensures After(init, steps).cpus[c].job.binding !in StepAdvance(After(init, steps), c).nodes[n].waiting
  {
    InitialInv(init);
    RunKeepsInv(init, steps);
    var st := After(init, steps);
    var st' := StepAdvance(st, c);
    KeepAdvance(st, c);
    ReturnServes(st, st', c, n);
  }

  /** Only a foreign node above alreadyShot can still wait for an idle CPU's binding. */
  lemma WaitsForIdle(st: State, b: nat, n: nat)
    requires Inv(st) && n < |st.nodes| && b in st.nodes[n].waiting
    ensures b < |st.bindings| && st.nodes[n].InList() && st.nodes[n].initiator != st.bindings[b].cpu
    ensures st.cpus[st.bindings[b].cpu].Idle? ==> st.bindings[b].alreadyShot < st.nodes[n].sequence
  {
    assert NodeInv(st, n);
    assert WaitInv(st, b);
    assert Owes(st, b, n);
  }

  lemma ReturnServes(st: State, st': State, c: nat, n: nat)
    requires Inv(st) && Inv(st') && Returns(st, c) && st' == StepAdvance(st, c)
    requires n < |st.nodes| && st.nodes[n].Submitted() && st.nodes[n].space == st.cpus[c].job.space
    requires st.nodes[n].sequence <=
      (if st.cpus[c].LoadTail? then st.spaces[st.nodes[n].space].shootSequence else st.cpus[c].job.goal)
    ensures n < |st'.nodes| && st.cpus[c].job.binding !in st'.nodes[n].waiting
  {
    var b := st.cpus[c].job.binding;
    assert PcWellFormed(st, st.cpus[c]) && PcInv(st, c);
    if st.cpus[c].LoadTail? {
      ReturnFromTail(st, st', c, n);
    } else if b in st'.nodes[n].waiting {
      WaitsForIdle(st', b, n);
    }
  }

  /** The pass finds nothing to do: everything in the queue was dealt with before. */
  lemma ReturnFromTail(st: State, st': State, c: nat, n: nat)
    requires Inv(st) && Inv(st') && Returns(st, c) && st' == StepAdvance(st, c) && st.cpus[c].LoadTail?
    requires n < |st.nodes| && st.nodes[n].Submitted() && st.nodes[n].space == st.cpus[c].job.space
    ensures n < |st'.nodes| && st.cpus[c].job.binding !in st'.nodes[n].waiting
  {
    var b, s := st.cpus[c].job.binding, st.cpus[c].job.space;
    assert PcWellFormed(st, st.cpus[c]) && PcInv(st, c) && SequenceOk(st, n);
    assert TailOk(st, s);
    if st.spaces[s].tail >= 0 { assert NextOk(st, st.spaces[s].tail); }
    if b in st'.nodes[n].waiting {
      WaitsForIdle(st', b, n);
    }
  }

  /**
   A RetireNode completes at most once, and from then on nothing is bound to the space;
   until then some binding is attached or one CPU holds the node.
   */
  lemma RetireCompletesOnce(init: State, steps: seq<Step>, s: nat)
    requires Initial(init) && IsRun(init, steps) && s < |After(init, steps).spaces|
    ensures var st := After(init, steps); var space := st.spaces[s];
      && space.numBindings == |space.attached|
      && space.retireCompletions <= 1
      && (space.retireCompletions == 1 ==> space.retired && space.numBindings == 0)
      && (space.retired && space.retireCompletions == 0 ==>
            || (space.retireNode && space.numBindings > 0)
            || (space.numBindings == 0 && 0 <= space.retireHolder < |st.cpus| && !st.cpus[space.retireHolder].Idle?))
      && (forall b :: 0 <= b < |st.bindings| && st.bindings[b].tlbSpace == s ==> space.retireCompletions == 0)
  {
    InitialInv(init);
    RunKeepsInv(init, steps);
    var st := After(init, steps);
    assert SpaceInv(st, s);
    forall b | 0 <= b < |st.bindings| && st.bindings[b].tlbSpace == s ensures st.spaces[s].retireCompletions == 0 {
      assert AttachInv(st, b);
    }
  }
}

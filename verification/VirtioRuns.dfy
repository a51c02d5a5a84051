/** Whole runs of a virtio queue, in terms of what drivers and device do: every completion is the right one. */
module VirtioRuns {
  import opened Common
  import opened Sequences
  import opened VirtioSpec

  /** The lock sections of the driver and the accesses of the device. */
  datatype Step =
    | Acquire(units: nat)
    | Pop(handles: seq<nat>)
    | Post(chain: seq<nat>, request: Request)
    | DeviceTakes
    | DeviceReturns(head: nat, written: nat)
    | Process
    | Release(units: nat)

  ghost predicate Enabled(g: Ghost, step: Step) {
    match step
    case Acquire(_) => true
    case Pop(handles) => |handles| <= g.acquired
    case Post(chain, _) => chain != [] && chain[0] !in g.posted
    case DeviceTakes => g.pending != [] && InPhase(g.posted, g.pending[0], Pending)
    case DeviceReturns(head, _) => InPhase(g.posted, head, Taken)
    case Process => g.returned != [] && g.returned[0].tableIndex in g.posted
    case Release(units) => units <= g.releasing
  }

  ghost function Next(g: Ghost, step: Step): Ghost
    requires Enabled(g, step)
  {
    match step
    case Acquire(units) => g.(acquired := g.acquired + units)
    case Pop(handles) => AfterPop(g, handles)
    case Post(chain, request) => AfterPost(g, chain, request)
    case DeviceTakes => AfterTake(g)
    case DeviceReturns(head, written) => AfterReturn(g, head, written)
    case Process => AfterProcess(g)
    case Release(units) => g.(releasing := g.releasing - units)
  }

  ghost predicate IsRun(g: Ghost, steps: seq<Step>)
    decreases |steps|, 0
  {
    steps != [] ==>
      var front, last := steps[..|steps| - 1], steps[|steps| - 1];
      IsRun(g, front) && Enabled(After(g, front), last)
  }

  ghost function After(g: Ghost, steps: seq<Step>): Ghost
    requires IsRun(g, steps)
    decreases |steps|, 1
  {
    if steps == [] then g else Next(After(g, steps[..|steps| - 1]), steps[|steps| - 1])
  }

  /** The request that was posted last at a head. */
  function LastPosted(steps: seq<Step>, head: nat): Option<Request>
    decreases |steps|
  {
    if steps == [] then None
    else
      var last := steps[|steps| - 1];
      if last.Post? && last.chain != [] && last.chain[0] == head then Some(last.request)
      else LastPosted(steps[..|steps| - 1], head)
  }

  /** What a step ends, as the device means it: the request posted last at the head, with the length it wrote. */
  function Ends(steps: seq<Step>, step: Step): seq<(Option<Request>, nat)> {
    if step.DeviceReturns? then [(LastPosted(steps, step.head), step.written)] else []
  }

  function Ended(steps: seq<Step>): seq<(Option<Request>, nat)>
    decreases |steps|
  {
    if steps == [] then [] else Ended(steps[..|steps| - 1]) + Ends(steps[..|steps| - 1], steps[|steps| - 1])
  }

  /** What the driver hands out for a used element: the request that it has recorded there. */
  function Recorded(g: Ghost, e: UsedElement): (Option<Request>, nat) {
    if e.tableIndex in g.posted && g.posted[e.tableIndex].ticket < |g.requests|
    then (Some(g.requests[g.posted[e.tableIndex].ticket]), e.written) else (None, e.written)
  }

  lemma RecordedCompletes(g: Ghost, e: UsedElement, done: (Request, nat))
    ensures Completes(g, e, done) <==> Recorded(g, e) == (Some(done.0), done.1)
  {
  }

  /** The completions that the driver has handed out. */
  ghost function Completions(g: Ghost, steps: seq<Step>): seq<(Option<Request>, nat)>
    requires IsRun(g, steps)
    decreases |steps|
  {
    if steps == [] then []
    else
      var front := steps[..|steps| - 1];
      Completions(g, front)
      + if steps[|steps| - 1].Process? then [Recorded(After(g, front), After(g, front).returned[0])] else []
  }

  function AllRecorded(g: Ghost): (r: seq<(Option<Request>, nat)>)
    ensures |r| == |g.returned| && forall i :: 0 <= i < |r| ==> r[i] == Recorded(g, g.returned[i])
  {
    seq(|g.returned|, i requires 0 <= i < |g.returned| => Recorded(g, g.returned[i]))
  }

  // ---- The law ----

  /** Every posted head has the request that was posted there last. */
  ghost predicate IsTied(g: Ghost, steps: seq<Step>) {
    && (forall h: nat :: h in g.posted ==>
          g.posted[h].ticket < |g.requests| && LastPosted(steps, h) == Some(g.requests[g.posted[h].ticket]))
    && NoRepeats(Heads(g.returned))
    && (forall i :: 0 <= i < |g.returned| ==> InPhase(g.posted, g.returned[i].tableIndex, Returned))
  }

  lemma StepTied(g: Ghost, steps: seq<Step>, step: Step)
    requires IsTied(g, steps) && Enabled(g, step)
    ensures IsTied(Next(g, step), steps + [step])
  {
    assert (steps + [step])[..|steps|] == steps;
    var g' := Next(g, step);
    match step
    case DeviceReturns(head, written) =>
      forall i, j | 0 <= i < j < |g'.returned| ensures Heads(g'.returned)[i] != Heads(g'.returned)[j] {
        if j < |g.returned| { assert Heads(g.returned)[i] != Heads(g.returned)[j]; }
      }
    case Process =>
      forall i, j | 0 <= i < j < |g'.returned| ensures Heads(g'.returned)[i] != Heads(g'.returned)[j] {
        assert Heads(g.returned)[i + 1] != Heads(g.returned)[j + 1];
      }
      forall i | 0 <= i < |g'.returned| ensures InPhase(g'.posted, g'.returned[i].tableIndex, Returned) {
        assert InPhase(g.posted, g.returned[i + 1].tableIndex, Returned);
        assert Heads(g.returned)[0] != Heads(g.returned)[i + 1];
      }
    case _ =>
  }

  lemma ReturnEnds(g: Ghost, steps: seq<Step>, head: nat, written: nat)
    requires IsTied(g, steps) && InPhase(g.posted, head, Taken)
    ensures AllRecorded(AfterReturn(g, head, written)) == AllRecorded(g) + [(LastPosted(steps, head), written)]
  {
    var g' := AfterReturn(g, head, written);
    assert Recorded(g', UsedElement(head, written)) == (LastPosted(steps, head), written);
    forall i | 0 <= i < |g.returned| ensures Recorded(g', g.returned[i]) == Recorded(g, g.returned[i]) {
      assert InPhase(g.posted, g.returned[i].tableIndex, Returned);
    }
  }

  lemma ProcessEnds(g: Ghost, steps: seq<Step>)
    requires IsTied(g, steps) && Enabled(g, Process)
    ensures AllRecorded(g) == [Recorded(g, g.returned[0])] + AllRecorded(AfterProcess(g))
  {
    var g' := AfterProcess(g);
    forall i | 0 < i < |g.returned| ensures Recorded(g', g.returned[i]) == Recorded(g, g.returned[i]) {
      assert InPhase(g.posted, g.returned[i].tableIndex, Returned);
      assert Heads(g.returned)[0] != Heads(g.returned)[i];
    }
  }

  lemma OthersRecord(g: Ghost, steps: seq<Step>, step: Step)
    requires IsTied(g, steps) && Enabled(g, step) && !step.DeviceReturns? && !step.Process?
    ensures AllRecorded(Next(g, step)) == AllRecorded(g)
  {
    var g' := Next(g, step);
    assert g'.returned == g.returned;
    forall i | 0 <= i < |g.returned| ensures Recorded(g', g.returned[i]) == Recorded(g, g.returned[i]) {
      assert InPhase(g.posted, g.returned[i].tableIndex, Returned);
    }
  }

  /** What has been ended is what has been handed out, and what is still recorded. */
  lemma StepEnds(g: Ghost, steps: seq<Step>, step: Step)
    requires IsTied(g, steps) && Enabled(g, step)
    ensures AllRecorded(g) + Ends(steps, step) ==
            (if step.Process? then [Recorded(g, g.returned[0])] else []) + AllRecorded(Next(g, step))
  {
    match step
    case DeviceReturns(head, written) => ReturnEnds(g, steps, head, written);
    case Process => ProcessEnds(g, steps);
    case _ => OthersRecord(g, steps, step);
  }

  lemma {:induction false} RunEnds(g: Ghost, steps: seq<Step>)
    requires IsRun(g, steps) && g.posted == map[] && g.returned == []
    ensures IsTied(After(g, steps), steps)
    ensures Ended(steps) == Completions(g, steps) + AllRecorded(After(g, steps))
    decreases |steps|
  {
    if steps != [] {
      var front, last := steps[..|steps| - 1], steps[|steps| - 1];
      RunEnds(g, front);
      assert front + [last] == steps;
      StepTied(After(g, front), front, last);
      StepEnds(After(g, front), front, last);
      Associative(Completions(g, front), AllRecorded(After(g, front)), Ends(front, last));
      Associative(Completions(g, front), if last.Process? then [Recorded(After(g, front), After(g, front).returned[0])]
                                         else [], AllRecorded(After(g, steps)));
    }
  }

  /**
   End to end: in every run of a queue from the constructor on, the completions that the driver
   hands out are, in order, those that the device ended: each is the request that was posted last
   at the head, with the length that the device returned; the others are still in the used ring.
   */
  lemma CompletionsAreRight(size: nat, steps: seq<Step>)
    requires IsRun(InitialGhost(size), steps)
    ensures Completions(InitialGhost(size), steps) <= Ended(steps)
    ensures |Ended(steps)| == |Completions(InitialGhost(size), steps)| + |After(InitialGhost(size), steps).returned|
  {
    RunEnds(InitialGhost(size), steps);
  }
}

/** What the operations of the shootdown protocol achieve: each of them ends, and does what it is for. */
module ShootdownProgress {
  import opened Sequences
  import opened Shootdown
  import opened ShootdownInvariant
  import opened ShootdownSafety
  import opened ShootdownSubmit
  import opened ShootdownTheorems

  // ---- Every operation ends ----

  function Last(st: State, s: nat): nat
    requires s < |st.spaces|
  {
    st.spaces[s].shootSequence
  }

  /** How many sequences of space s come after node n. */
  function Ahead(st: State, s: nat, n: nat): nat
    requires s < |st.spaces| && n < |st.nodes|
  {
    if st.nodes[n].sequence <= st.spaces[s].shootSequence then st.spaces[s].shootSequence - st.nodes[n].sequence else 0
  }

  /** A bound for the steps that CPU c still takes in its current operation. */
  ghost function Rank(st: State, c: nat): nat
    requires WellFormed(st) && c < |st.cpus|
  {
    assert PcWellFormed(st, st.cpus[c]);
    match st.cpus[c]
    case Idle => 0
    case SwitchTable(_, from, _) => if from < 0 then 1 else 6 * Last(st, from) + 10
    case Detach(_, s, _, _) => 6 * Last(st, s) + 9
    case LoadTail(job) => 6 * Last(st, job.space) + 8
    case LoadPrev(job, cur) => 5 * Last(st, job.space) + st.nodes[cur].sequence + 7
    case LoadNext(job, cur) => 5 * Ahead(st, job.space, cur) + 6
    case Visit(job, cur, _) => 5 * Ahead(st, job.space, cur) + 5
    case Decrement(job, cur, _) => 5 * Ahead(st, job.space, cur) + 4
    case Erase(job, cur, _) => 5 * Ahead(st, job.space, cur) + 3
    case Complete(job, cur, _) => 5 * Ahead(st, job.space, cur) + 2
    case Finish(_) => 1
    case FinishRetire(_) => 1
  }

  /** What a step of CPU c inside an operation leaves alone. */
  ghost predicate Inside(st: State, st': State, c: nat) {
    && |st'.cpus| == |st.cpus| && |st'.bindings| == |st.bindings| && |st'.spaces| == |st.spaces|
    && |st'.nodes| == |st.nodes|
    && (forall d :: 0 <= d < |st.cpus| && d != c ==> st'.cpus[d] == st.cpus[d])
    && (forall s :: 0 <= s < |st.spaces| ==>
          && st'.spaces[s].shootSequence == st.spaces[s].shootSequence && st'.spaces[s].table == st.spaces[s].table
          && st'.spaces[s].wantToRetire == st.spaces[s].wantToRetire && st'.spaces[s].retired == st.spaces[s].retired
          && st'.spaces[s].retireHolder in {st.spaces[s].retireHolder, c, -1})
    && (forall n :: 0 <= n < |st.nodes| ==>
          && st'.nodes[n].space == st.nodes[n].space && st'.nodes[n].sequence == st.nodes[n].sequence
          && st'.nodes[n].Submitted() == st.nodes[n].Submitted() && st'.nodes[n].initiator == st.nodes[n].initiator
          && st'.nodes[n].first == st.nodes[n].first && st'.nodes[n].count == st.nodes[n].count
          && st'.nodes[n].table == st.nodes[n].table && st'.nodes[n].waiting <= st.nodes[n].waiting)
    && (forall b :: 0 <= b < |st.bindings| ==> st'.bindings[b].cpu == st.bindings[b].cpu)
  }

  lemma EraseInside(st: State, c: nat, job: Job, cur: nat, nxt: int)
    requires WellFormed(st) && c < |st.cpus| && JobWellFormed(st, job) && cur < |st.nodes| && st.nodes[cur].Submitted()
    ensures Inside(st, StepErase(st, c, job, cur, nxt), c)
  {
    EraseNodes(st, c, job, cur, nxt);
  }

  /** Unlinking changes the links of the neighbours and the phase of the node. */
  lemma EraseNodes(st: State, c: nat, job: Job, cur: nat, nxt: int)
    requires WellFormed(st) && c < |st.cpus| && JobWellFormed(st, job) && cur < |st.nodes| && st.nodes[cur].Submitted()
    ensures var nodes := StepErase(st, c, job, cur, nxt).nodes;
            && |nodes| == |st.nodes|
            && forall n :: 0 <= n < |nodes| ==>
                 && nodes[n] == st.nodes[n].(prev := nodes[n].prev, next := nodes[n].next, phase := nodes[n].phase,
                                             erasedAt := nodes[n].erasedAt)
                 && nodes[n].Submitted() == st.nodes[n].Submitted()
  {
  }

  lemma NodeStepInside(st: State, st': State, c: nat, cur: nat)
    requires c < |st.cpus| == |st'.cpus| && cur < |st.nodes| == |st'.nodes| && |st'.bindings| == |st.bindings|
    requires st' == st.(cpus := st.cpus[c := st'.cpus[c]], nodes := st.nodes[cur := st'.nodes[cur]],
                        bindings := st'.bindings)
    requires forall b :: 0 <= b < |st.bindings| ==> st'.bindings[b].cpu == st.bindings[b].cpu
    requires var x, x' := st.nodes[cur], st'.nodes[cur];
      && x' == x.(bindingsToShoot := x'.bindingsToShoot, waiting := x'.waiting, phase := x'.phase, owner := x'.owner,
                  completions := x'.completions)
      && x'.waiting <= x.waiting && x'.Submitted() == x.Submitted()
    ensures Inside(st, st', c)
  {
  }

  lemma OwnStepInside(st: State, st': State, c: nat)
    requires c < |st.cpus| == |st'.cpus| && |st'.bindings| == |st.bindings| && |st'.spaces| == |st.spaces|
    requires st' == st.(cpus := st.cpus[c := st'.cpus[c]], bindings := st'.bindings, spaces := st'.spaces)
    requires forall b :: 0 <= b < |st.bindings| ==> st'.bindings[b].cpu == st.bindings[b].cpu
    requires forall s :: 0 <= s < |st.spaces| ==>
      var x, x' := st.spaces[s], st'.spaces[s];
      x' == x.(numBindings := x'.numBindings, attached := x'.attached, retireNode := x'.retireNode,
               retireHolder := x'.retireHolder, retireCompletions := x'.retireCompletions)
      && x'.retireHolder in {x.retireHolder, c, -1}
    ensures Inside(st, st', c)
  {
  }

  lemma ScanInside(st: State, st': State, c: nat)
    requires WellFormed(st) && c < |st.cpus|
    requires st.cpus[c].LoadTail? || st.cpus[c].LoadPrev? || st.cpus[c].LoadNext? || st.cpus[c].Visit?
    requires st' == StepAdvance(st, c)
    ensures Inside(st, st', c)
  {
    assert PcWellFormed(st, st.cpus[c]);
    OwnStepInside(st, st', c);
  }

  lemma SettleInside(st: State, st': State, c: nat)
    requires WellFormed(st) && c < |st.cpus| && PcInv(st, c) && (st.cpus[c].Decrement? || st.cpus[c].Complete?)
    requires st' == StepAdvance(st, c)
    ensures Inside(st, st', c)
  {
    assert PcWellFormed(st, st.cpus[c]);
    NodeStepInside(st, st', c, st.cpus[c].cur);
  }

  lemma AdvanceInside(st: State, c: nat)
    requires WellFormed(st) && c < |st.cpus| && !st.cpus[c].Idle? && PcInv(st, c)
    ensures Inside(st, StepAdvance(st, c), c)
  {
    assert PcWellFormed(st, st.cpus[c]);
    var st' := StepAdvance(st, c);
    var pc := st.cpus[c];
    if pc.LoadTail? || pc.LoadPrev? || pc.LoadNext? || pc.Visit? {
      ScanInside(st, st', c);
    } else if pc.Decrement? || pc.Complete? {
      SettleInside(st, st', c);
    } else if pc.Erase? {
      EraseInside(st, c, pc.job, pc.cur, pc.nxt);
    } else {
      EntryInside(st, st', c);
    }
  }

  lemma EntryInside(st: State, st': State, c: nat)
    requires WellFormed(st) && c < |st.cpus|
    requires st.cpus[c].SwitchTable? || st.cpus[c].Detach? || st.cpus[c].Finish? || st.cpus[c].FinishRetire?
    requires st' == StepAdvance(st, c)
    ensures Inside(st, st', c)
  {
    assert PcWellFormed(st, st.cpus[c]);
    OwnStepInside(st, st', c);
  }

  /** A traversal that leaves node cur has come closer to the back of the queue. */
  lemma MovesOn(st: State, st': State, c: nat, job: Job, job': Job, cur: nat, nxt: int)
    requires WellFormed(st) && WellFormed(st') && ListInv(st) && Inside(st, st', c) && c < |st.cpus|
    requires job.space < |st.spaces| && job'.space == job.space
    requires cur < |st.nodes| && -1 <= nxt < |st.nodes| && Reachable(st, job, cur) && NextNodeOk(st, job, cur, nxt)
    requires st'.cpus[c] == MovedOn(job', nxt)
    ensures Rank(st', c) < 5 * Ahead(st, job.space, cur) + 2
  {
    assert SequenceOk(st, cur);
    if nxt >= 0 { assert SequenceOk(st, nxt); }
  }

  lemma AdvanceDescends(st: State, c: nat)
    requires Inv(st) && c < |st.cpus| && !st.cpus[c].Idle?
    ensures Inv(StepAdvance(st, c)) && Inside(st, StepAdvance(st, c), c)
    ensures Rank(StepAdvance(st, c), c) < Rank(st, c)
  {
    var st' := StepAdvance(st, c);
    KeepAdvance(st, c);
    AdvanceInside(st, c);
    ScanDescends(st, st', c);
  }

  lemma ScanDescends(st: State, st': State, c: nat)
    requires WellFormed(st) && WellFormed(st') && ListInv(st) && c < |st.cpus| && !st.cpus[c].Idle?
    requires PcInv(st, c) && Inside(st, st', c) && st' == StepAdvance(st, c)
    ensures Rank(st', c) < Rank(st, c)
  {
    assert PcWellFormed(st, st.cpus[c]);
    var pc := st.cpus[c];
    if pc.LoadTail? {
      TailDescends(st, st', c);
    } else if pc.LoadPrev? {
      PrevDescends(st, st', c);
    } else if pc.Visit? || pc.Decrement? || pc.Complete? {
      NodeDescends(st, st', c);
    }
  }

  lemma TailDescends(st: State, st': State, c: nat)
    requires WellFormed(st) && WellFormed(st') && ListInv(st) && c < |st.cpus| && st.cpus[c].LoadTail?
    requires Inside(st, st', c) && JobWellFormed(st, st.cpus[c].job) && st' == StepLoadTail(st, c, st.cpus[c].job)
    ensures Rank(st', c) < Rank(st, c)
  {
    var job := st.cpus[c].job;
    assert TailOk(st, job.space);
    if st.spaces[job.space].tail >= 0 { assert SequenceOk(st, st.spaces[job.space].tail); }
  }

  lemma PrevDescends(st: State, st': State, c: nat)
    requires WellFormed(st) && WellFormed(st') && ListInv(st) && c < |st.cpus| && st.cpus[c].LoadPrev?
    requires Inside(st, st', c) && PcInv(st, c) && st.cpus[c].cur < |st.nodes|
    requires st' == StepLoadPrev(st, c, st.cpus[c].job, st.cpus[c].cur)
    ensures Rank(st', c) < Rank(st, c)
  {
    var job, cur := st.cpus[c].job, st.cpus[c].cur;
    assert PrevOk(st, cur) && SequenceOk(st, cur);
  }

  lemma NodeDescends(st: State, st': State, c: nat)
    requires WellFormed(st) && WellFormed(st') && ListInv(st) && c < |st.cpus|
    requires st.cpus[c].Visit? || st.cpus[c].Decrement? || st.cpus[c].Complete?
    requires Inside(st, st', c) && PcInv(st, c) && st' == StepAdvance(st, c)
    ensures Rank(st', c) < Rank(st, c)
  {
    assert PcWellFormed(st, st.cpus[c]);
    var job, cur, nxt := st.cpus[c].job, st.cpus[c].cur, st.cpus[c].nxt;
    var job' := if st.cpus[c].Complete? then job else job.(lo := st.nodes[cur].sequence);
    if st'.cpus[c] == MovedOn(job', nxt) { MovesOn(st, st', c, job, job', cur, nxt); }
  }

  /** The same step of CPU c, k times. */
  function Advances(c: nat, k: nat): seq<Step> { seq(k, _ => Advance(c)) }

  /** CPU c goes on alone until its operation is over. */
  ghost function ToIdle(st: State, c: nat): (st': State)
    requires Inv(st) && c < |st.cpus|
    ensures Inv(st') && Inside(st, st', c) && st'.cpus[c].Idle?
    decreases Rank(st, c)
  {
    if st.cpus[c].Idle? then st
    else
      AdvanceDescends(st, c);
      ToIdle(StepAdvance(st, c), c)
  }

  lemma Prepend(st: State, step: Step, steps: seq<Step>)
    requires WellFormed(st) && Enabled(st, step) && IsRun(Next(st, step), steps)
    ensures IsRun(st, [step] + steps) && After(st, [step] + steps) == After(Next(st, step), steps)
  {
    assert ([step] + steps)[1..] == steps;
  }

  /** Every operation ends: that takes a number of steps of its CPU that is bounded when it starts. */
  lemma {:induction false} OperationEnds(st: State, c: nat) returns (k: nat)
    requires Inv(st) && c < |st.cpus|
    ensures k <= Rank(st, c) && IsRun(st, Advances(c, k)) && After(st, Advances(c, k)) == ToIdle(st, c)
    decreases Rank(st, c)
  {
    if st.cpus[c].Idle? { return 0; }
    AdvanceDescends(st, c);
    var j := OperationEnds(StepAdvance(st, c), c);
    EndsLater(st, c, j);
    k := j + 1;
  }

  lemma EndsLater(st: State, c: nat, j: nat)
    requires WellFormed(st) && c < |st.cpus| && !st.cpus[c].Idle? && IsRun(StepAdvance(st, c), Advances(c, j))
    ensures IsRun(st, Advances(c, j + 1))
    ensures After(st, Advances(c, j + 1)) == After(StepAdvance(st, c), Advances(c, j))
  {
    Prepend(st, Advance(c), Advances(c, j));
    assert [Advance(c)] + Advances(c, j) == Advances(c, j + 1);
  }

  // ---- The IPI handler ----

  /** doShootdown_() of binding b on space s, with the whole queue before it. */
  ghost predicate Serves(st: State, c: nat, b: nat, s: nat)
    requires c < |st.cpus| && s < |st.spaces|
  {
    var pc := st.cpus[c];
    && HasJob(pc) && pc.job.kind.Process? && pc.job.binding == b && pc.job.space == s
    && (pc.LoadTail? || pc.job.goal == st.spaces[s].shootSequence)
  }

  /** No node of space s waits for binding b. */
  ghost predicate Served(st: State, b: nat, s: nat) {
    forall n :: 0 <= n < |st.nodes| && st.nodes[n].space == s ==> b !in st.nodes[n].waiting
  }

  lemma ServeStep(st: State, c: nat, b: nat, s: nat)
    requires Inv(st) && c < |st.cpus| && s < |st.spaces| && b < |st.bindings| && Serves(st, c, b, s)
    requires Inv(StepAdvance(st, c)) && Inside(st, StepAdvance(st, c), c)
    ensures var st' := StepAdvance(st, c);
            && (if st'.cpus[c].Idle? then Served(st', b, s) else Serves(st', c, b, s))
            && st'.bindings[b].boundSpace == st.bindings[b].boundSpace
  {
    var st' := StepAdvance(st, c);
    assert PcWellFormed(st, st.cpus[c]) && PcInv(st, c);
    if st'.cpus[c].Idle? {
      forall n | 0 <= n < |st'.nodes| && st'.nodes[n].space == s ensures b !in st'.nodes[n].waiting {
        if st.nodes[n].Submitted() {
          assert SequenceOk(st, n);
          ReturnServes(st, st', c, n);
        } else {
          assert NodeInv(st', n);
        }
      }
    }
  }

  lemma {:induction false} ServesAll(st: State, c: nat, b: nat, s: nat)
    requires Inv(st) && c < |st.cpus| && s < |st.spaces| && b < |st.bindings| && Serves(st, c, b, s)
    ensures Served(ToIdle(st, c), b, s) && ToIdle(st, c).bindings[b].boundSpace == st.bindings[b].boundSpace
    decreases Rank(st, c)
  {
    AdvanceDescends(st, c);
    ServeStep(st, c, b, s);
    var st' := StepAdvance(st, c);
    if !st'.cpus[c].Idle? { ServesAll(st', c, b, s); }
  }

  /** What an operation on binding b leaves alone of the other bindings. */
  ghost predicate OthersStay(st: State, st': State, b: nat) {
    && |st'.bindings| == |st.bindings| && |st'.spaces| == |st.spaces|
    && (forall a: nat :: a < |st.bindings| && a != b ==> st'.bindings[a] == st.bindings[a])
    && (forall s, a: nat :: 0 <= s < |st.spaces| && a != b ==>
          (a in st'.spaces[s].attached <==> a in st.spaces[s].attached))
  }

  lemma StepOthers(st: State, c: nat, b: nat)
    requires WellFormed(st) && c < |st.cpus| && Concerns(st.cpus[c], b)
    ensures OthersStay(st, StepAdvance(st, c), b)
  {
    assert PcWellFormed(st, st.cpus[c]);
  }

  lemma StaysConcerned(st: State, c: nat, b: nat)
    requires WellFormed(st) && c < |st.cpus| && Concerns(st.cpus[c], b)
    ensures var st' := StepAdvance(st, c);
            c < |st'.cpus| && (Concerns(st'.cpus[c], b) || st'.cpus[c].Idle?)
  {
    assert PcWellFormed(st, st.cpus[c]);
  }

  lemma {:induction false} OthersStayToIdle(st: State, c: nat, b: nat)
    requires Inv(st) && c < |st.cpus| && (Concerns(st.cpus[c], b) || st.cpus[c].Idle?)
    ensures OthersStay(st, ToIdle(st, c), b)
    decreases Rank(st, c)
  {
    if !st.cpus[c].Idle? {
      AdvanceDescends(st, c);
      StepOthers(st, c, b);
      StaysConcerned(st, c, b);
      OthersStayToIdle(StepAdvance(st, c), c, b);
    }
  }

  /** unbind() of binding b, from its flush on. */
  ghost predicate Unbinds(pc: Pc, b: nat) {
    || (pc.Detach? && pc.binding == b && pc.kind.DrainAfterUnbind?)
    || UnbindDrains(pc, b)
  }

  lemma UnbindStep(st: State, c: nat, b: nat)
    requires WellFormed(st) && c < |st.cpus| && b < |st.bindings| && Unbinds(st.cpus[c], b)
    ensures var st' := StepAdvance(st, c);
            && c < |st'.cpus| && b < |st'.bindings|
            && (Unbinds(st'.cpus[c], b) || (st'.cpus[c].Idle? && st'.bindings[b].boundSpace == -1))
  {
    assert PcWellFormed(st, st.cpus[c]);
  }

  lemma {:induction false} UnbindsToIdle(st: State, c: nat, b: nat)
    requires Inv(st) && c < |st.cpus| && b < |st.bindings|
    requires Unbinds(st.cpus[c], b) || (st.cpus[c].Idle? && st.bindings[b].boundSpace == -1)
    ensures ToIdle(st, c).bindings[b].boundSpace == -1
    decreases Rank(st, c)
  {
    if !st.cpus[c].Idle? {
      AdvanceDescends(st, c);
      UnbindStep(st, c, b);
      UnbindsToIdle(StepAdvance(st, c), c, b);
    }
  }

  /** rebind() of binding b to space s, from its first lock section on. */
  ghost predicate Binds(st: State, c: nat, b: nat, s: nat)
    requires c < |st.cpus| && b < |st.bindings|
  {
    var pc := st.cpus[c];
    && st.bindings[b].boundSpace == s
    && (|| (pc.SwitchTable? && pc.binding == b)
        || (&& st.bindings[b].tlbSpace == s
            && (|| pc.Idle?
                || (pc.Detach? && pc.binding == b && pc.kind.DrainAfterRebind?)
                || (HasJob(pc) && pc.job.binding == b && pc.job.kind.DrainAfterRebind?))))
  }

  lemma BindStep(st: State, c: nat, b: nat, s: nat)
    requires WellFormed(st) && c < |st.cpus| && b < |st.bindings| && Binds(st, c, b, s) && !st.cpus[c].Idle?
    ensures var st' := StepAdvance(st, c); c < |st'.cpus| && b < |st'.bindings| && Binds(st', c, b, s)
  {
    assert PcWellFormed(st, st.cpus[c]);
  }

  lemma {:induction false} BindsToIdle(st: State, c: nat, b: nat, s: nat)
    requires Inv(st) && c < |st.cpus| && b < |st.bindings| && Binds(st, c, b, s)
    ensures Binds(ToIdle(st, c), c, b, s)
    decreases Rank(st, c)
  {
    if !st.cpus[c].Idle? {
      AdvanceDescends(st, c);
      BindStep(st, c, b, s);
      BindsToIdle(StepAdvance(st, c), c, b, s);
    }
  }

  // ---- What the operations achieve ----

  lemma Started(st: State, step: Step)
    requires Inv(st) && Enabled(st, step)
    ensures Inv(Next(st, step)) && |Next(st, step).cpus| == |st.cpus|
  {
    KeepStep(st, step);
    SameCpus(st, step);
  }

  lemma SameCpus(st: State, step: Step)
    requires WellFormed(st) && Enabled(st, step)
    ensures |Next(st, step).cpus| == |st.cpus|
  {
    if step.Advance? { assert PcWellFormed(st, st.cpus[step.cpu]); }
  }

  /** A step that starts an operation of CPU c, and the steps of that CPU until it is over. */
  ghost function Perform(st: State, step: Step, c: nat): (st': State)
    requires Inv(st) && Enabled(st, step) && c < |st.cpus|
    ensures Inv(st') && |st'.cpus| == |st.cpus| && st'.cpus[c].Idle?
  {
    Started(st, step);
    ToIdle(Next(st, step), c)
  }

  /** Binding b has nothing to do with space s. */
  ghost predicate IsDetached(st: State, b: nat, s: nat)
    requires b < |st.bindings| && s < |st.spaces|
  {
    b !in st.spaces[s].attached && st.bindings[b].tlbSpace != s && Served(st, b, s)
  }

  /** An idle binding is attached to its space and to no other. */
  lemma IdleBinding(st: State, b: nat)
    requires Inv(st) && b < |st.bindings| && st.cpus[st.bindings[b].cpu].Idle?
    ensures forall s :: 0 <= s < |st.spaces| ==>
              if st.bindings[b].boundSpace == s then b in st.spaces[s].attached else IsDetached(st, b, s)
  {
    assert AttachInv(st, b) && WaitInv(st, b);
    forall s | 0 <= s < |st.spaces| && st.bindings[b].boundSpace != s ensures Served(st, b, s) {
      forall n | 0 <= n < |st.nodes| && st.nodes[n].space == s ensures b !in st.nodes[n].waiting {
        assert !Owes(st, b, n);
      }
    }
  }

  /** Whoever is not waited for by an idle CPU's binding is not stale there. */
  lemma ServedIsFresh(st: State, b: nat, s: nat)
    requires Inv(st) && b < |st.bindings| && st.cpus[st.bindings[b].cpu].Idle? && Served(st, b, s)
    ensures forall n :: 0 <= n < |st.nodes| && st.nodes[n].space == s ==> !HoldsStale(st, b, n)
  {
    assert TlbInv(st, b);
    forall n | 0 <= n < |st.nodes| && st.nodes[n].space == s ensures !HoldsStale(st, b, n) {
      if st.bindings[b].tlbSpace == s { assert Fresh(st.bindings[b].tlb, st.nodes[n]); }
    }
  }

  /** A state of some run. */
  ghost predicate Reached(st: State) {
    exists init: State, steps: seq<Step> :: Initial(init) && IsRun(init, steps) && After(init, steps) == st
  }

  lemma ReachedInv(st: State)
    requires Reached(st)
    ensures Inv(st)
  {
    var init: State, steps: seq<Step> :| Initial(init) && IsRun(init, steps) && After(init, steps) == st;
    InitialInv(init);
    RunKeepsInv(init, steps);
  }

  /** Perform() is a run of the protocol, of bounded length. */
  lemma PerformIsRun(st: State, step: Step, c: nat) returns (k: nat)
    requires Inv(st) && Enabled(st, step) && c < |st.cpus|
    ensures Inv(Next(st, step)) && c < |Next(st, step).cpus| && k <= Rank(Next(st, step), c)
    ensures IsRun(st, [step] + Advances(c, k)) && After(st, [step] + Advances(c, k)) == Perform(st, step, c)
  {
    Started(st, step);
    k := OperationEnds(Next(st, step), c);
    Prepend(st, step, Advances(c, k));
  }

  lemma IpiStarts(st: State, b: nat)
    requires Inv(st) && Enabled(st, ShootdownIpi(b)) && 0 <= st.bindings[b].boundSpace
    ensures var st1, c, s := StepShootdownIpi(st, b), st.bindings[b].cpu, st.bindings[b].boundSpace;
            && Inv(st1) && Inside(st, st1, c) && OthersStay(st, st1, b) && Concerns(st1.cpus[c], b)
            && st1.bindings[b].boundSpace == s && Rank(st1, c) <= 6 * Last(st, s) + 9
            && if st.spaces[s].wantToRetire then Unbinds(st1.cpus[c], b) else Serves(st1, c, b, s)
  {
    KeepStep(st, ShootdownIpi(b));
  }

  lemma InsideTwice(st: State, st': State, st'': State, c: nat)
    requires Inside(st, st', c) && Inside(st', st'', c)
    ensures Inside(st, st'', c)
  {
  }

  lemma OthersStayTwice(st: State, st': State, st'': State, b: nat)
    requires OthersStay(st, st', b) && OthersStay(st', st'', b)
    ensures OthersStay(st, st'', b)
  {
  }

  lemma IpiEnds(st: State, b: nat)
    requires Inv(st) && Enabled(st, ShootdownIpi(b)) && 0 <= st.bindings[b].boundSpace
    ensures Served(Perform(st, ShootdownIpi(b), st.bindings[b].cpu), b, st.bindings[b].boundSpace)
    ensures var st', s := Perform(st, ShootdownIpi(b), st.bindings[b].cpu), st.bindings[b].boundSpace;
            && Inside(st, st', st.bindings[b].cpu) && OthersStay(st, st', b)
            && st'.bindings[b].boundSpace == if st.spaces[s].wantToRetire then -1 else s
  {
    IpiStarts(st, b);
    IpiFinishes(st, StepShootdownIpi(st, b), st.bindings[b].cpu, b, st.bindings[b].boundSpace);
  }

  lemma IpiFinishes(st: State, st1: State, c: nat, b: nat, s: nat)
    requires Inv(st1) && c < |st1.cpus| && b < |st1.bindings| && s < |st1.spaces| && st1.bindings[b].cpu == c
    requires Inside(st, st1, c) && OthersStay(st, st1, b) && Concerns(st1.cpus[c], b) && st1.bindings[b].boundSpace == s
    requires if st1.spaces[s].wantToRetire then Unbinds(st1.cpus[c], b) else Serves(st1, c, b, s)
    ensures var st' := ToIdle(st1, c);
            && Inside(st, st', c) && OthersStay(st, st', b) && Served(st', b, s)
            && st'.bindings[b].boundSpace == if st1.spaces[s].wantToRetire then -1 else s
  {
    var st' := ToIdle(st1, c);
    OthersStayToIdle(st1, c, b);
    InsideTwice(st, st1, st', c);
    OthersStayTwice(st, st1, st', b);
    if st1.spaces[s].wantToRetire {
      UnbindEnds(st, st1, c, b);
      assert IsDetached(st', b, s);
    } else {
      ServesAll(st1, c, b, s);
    }
  }

  /**
   One run of the IPI handler is enough: it ends after a bounded number of steps of its CPU.
   Then no node of the space that was submitted before waits for the binding, which holds no
   stale translation for any of them; it is still bound, unless the space wants to retire.
   */
  lemma IpiServes(st: State, b: nat) returns (k: nat)
    requires Reached(st) && WellFormed(st) && Enabled(st, ShootdownIpi(b)) && 0 <= st.bindings[b].boundSpace
    ensures k <= 6 * Last(st, st.bindings[b].boundSpace) + 9
    ensures IsRun(st, [ShootdownIpi(b)] + Advances(st.bindings[b].cpu, k))
    ensures var st' := After(st, [ShootdownIpi(b)] + Advances(st.bindings[b].cpu, k));
            var s := st.bindings[b].boundSpace;
            && |st'.nodes| == |st.nodes| && |st'.bindings| == |st.bindings| && |st'.spaces| == |st.spaces|
            && IsIdle(st', st.bindings[b].cpu)
            && (forall n :: 0 <= n < |st.nodes| && st.nodes[n].space == s ==>
                  st'.nodes[n].space == s && b !in st'.nodes[n].waiting && !HoldsStale(st', b, n))
            && (if st.spaces[s].wantToRetire then st'.bindings[b].boundSpace == -1 && IsDetached(st', b, s)
                else st'.bindings[b].boundSpace == s && b in st'.spaces[s].attached)
  {
    ReachedInv(st);
    IpiStarts(st, b);
    IpiEnds(st, b);
    var c, s := st.bindings[b].cpu, st.bindings[b].boundSpace;
    k := PerformIsRun(st, ShootdownIpi(b), c);
    var st' := Perform(st, ShootdownIpi(b), c);
    ServedIsFresh(st', b, s);
    IdleBinding(st', b);
  }

  // ---- IPIs on several CPUs ----

  ghost predicate AllIdle(st: State) { forall c :: 0 <= c < |st.cpus| ==> st.cpus[c].Idle? }

  /** The handlers of several bindings, one after the other. */
  ghost function HandleAll(st: State, bs: seq<nat>): (st': State)
    requires Inv(st) && AllIdle(st) && forall i :: 0 <= i < |bs| ==> bs[i] < |st.bindings|
    ensures Inv(st') && AllIdle(st')
    decreases |bs|
  {
    if bs == [] then st
    else
      var st1 := HandleIpi(st, bs[0]);
      HandleAll(st1, bs[1..])
  }

  ghost function HandleIpi(st: State, b: nat): (st': State)
    requires Inv(st) && AllIdle(st) && b < |st.bindings|
    ensures Inv(st') && AllIdle(st') && |st'.bindings| == |st.bindings|
  {
    HandleIpiIdle(st, b);
    Perform(st, ShootdownIpi(b), st.bindings[b].cpu)
  }

  /** An unbound binding ignores the IPI. */
  lemma HandleIpiIdle(st: State, b: nat)
    requires Inv(st) && AllIdle(st) && b < |st.bindings|
    ensures Enabled(st, ShootdownIpi(b)) && st.bindings[b].cpu < |st.cpus|
    ensures var st' := Perform(st, ShootdownIpi(b), st.bindings[b].cpu);
            && AllIdle(st') && Inside(st, st', st.bindings[b].cpu) && OthersStay(st, st', b)
            && (st.bindings[b].boundSpace < 0 ==> st' == st)
  {
    if 0 <= st.bindings[b].boundSpace { IpiEnds(st, b); }
  }

  /** After its handler has run, no node at all waits for a binding. */
  lemma HandledIsServed(st: State, b: nat, s: nat)
    requires Inv(st) && AllIdle(st) && b < |st.bindings| && s < |st.spaces|
    ensures Served(HandleIpi(st, b), b, s)
  {
    HandleIpiIdle(st, b);
    if 0 <= st.bindings[b].boundSpace { IpiEnds(st, b); }
    var st' := HandleIpi(st, b);
    if st.bindings[b].boundSpace != s {
      IdleBinding(st', b);
      assert IsDetached(st', b, s);
    }
  }

  lemma HandledNode(st: State, b: nat, n: nat)
    requires Inv(st) && AllIdle(st) && b < |st.bindings| && n < |st.nodes|
    ensures var st' := HandleIpi(st, b);
            && n < |st'.nodes| && st'.nodes[n].Submitted() == st.nodes[n].Submitted()
            && st'.nodes[n].waiting <= st.nodes[n].waiting && b !in st'.nodes[n].waiting
  {
    HandleIpiIdle(st, b);
    HandledIsServed(st, b, st.nodes[n].space);
  }

  /** What has been handled stays handled: nobody waits for more bindings than before. */
  lemma {:induction false} AllServed(st: State, bs: seq<nat>, n: nat)
    requires Inv(st) && AllIdle(st) && (forall i :: 0 <= i < |bs| ==> bs[i] < |st.bindings|) && n < |st.nodes|
    ensures n < |HandleAll(st, bs).nodes| && HandleAll(st, bs).nodes[n].Submitted() == st.nodes[n].Submitted()
    ensures HandleAll(st, bs).nodes[n].waiting <= st.nodes[n].waiting
    ensures forall i :: 0 <= i < |bs| ==> bs[i] !in HandleAll(st, bs).nodes[n].waiting
    decreases |bs|
  {
    if bs != [] {
      var st1 := HandleIpi(st, bs[0]);
      HandledNode(st, bs[0], n);
      AllServed(st1, bs[1..], n);
      assert forall i :: 0 < i < |bs| ==> bs[i] == bs[1..][i - 1];
    }
  }

  lemma NobodyLeft(waiting: set<nat>, waiting': set<nat>, bs: seq<nat>)
    requires waiting' <= waiting && (forall b :: b in waiting ==> b in bs)
    requires forall i :: 0 <= i < |bs| ==> bs[i] !in waiting'
    ensures waiting' == {}
  {
  }

  /**
   A shootdown completes: once the handlers of all bindings that a node waits for have run,
   in any order, its submitter has been told exactly once, and nobody holds a stale translation.
   */
  lemma ShootdownCompletes(st: State, bs: seq<nat>, n: nat)
    requires Reached(st) && WellFormed(st) && AllIdle(st) && n < |st.nodes| && st.nodes[n].Submitted()
    requires forall i :: 0 <= i < |bs| ==> bs[i] < |st.bindings|
    requires forall b :: b in st.nodes[n].waiting ==> b in bs
    ensures Inv(st) && n < |HandleAll(st, bs).nodes|
    ensures HandleAll(st, bs).nodes[n].phase.Completed? && HandleAll(st, bs).nodes[n].completions == 1
    ensures forall b :: 0 <= b < |HandleAll(st, bs).bindings| ==> !HoldsStale(HandleAll(st, bs), b, n)
  {
    ReachedInv(st);
    AllServed(st, bs, n);
    var st' := HandleAll(st, bs);
    assert NodeInv(st', n);
    NobodyLeft(st.nodes[n].waiting, st'.nodes[n].waiting, bs);
    forall b | 0 <= b < |st'.bindings| ensures !HoldsStale(st', b, n) {
      assert TlbInv(st', b);
      if st'.bindings[b].tlbSpace == st'.nodes[n].space { assert Fresh(st'.bindings[b].tlb, st'.nodes[n]); }
    }
  }

  /** The steps lead from one state to another. */
  ghost predicate Leads(st: State, steps: seq<Step>, st': State) { IsRun(st, steps) && After(st, steps) == st' }

  lemma FirstStep(st: State, steps: seq<Step>, st': State)
    requires steps != [] && Leads(st, steps, st')
    ensures WellFormed(st) && Enabled(st, steps[0]) && Leads(Next(st, steps[0]), steps[1..], st')
  {
  }

  lemma StepFirst(st: State, steps: seq<Step>, st': State)
    requires steps != [] && WellFormed(st) && Enabled(st, steps[0]) && Leads(Next(st, steps[0]), steps[1..], st')
    ensures Leads(st, steps, st')
  {
  }

  lemma FirstOfTwo(a: seq<Step>, b: seq<Step>)
    requires a != []
    ensures (a + b)[0] == a[0] && (a + b)[1..] == a[1..] + b
  {
  }

  lemma {:induction false} RunOnwards(st: State, a: seq<Step>, st': State, b: seq<Step>, st'': State)
    requires Leads(st, a, st') && Leads(st', b, st'')
    ensures Leads(st, a + b, st'')
    decreases |a|
  {
    if a == [] {
      assert a + b == b;
    } else {
      FirstStep(st, a, st');
      RunOnwards(Next(st, a[0]), a[1..], st', b, st'');
      FirstOfTwo(a, b);
      StepFirst(st, a + b, st'');
    }
  }

  lemma HandlerRuns(st: State, b: nat) returns (steps: seq<Step>)
    requires Inv(st) && AllIdle(st) && b < |st.bindings|
    ensures IsRun(st, steps) && After(st, steps) == HandleIpi(st, b)
    ensures forall i :: 0 <= i < |steps| ==> steps[i].ShootdownIpi? || steps[i].Advance?
  {
    HandleIpiIdle(st, b);
    var k := PerformIsRun(st, ShootdownIpi(b), st.bindings[b].cpu);
    steps := [ShootdownIpi(b)] + Advances(st.bindings[b].cpu, k);
  }

  /** HandleAll() is a run of the protocol in which the handlers do nothing but their own steps. */
  lemma {:induction false} HandlersRun(st: State, bs: seq<nat>) returns (steps: seq<Step>)
    requires Inv(st) && AllIdle(st) && forall i :: 0 <= i < |bs| ==> bs[i] < |st.bindings|
    ensures IsRun(st, steps) && After(st, steps) == HandleAll(st, bs)
    ensures forall i :: 0 <= i < |steps| ==> steps[i].ShootdownIpi? || steps[i].Advance?
    decreases |bs|
  {
    if bs == [] { return []; }
    var first := HandlerRuns(st, bs[0]);
    var rest := HandlersRun(HandleIpi(st, bs[0]), bs[1..]);
    RunOnwards(st, first, HandleIpi(st, bs[0]), rest, HandleAll(st, bs));
    steps := first + rest;
  }

  // ---- Retirement ----

  lemma HandleRetiring(st: State, b: nat, s: nat)
    requires Inv(st) && AllIdle(st) && s < |st.spaces| && b in st.spaces[s].attached && st.spaces[s].wantToRetire
    ensures b < |st.bindings|
    ensures var st' := HandleIpi(st, b);
            && s < |st'.spaces| && st'.spaces[s].attached == st.spaces[s].attached - {b} && st'.spaces[s].wantToRetire
  {
    assert SpaceInv(st, s) && AttachInv(st, b);
    HandleIpiIdle(st, b);
    IpiEnds(st, b);
    IdleBinding(HandleIpi(st, b), b);
  }

  lemma {:induction false} RetireAll(st: State, s: nat, bs: seq<nat>)
    requires Inv(st) && AllIdle(st) && s < |st.spaces| && st.spaces[s].wantToRetire
    requires NoRepeats(bs) && forall b: nat :: b in bs <==> b in st.spaces[s].attached
    ensures forall i :: 0 <= i < |bs| ==> bs[i] < |st.bindings|
    ensures var st' := HandleAll(st, bs); s < |st'.spaces| && st'.spaces[s].attached == {} && st'.spaces[s].wantToRetire
    decreases |bs|
  {
    assert SpaceInv(st, s);
    forall i | 0 <= i < |bs| ensures bs[i] < |st.bindings| { assert bs[i] in bs; }
    if bs != [] {
      assert bs[0] in bs;
      HandleRetiring(st, bs[0], s);
      var st1 := HandleIpi(st, bs[0]);
      forall b: nat ensures b in bs[1..] <==> b in st1.spaces[s].attached { RestOf(bs, b); }
      RetireAll(st1, s, bs[1..]);
    }
  }

  lemma RestOf(bs: seq<nat>, b: nat)
    requires NoRepeats(bs) && bs != []
    ensures b in bs[1..] <==> b in bs && b != bs[0]
  {
  }

  /** Retired and nothing attached, with all CPUs idle: the RetireNode is complete. */
  lemma RetiredAndFree(st: State, s: nat)
    requires Inv(st) && AllIdle(st) && s < |st.spaces| && st.spaces[s].retired && st.spaces[s].attached == {}
    ensures st.spaces[s].retireCompletions == 1
  {
    assert SpaceInv(st, s);
  }

  /**
   retire() of a space: without bindings its node completes at once. Otherwise the space wants
   to retire, and one IPI per attached binding, in any order, unbinds them all; the node is
   completed once, and not before the last of them.
   */
  lemma RetireCompletes(st: State, c: nat, s: nat, bs: seq<nat>)
    requires Reached(st) && WellFormed(st) && AllIdle(st) && Enabled(st, Retire(c, s))
    requires NoRepeats(bs) && forall b: nat :: b in bs <==> b in st.spaces[s].attached
    ensures Inv(st) && Inv(Perform(st, Retire(c, s), c)) && AllIdle(Perform(st, Retire(c, s), c))
    ensures forall i :: 0 <= i < |bs| ==> bs[i] < |Perform(st, Retire(c, s), c).bindings|
    ensures var st' := HandleAll(Perform(st, Retire(c, s), c), bs);
            && s < |st'.spaces| && st'.spaces[s].attached == {} && st'.spaces[s].numBindings == 0
            && st'.spaces[s].retireCompletions == 1
    ensures forall k :: 0 <= k < |bs| ==> NotYet(Perform(st, Retire(c, s), c), s, bs[..k])
  {
    ReachedInv(st);
    var st1 := Perform(st, Retire(c, s), c);
    RetireStarts(st, c, s);
    if bs != [] {
      assert bs[0] in bs;
      RetireAll(st1, s, bs);
      forall k | 0 <= k < |bs| ensures NotYet(st1, s, bs[..k]) { RetireSome(st1, s, bs, k); }
    }
    RetiredAfter(st1, s, bs);
    RetiredAndFree(HandleAll(st1, bs), s);
    assert SpaceInv(HandleAll(st1, bs), s);
  }

  ghost predicate NotYet(st: State, s: nat, bs: seq<nat>)
    requires Inv(st) && AllIdle(st) && forall i :: 0 <= i < |bs| ==> bs[i] < |st.bindings|
  {
    var st' := HandleAll(st, bs);
    s < |st'.spaces| && st'.spaces[s].retireCompletions == 0
  }

  lemma RetireStarts(st: State, c: nat, s: nat)
    requires Inv(st) && AllIdle(st) && Enabled(st, Retire(c, s))
    ensures var st1 := Perform(st, Retire(c, s), c);
            && AllIdle(st1) && s < |st1.spaces| && |st1.bindings| == |st.bindings| && st1.spaces[s].retired
            && st1.spaces[s].attached == st.spaces[s].attached
            && (st.spaces[s].attached != {} ==> st1.spaces[s].wantToRetire)
  {
    KeepStep(st, Retire(c, s));
    var st0 := Next(st, Retire(c, s));
    assert SpaceInv(st, s);
    if !st0.cpus[c].Idle? {
      KeepAdvance(st0, c);
      var st1 := StepAdvance(st0, c);
      assert ToIdle(st1, c) == st1 && ToIdle(st0, c) == st1;
    }
  }

  lemma {:induction false} RetiredAfter(st: State, s: nat, bs: seq<nat>)
    requires Inv(st) && AllIdle(st) && (forall i :: 0 <= i < |bs| ==> bs[i] < |st.bindings|)
    requires s < |st.spaces| && st.spaces[s].retired
    ensures s < |HandleAll(st, bs).spaces| && HandleAll(st, bs).spaces[s].retired
    decreases |bs|
  {
    if bs != [] {
      HandleIpiIdle(st, bs[0]);
      RetiredAfter(HandleIpi(st, bs[0]), s, bs[1..]);
    }
  }

  lemma NotYetBefore(st: State, s: nat, bs: seq<nat>)
    requires Inv(st) && AllIdle(st) && (forall i :: 0 <= i < |bs| ==> bs[i] < |st.bindings|) && bs != []
    requires NotYet(HandleIpi(st, bs[0]), s, bs[1..])
    ensures NotYet(st, s, bs)
  {
  }

  /** While a binding is attached, the node is not completed. */
  lemma {:induction false} RetireSome(st: State, s: nat, bs: seq<nat>, k: nat)
    requires Inv(st) && AllIdle(st) && s < |st.spaces| && st.spaces[s].wantToRetire && k < |bs|
    requires NoRepeats(bs) && forall b: nat :: b in bs <==> b in st.spaces[s].attached
    ensures forall i :: 0 <= i < |bs[..k]| ==> bs[..k][i] < |st.bindings|
    ensures NotYet(st, s, bs[..k])
    decreases k
  {
    assert SpaceInv(st, s);
    forall i | 0 <= i < |bs| ensures bs[i] < |st.bindings| { assert bs[i] in bs; }
    assert bs[0] in bs;
    if k > 0 {
      HandleRetiring(st, bs[0], s);
      forall b: nat ensures b in bs[1..] <==> b in HandleIpi(st, bs[0]).spaces[s].attached { RestOf(bs, b); }
      RetireSome(HandleIpi(st, bs[0]), s, bs[1..], k - 1);
      assert bs[..k][1..] == bs[1..][..k - 1];
      NotYetBefore(st, s, bs[..k]);
    }
  }

  // ---- Binding and unbinding ----

  lemma RebindStarts(st: State, b: nat, s: nat)
    requires Inv(st) && Enabled(st, Rebind(b, s))
    ensures var st1, c := StepRebind(st, b, s), st.bindings[b].cpu;
            && Inv(st1) && c < |st1.cpus| && b < |st1.bindings| && Binds(st1, c, b, s) && Concerns(st1.cpus[c], b)
            && OthersStay(st, st1, b)
  {
    KeepStep(st, Rebind(b, s));
  }

  lemma UnbindStarts(st: State, b: nat)
    requires Inv(st) && Enabled(st, Unbind(b))
    ensures var st1, c := StepUnbind(st, b), st.bindings[b].cpu;
            && Inv(st1) && c < |st1.cpus| && b < |st1.bindings| && OthersStay(st, st1, b)
            && (if st.bindings[b].boundSpace < 0 then st1 == st else Unbinds(st1.cpus[c], b))
  {
    KeepStep(st, Unbind(b));
  }

  /** rebind(): the binding ends up bound to the new space alone, with nothing stale. */
  lemma RebindBinds(st: State, b: nat, s: nat)
    requires Reached(st) && WellFormed(st) && Enabled(st, Rebind(b, s))
    ensures Inv(st) && st.bindings[b].cpu < |st.cpus|
    ensures var st' := Perform(st, Rebind(b, s), st.bindings[b].cpu);
            && b < |st'.bindings| && |st'.spaces| == |st.spaces|
            && st'.bindings[b].boundSpace == s && st'.bindings[b].tlbSpace == s && b in st'.spaces[s].attached
            && (forall s' :: 0 <= s' < |st.spaces| && s' != s ==> IsDetached(st', b, s'))
            && OthersStay(st, st', b)
  {
    ReachedInv(st);
    RebindStarts(st, b, s);
    var c, st1 := st.bindings[b].cpu, StepRebind(st, b, s);
    BindsToIdle(st1, c, b, s);
    OthersStayToIdle(st1, c, b);
    OthersStayTwice(st, st1, ToIdle(st1, c), b);
    IdleBinding(ToIdle(st1, c), b);
  }

  /** unbind(): afterwards the binding is attached to no space. */
  lemma UnbindUnbinds(st: State, b: nat)
    requires Reached(st) && WellFormed(st) && Enabled(st, Unbind(b))
    ensures Inv(st) && st.bindings[b].cpu < |st.cpus|
    ensures var st' := Perform(st, Unbind(b), st.bindings[b].cpu);
            && b < |st'.bindings| && |st'.spaces| == |st.spaces| && st'.bindings[b].boundSpace == -1
            && (forall s :: 0 <= s < |st.spaces| ==> IsDetached(st', b, s)) && OthersStay(st, st', b)
  {
    ReachedInv(st);
    UnbindStarts(st, b);
    UnbindEnds(st, StepUnbind(st, b), st.bindings[b].cpu, b);
  }

  lemma UnbindEnds(st: State, st1: State, c: nat, b: nat)
    requires Inv(st1) && c < |st1.cpus| && b < |st1.bindings| && st1.bindings[b].cpu == c && OthersStay(st, st1, b)
    requires Unbinds(st1.cpus[c], b) || (st1.cpus[c].Idle? && st1.bindings[b].boundSpace == -1)
    ensures var st' := ToIdle(st1, c);
            && b < |st'.bindings| && |st'.spaces| == |st.spaces| && st'.bindings[b].boundSpace == -1
            && (forall s :: 0 <= s < |st.spaces| ==> IsDetached(st', b, s)) && OthersStay(st, st', b)
  {
    UnbindsToIdle(st1, c, b);
    OthersStayToIdle(st1, c, b);
    OthersStayTwice(st, st1, ToIdle(st1, c), b);
    IdleBinding(ToIdle(st1, c), b);
  }

  /** initialBind(): the global binding of the CPU is attached to the kernel space. */
  lemma InitialBindBinds(st: State, c: nat)
    requires Reached(st) && WellFormed(st) && Enabled(st, InitialBind(c))
    ensures var st' := Next(st, InitialBind(c));
            && st'.bindings[c].boundSpace == KERNEL && st'.bindings[c].tlbSpace == KERNEL
            && st'.spaces[KERNEL].attached == st.spaces[KERNEL].attached + {c} && OthersStay(st, st', c)
            && Served(st', c, KERNEL)
  {
    ReachedInv(st);
    KeepStep(st, InitialBind(c));
    var st' := Next(st, InitialBind(c));
    assert WaitInv(st', c);
    forall n | 0 <= n < |st'.nodes| && st'.nodes[n].space == KERNEL ensures c !in st'.nodes[n].waiting {
      if st'.nodes[n].Submitted() { assert SequenceOk(st', n); }
      assert !Owes(st', c, n);
    }
  }

  /**
   submitShootdown(): the node is for the pages and the space that were asked for, and waits for
   exactly the bindings of other CPUs that are attached to the space; it is finished at once
   exactly if there is none.
   */
  lemma SubmitQueues(st: State, c: nat, s: nat, first: nat, count: nat)
    requires Reached(st) && WellFormed(st) && Enabled(st, Submit(c, s, first, count))
    ensures var st' := Next(st, Submit(c, s, first, count));
            && |st'.nodes| == |st.nodes| + 1
            && var node := st'.nodes[|st.nodes|];
               && node.space == s && node.first == first && node.count == count && node.initiator == c
               && node.table == st.spaces[s].table
               && (forall b: nat :: b in node.waiting <==>
                     b < |st.bindings| && b in st.spaces[s].attached && st.bindings[b].cpu != c)
               && (Done(node) <==> node.waiting == {})
  {
    ReachedInv(st);
    UnshotCount(st, c, s);
    assert SpaceInv(st, s);
    forall b: nat | b < |st.bindings| ensures b in SyncShot(st, c, s) <==>
      b in st.spaces[s].attached && st.bindings[b].cpu == c { SyncShotIsOwn(st, c, s, b); }
    NewNodeFields(st, c, s, first, count);
  }

  lemma NewNodeFields(st: State, c: nat, s: nat, first: nat, count: nat)
    requires WellFormed(st) && s < |st.spaces|
    requires st.spaces[s].numBindings - |SyncShot(st, c, s)| == |st.spaces[s].attached - SyncShot(st, c, s)|
    ensures var st' := StepSubmit(st, c, s, first, count);
            && |st'.nodes| == |st.nodes| + 1
            && var node := st'.nodes[|st.nodes|];
               && node.space == s && node.first == first && node.count == count && node.initiator == c
               && node.table == st.spaces[s].table && node.waiting == st.spaces[s].attached - SyncShot(st, c, s)
               && (Done(node) <==> node.waiting == {})
  {
  }

  /** invalidateNode() drops the pages of the node and no others, unless it flushes the whole ASID. */
  lemma InvalidatesExactly(tlb: map<nat, nat>, isGlobal: bool, first: nat, count: nat, page: nat)
    ensures var tlb' := InvalidateNode(tlb, isGlobal, first, count);
            && (page in tlb' ==> page in tlb && tlb'[page] == tlb[page])
            && (page in tlb && page !in tlb' <==>
                  page in tlb && (first <= page < first + count || (!isGlobal && count >= FULL_FLUSH_PAGES)))
  {
  }

  /** Until it is served, a binding of another CPU may well use a translation that is stale. */
  lemma StaleUntilServed(st: State, c: nat, b: nat, page: nat)
    requires Reached(st) && WellFormed(st) && b < |st.bindings| && 0 <= st.bindings[b].tlbSpace
    requires st.bindings[b].cpu != c && Enabled(st, Submit(c, st.bindings[b].tlbSpace, page, 1))
    ensures var s := st.bindings[b].tlbSpace;
            var steps := [FillTlb(b, page), WritePage(s, page), Submit(c, s, page, 1)];
            && IsRun(st, steps) && |After(st, steps).nodes| == |st.nodes| + 1
            && |After(st, steps).bindings| == |st.bindings|
            && HoldsStale(After(st, steps), b, |st.nodes|) && !Done(After(st, steps).nodes[|st.nodes|])
  {
    var s := st.bindings[b].tlbSpace;
    ReachedInv(st);
    WriteMakesStale(st, b, page);
    var st1 := Next(st, FillTlb(b, page));
    var st2 := Next(st1, WritePage(s, page));
    StaleNode(st2, Next(st2, Submit(c, s, page, 1)), c, b, page);
    ThreeSteps(st, FillTlb(b, page), WritePage(s, page), Submit(c, s, page, 1));
  }

  lemma ThreeSteps(st: State, a: Step, b: Step, c: Step)
    requires WellFormed(st) && Enabled(st, a) && WellFormed(Next(st, a)) && Enabled(Next(st, a), b)
    requires WellFormed(Next(Next(st, a), b)) && Enabled(Next(Next(st, a), b), c)
    ensures IsRun(st, [a, b, c]) && After(st, [a, b, c]) == Next(Next(Next(st, a), b), c)
  {
    Prepend(Next(Next(st, a), b), c, []);
    Prepend(Next(st, a), b, [c]);
    Prepend(st, a, [b, c]);
  }

  lemma WriteMakesStale(st: State, b: nat, page: nat)
    requires Inv(st) && b < |st.bindings| && 0 <= st.bindings[b].tlbSpace
    ensures var s := st.bindings[b].tlbSpace;
            && Inv(Next(st, FillTlb(b, page)))
            && var st' := Next(Next(st, FillTlb(b, page)), WritePage(s, page));
               && Inv(st') && st'.cpus == st.cpus && st'.nodes == st.nodes && |st'.spaces| == |st.spaces|
               && |st'.bindings| == |st.bindings|
               && (forall a :: 0 <= a < |st.bindings| ==>
                     st'.bindings[a] == st.bindings[a].(tlb := st'.bindings[a].tlb))
               && page in st'.bindings[b].tlb && st'.bindings[b].tlb[page] < Version(st'.spaces[s].table, page)
  {
    KeepStep(st, FillTlb(b, page));
    KeepStep(Next(st, FillTlb(b, page)), WritePage(st.bindings[b].tlbSpace, page));
  }

  lemma StaleNode(st: State, st': State, c: nat, b: nat, page: nat)
    requires Inv(st) && b < |st.bindings| && 0 <= st.bindings[b].tlbSpace && st.bindings[b].cpu != c
    requires Enabled(st, Submit(c, st.bindings[b].tlbSpace, page, 1))
    requires page in st.bindings[b].tlb
    requires st.bindings[b].tlb[page] < Version(st.spaces[st.bindings[b].tlbSpace].table, page)
    requires st' == StepSubmit(st, c, st.bindings[b].tlbSpace, page, 1)
    ensures |st'.nodes| == |st.nodes| + 1 && |st'.bindings| == |st.bindings|
    ensures HoldsStale(st', b, |st.nodes|) && !Done(st'.nodes[|st.nodes|])
  {
    var s := st.bindings[b].tlbSpace;
    assert AttachInv(st, b) && SpaceInv(st, s);
    SyncShotIsOwn(st, c, s, b);
    UnshotCount(st, c, s);
    assert b in st.spaces[s].attached - SyncShot(st, c, s);
    assert st'.bindings[b] == st.bindings[b];
    assert st'.nodes[|st.nodes|].Covers(page);
  }
}

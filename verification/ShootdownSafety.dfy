/** Every step keeps the invariant of the shootdown protocol; what that means for runs. */
module ShootdownSafety {
  import opened Shootdown
  import opened ShootdownInvariant

  lemma KeepWellFormed(st: State, st': State, c: nat)
    requires Inv(st) && c < |st.cpus| == |st'.cpus|
    requires |st.nodes| <= |st'.nodes| && |st.bindings| == |st'.bindings| && |st.spaces| == |st'.spaces|
    requires forall d :: 0 <= d < |st.cpus| && d != c ==> st'.cpus[d] == st.cpus[d]
    requires PcWellFormed(st', st'.cpus[c])
    requires forall b :: 0 <= b < |st.bindings| ==>
      && st'.bindings[b].cpu == st.bindings[b].cpu
      && -1 <= st'.bindings[b].boundSpace < |st.spaces| && -1 <= st'.bindings[b].tlbSpace < |st.spaces|
      && (st.bindings[b].cpu != c ==> st'.bindings[b].boundSpace == st.bindings[b].boundSpace)
    requires forall n :: 0 <= n < |st'.nodes| ==>
      && st'.nodes[n].space < |st.spaces|
      && -1 <= st'.nodes[n].prev < |st'.nodes| && -1 <= st'.nodes[n].next < |st'.nodes|
    requires forall s :: 0 <= s < |st.spaces| ==> -1 <= st'.spaces[s].tail < |st'.nodes|
    ensures WellFormed(st')
  {
    forall d | 0 <= d < |st.cpus| ensures PcWellFormed(st', st'.cpus[d]) {
      assert PcInv(st, d);
      assert PcWellFormed(st, st.cpus[d]);
    }
  }

  /** Frame of a step of CPU c that changes its pc, one of its bindings and one node. */
  lemma SmallStep(st: State, st': State, c: nat, b: nat, cur: nat)
    requires Inv(st) && c < |st.cpus| && b < |st.bindings| && st.bindings[b].cpu == c && cur < |st.nodes|
    requires |st'.cpus| == |st.cpus| && |st'.bindings| == |st.bindings| && |st'.nodes| == |st.nodes|
    requires st' == State(st.cpus[c := st'.cpus[c]], st.bindings[b := st'.bindings[b]],
                          st.spaces, st.nodes[cur := st'.nodes[cur]])
    requires st'.bindings[b] == st.bindings[b].(alreadyShot := st'.bindings[b].alreadyShot, tlb := st'.bindings[b].tlb)
    requires var x, x' := st.nodes[cur], st'.nodes[cur];
      && x' == x.(bindingsToShoot := x'.bindingsToShoot, phase := x'.phase, waiting := x'.waiting,
                  owner := x'.owner, completions := x'.completions)
      && x'.InList() == x.InList() && x'.Submitted() == x.Submitted()
      && (x' == x || !(x.phase.Drained? || x.phase.Erased?) || x.owner == c)
      && (forall d :: 0 <= d < |st.bindings| && d != b ==> (d in x'.waiting <==> d in x.waiting))
    requires PcWellFormed(st', st'.cpus[c])
    ensures WellFormed(st') && SameList(st, st') && Guarantee(st, st', c)
  {
    KeepWellFormed(st, st', c);
    NodesOfSmallStep(st, st', cur);
  }

  lemma RestOfSmallStep(st: State, st': State, c: nat, cur: nat)
    requires Inv(st) && WellFormed(st') && c < |st.cpus| == |st'.cpus| && cur < |st.nodes| == |st'.nodes|
    requires st'.spaces == st.spaces && |st'.bindings| == |st.bindings|
    requires forall d :: 0 <= d < |st.cpus| && d != c ==> st'.cpus[d] == st.cpus[d]
    requires forall n :: 0 <= n < |st.nodes| && n != cur ==> st'.nodes[n] == st.nodes[n]
    requires !(st.cpus[c].Erase? || st.cpus[c].Complete?) || st.cpus[c].cur == cur
    requires forall s :: 0 <= s < |st.spaces| && HoldsRetireNode(st.cpus[c], s) ==> HoldsRetireNode(st'.cpus[c], s)
    ensures forall n :: 0 <= n < |st'.nodes| && n != cur ==> NodeInv(st', n)
    ensures forall s :: 0 <= s < |st'.spaces| ==> SpaceInv(st', s)
  {
    forall n | 0 <= n < |st.nodes| && n != cur ensures NodeInv(st', n) { KeepNode(st, st', n); }
    forall s | 0 <= s < |st.spaces| ensures SpaceInv(st', s) { KeepSpace(st, st', s); }
  }

  lemma NodesOfSmallStep(st: State, st': State, cur: nat)
    requires cur < |st.nodes| == |st'.nodes| && st'.nodes == st.nodes[cur := st'.nodes[cur]] && st'.spaces == st.spaces
    requires var x, x' := st.nodes[cur], st'.nodes[cur];
      && x' == x.(bindingsToShoot := x'.bindingsToShoot, phase := x'.phase, waiting := x'.waiting,
                  owner := x'.owner, completions := x'.completions)
      && x'.InList() == x.InList() && x'.Submitted() == x.Submitted()
    ensures SameList(st, st') && NodesEvolve(st, st')
  {
  }

  // ---- Steps that only move the program counter ----

  lemma PcOnly(st: State, st': State, c: nat)
    requires Inv(st) && c < |st.cpus| == |st'.cpus| && st' == SetPc(st, c, st'.cpus[c])
    requires WellFormed(st') && PcInv(st', c)
    requires !st.cpus[c].Erase? && !st.cpus[c].Complete? && !st'.cpus[c].Decrement?
    requires forall s :: 0 <= s < |st.spaces| && HoldsRetireNode(st.cpus[c], s) ==> HoldsRetireNode(st'.cpus[c], s)
    requires forall b :: 0 <= b < |st.bindings| && st.bindings[b].cpu == c ==> AttachInv(st', b) && WaitInv(st', b)
    ensures Inv(st')
  {
    forall s | 0 <= s < |st.spaces| ensures SpaceInv(st', s) { KeepSpace(st, st', s); }
    forall b | 0 <= b < |st.bindings| && st.bindings[b].cpu == c ensures TlbInv(st', b) { KeepTlb(st, st', b); }
    AssembleSame(st, st', c);
  }

  /** Moving a job without touching lo, upTo or the kind keeps all debts of its CPU. */
  lemma SameJob(st: State, st': State, c: nat)
    requires Inv(st) && c < |st.cpus| == |st'.cpus| && st' == SetPc(st, c, st'.cpus[c])
    requires HasJob(st.cpus[c]) && !st.cpus[c].Finish? && HasJob(st'.cpus[c]) && !st'.cpus[c].Finish?
    requires !st.cpus[c].Erase? && !st.cpus[c].Complete? && !st'.cpus[c].Decrement?
    requires st'.cpus[c].job == st.cpus[c].job.(goal := st'.cpus[c].job.goal)
    requires PcWellFormed(st', st'.cpus[c]) && (WellFormed(st') ==> PcInv(st', c))
    ensures Inv(st')
  {
    KeepWellFormed(st, st', c);
    forall b | 0 <= b < |st.bindings| && st.bindings[b].cpu == c ensures AttachInv(st', b) && WaitInv(st', b) {
      SameDebts(st, st', c, b);
    }
    PcOnly(st, st', c);
  }

  lemma SameDebts(st: State, st': State, c: nat, b: nat)
    requires Inv(st) && WellFormed(st') && c < |st.cpus| == |st'.cpus| && b < |st.bindings| && st.bindings[b].cpu == c
    requires st' == SetPc(st, c, st'.cpus[c])
    requires HasJob(st.cpus[c]) && !st.cpus[c].Finish? && HasJob(st'.cpus[c]) && !st'.cpus[c].Finish?
    requires st'.cpus[c].job == st.cpus[c].job.(goal := st'.cpus[c].job.goal)
    ensures AttachInv(st', b) && WaitInv(st', b)
  {
    assert AttachInv(st, b) && WaitInv(st, b);
    forall n | 0 <= n < |st'.nodes| ensures b in st'.nodes[n].waiting <==> Owes(st', b, n) {
      assert Owes(st, b, n) == Owes(st', b, n);
    }
  }

  /**
   A drain may stop and doShootdown_() may return: nothing foreign is left in the list
   below `hi`. For a drain hi is above upTo.
   */
  lemma ScanEnds(st: State, st': State, c: nat, job: Job, hi: int)
    requires Inv(st) && c < |st.cpus| && HasJob(st.cpus[c]) && !st.cpus[c].Finish?
    requires st.cpus[c].job.(goal := job.goal) == job && st' == EndScan(st, c, job)
    requires JobWellFormed(st, job) && job.goal <= st.spaces[job.space].shootSequence
    requires !st.cpus[c].Erase? && !st.cpus[c].Complete?
    requires OnlyOwn(st.nodes, job.space, job.lo, hi, c) && (!job.kind.Process? ==> job.upTo < hi)
    ensures Inv(st')
  {
    assert PcInv(st, c);
    assert JobInv(st, c, st.cpus[c].job);
    KeepWellFormed(st, st', c);
    assert JobInv(st', c, job);
    forall b | 0 <= b < |st.bindings| && st.bindings[b].cpu == c ensures AttachInv(st', b) && WaitInv(st', b) {
      ScanEndsDebts(st, st', c, job, hi, b);
    }
    PcOnly(st, st', c);
  }

  lemma ScanEndsDebts(st: State, st': State, c: nat, job: Job, hi: int, b: nat)
    requires Inv(st) && WellFormed(st') && c < |st.cpus| && HasJob(st.cpus[c]) && !st.cpus[c].Finish?
    requires st.cpus[c].job.(goal := job.goal) == job && st' == EndScan(st, c, job)
    requires JobWellFormed(st, job) && JobInv(st', c, job)
    requires b < |st.bindings| && st.bindings[b].cpu == c
    requires OnlyOwn(st.nodes, job.space, job.lo, hi, c) && (!job.kind.Process? ==> job.upTo < hi)
    ensures AttachInv(st', b) && WaitInv(st', b)
  {
    assert AttachInv(st, b) && WaitInv(st, b);
    forall n | 0 <= n < |st'.nodes| ensures b in st'.nodes[n].waiting <==> Owes(st', b, n) {
      assert NodeInv(st, n);
      assert Owes(st', b, n) ==> Owes(st, b, n);
      assert st.nodes[n].InList() && Owes(st, b, n) ==> Owes(st', b, n);
    }
  }

  lemma KeepLoadTail(st: State, c: nat)
    requires Inv(st) && c < |st.cpus| && st.cpus[c].LoadTail?
    ensures Inv(StepAdvance(st, c))
  {
    assert PcInv(st, c);
    assert PcWellFormed(st, st.cpus[c]);
    var job0 := st.cpus[c].job;
    var st' := StepLoadTail(st, c, job0);
    var space := st.spaces[job0.space];
    var job := job0.(goal := space.shootSequence);
    assert TailOk(st, job.space);
    if space.tail < 0 || st.nodes[space.tail].sequence <= job.lo {
      if space.tail >= 0 { assert NextOk(st, space.tail); }
      ScanEnds(st, st', c, job, space.shootSequence + 1);
    } else {
      SameJob(st, st', c);
    }
  }

  lemma KeepLoadPrev(st: State, c: nat)
    requires Inv(st) && c < |st.cpus| && st.cpus[c].LoadPrev?
    ensures Inv(StepAdvance(st, c))
  {
    assert PcInv(st, c);
    assert PcWellFormed(st, st.cpus[c]);
    var job, cur := st.cpus[c].job, st.cpus[c].cur;
    var st' := StepLoadPrev(st, c, job, cur);
    assert PrevOk(st, cur);
    SameJob(st, st', c);
  }

  lemma KeepLoadNext(st: State, c: nat)
    requires Inv(st) && c < |st.cpus| && st.cpus[c].LoadNext?
    ensures Inv(StepAdvance(st, c))
  {
    assert PcInv(st, c);
    assert PcWellFormed(st, st.cpus[c]);
    var job, cur := st.cpus[c].job, st.cpus[c].cur;
    var st' := SetPc(st, c, Visit(job, cur, st.nodes[cur].next));
    assert NextOk(st, cur);
    SameJob(st, st', c);
  }

  // ---- Visiting a node ----

  /** The program counter once a job has dealt with the node before nxt. */
  function MovedOn(job: Job, nxt: int): Pc {
    if nxt >= 0 then LoadNext(job, nxt) else if job.kind.Process? then Idle else Finish(job)
  }

  /** A step of CPU c that settles what the job owes for cur, which it stands on. */
  ghost predicate Settles(st: State, st': State, c: nat) {
    && Inv(st) && WellFormed(st') && c < |st.cpus| == |st'.cpus|
    && (st.cpus[c].Visit? || st.cpus[c].Decrement?)
    && var job, cur, nxt := st.cpus[c].job, st.cpus[c].cur, st.cpus[c].nxt;
    && var job' := job.(lo := st.nodes[cur].sequence);
    && SameList(st, st') && st'.spaces == st.spaces
    && (forall d :: 0 <= d < |st.cpus| && d != c ==> st'.cpus[d] == st.cpus[d])
    && (!job.kind.Process? ==> st.nodes[cur].sequence <= job.upTo)
    && st'.bindings == RecordShot(st, job, st.nodes[cur].sequence).bindings
    && (forall n :: 0 <= n < |st.nodes| && n != cur ==> st'.nodes[n] == st.nodes[n])
    && st'.nodes[cur] == st.nodes[cur].(waiting := st.nodes[cur].waiting - {job.binding},
         bindingsToShoot := st'.nodes[cur].bindingsToShoot, phase := st'.nodes[cur].phase,
         owner := st'.nodes[cur].owner)
    && (if st.cpus[c].Visit? then st.nodes[cur].initiator == c && st'.nodes[cur] == st.nodes[cur]
        else st.nodes[cur].phase == Queued)
    && (|| st'.cpus[c] == MovedOn(job', nxt)
        || (st'.cpus[c] == Erase(job', cur, nxt) && st'.nodes[cur].phase == Drained && st'.nodes[cur].owner == c))
  }

  lemma SettlesPc(st: State, st': State, c: nat)
    requires Settles(st, st', c)
    ensures PcInv(st', c)
  {
    assert PcInv(st, c);
    var job, cur, nxt := st.cpus[c].job, st.cpus[c].cur, st.cpus[c].nxt;
    var job' := job.(lo := st.nodes[cur].sequence);
    assert SequenceOk(st, cur);
    SettlesJob(st, st', c, job, st.nodes[cur].sequence);
    KeepScan(st, st', c, job', cur, nxt);
  }

  lemma SettlesJob(st: State, st': State, c: nat, job: Job, sequence: nat)
    requires WellFormed(st) && WellFormed(st') && JobWellFormed(st, job) && JobWellFormed(st', job)
    requires JobInv(st, c, job) && st'.spaces == st.spaces && |st'.cpus| == |st.cpus|
    requires st'.bindings == RecordShot(st, job, sequence).bindings && sequence <= st.spaces[job.space].shootSequence
    ensures JobInv(st', c, job.(lo := sequence))
  {
  }

  lemma KeepScan(st: State, st': State, c: nat, job: Job, cur: nat, nxt: int)
    requires SameList(st, st') && cur < |st.nodes| && -1 <= nxt < |st.nodes|
    requires ScanInv(st, job, cur) && NextNodeOk(st, job, cur, nxt) && job.lo == st.nodes[cur].sequence
    ensures ScanInv(st', job, cur) && NextNodeOk(st', job, cur, nxt)
    ensures nxt >= 0 ==> ForwardInv(st', c, job, nxt)
  {
  }

  /** The debt of the job's binding for node n, before and after lo moves to cur. */
  lemma SettlesDebt(st: State, st': State, c: nat, n: nat)
    requires WellFormed(st) && WellFormed(st') && c < |st.cpus| == |st'.cpus| && PcInv(st, c)
    requires st.cpus[c].Visit? || st.cpus[c].Decrement?
    requires n < |st.nodes| == |st'.nodes| && NodeInv(st, n) && Distinct(st.nodes)
    requires AttachInv(st, st.cpus[c].job.binding)
    requires var job, cur := st.cpus[c].job, st.cpus[c].cur;
      var job' := job.(lo := st.nodes[cur].sequence);
      && (job.binding in st.nodes[n].waiting <==> Owes(st, job.binding, n))
      && st'.spaces == st.spaces && st'.bindings == RecordShot(st, job, st.nodes[cur].sequence).bindings
      && (n != cur ==> st'.nodes[n] == st.nodes[n])
      && (n == cur ==> job.binding !in st'.nodes[n].waiting && st'.nodes[n].sequence == st.nodes[n].sequence
                       && st'.nodes[n].space == st.nodes[n].space)
      && (!job.kind.Process? ==> st.nodes[cur].sequence <= job.upTo)
      && (|| st'.cpus[c] == MovedOn(job', st.cpus[c].nxt)
          || st'.cpus[c] == Erase(job', cur, st.cpus[c].nxt))
    ensures st.cpus[c].job.binding in st'.nodes[n].waiting <==> Owes(st', st.cpus[c].job.binding, n)
  {
    var job, cur := st.cpus[c].job, st.cpus[c].cur;
    var b := job.binding;
    if n == cur {
      assert !Owes(st', b, n);
    } else if st.nodes[n].Submitted() && st.nodes[n].space == job.space {
      assert st.nodes[n].sequence != st.nodes[cur].sequence;
      assert Owes(st', b, n) ==> Owes(st, b, n);
      assert b in st.nodes[n].waiting ==> st.nodes[n].InList();
      assert st.nodes[n].InList() && Owes(st, b, n) ==> Owes(st', b, n);
    } else {
      assert Owes(st', b, n) == Owes(st, b, n);
    }
  }

  /** A binding that is not busy owes what alreadyShot says, whatever its CPU does. */
  lemma UnrelatedDebt(st: State, st': State, c: nat, b: nat, n: nat)
    requires WellFormed(st) && WellFormed(st') && c < |st.cpus| == |st'.cpus|
    requires b < |st.bindings| == |st'.bindings| && st.bindings[b].cpu == c == st'.bindings[b].cpu
    requires st'.bindings[b].alreadyShot == st.bindings[b].alreadyShot
    requires !Concerns(st.cpus[c], b) && !Concerns(st'.cpus[c], b)
    requires n < |st.nodes| == |st'.nodes| && st'.nodes[n].space == st.nodes[n].space
    requires st'.nodes[n].sequence == st.nodes[n].sequence && st'.nodes[n].initiator == st.nodes[n].initiator
    requires st'.nodes[n].Submitted() == st.nodes[n].Submitted() && |st'.spaces| == |st.spaces|
    requires b in st'.spaces[st.nodes[n].space].attached <==> b in st.spaces[st.nodes[n].space].attached
    ensures Owes(st', b, n) == Owes(st, b, n)
  {
  }

  /** The CPU is in the middle of an operation on binding b. */
  predicate Concerns(pc: Pc, b: nat) {
    (HasJob(pc) && pc.job.binding == b) || (pc.SwitchTable? && pc.binding == b) || (pc.Detach? && pc.binding == b)
  }

  lemma SettlesWait(st: State, st': State, c: nat, b: nat)
    requires Settles(st, st', c) && b < |st.bindings| && st.bindings[b].cpu == c
    ensures WaitInv(st', b)
  {
    assert PcInv(st, c);
    assert WaitInv(st, b);
    forall n | 0 <= n < |st'.nodes| ensures b in st'.nodes[n].waiting <==> Owes(st', b, n) {
      if b == st.cpus[c].job.binding {
        assert NodeInv(st, n) && AttachInv(st, b);
        SettlesDebt(st, st', c, n);
      } else {
        UnrelatedDebt(st, st', c, b, n);
      }
    }
  }

  lemma SettlesAttach(st: State, st': State, c: nat, b: nat)
    requires WellFormed(st) && WellFormed(st') && c < |st.cpus| == |st'.cpus|
    requires b < |st.bindings| == |st'.bindings| && st.bindings[b].cpu == c && AttachInv(st, b)
    requires HasJob(st.cpus[c]) && JobWellFormed(st, st.cpus[c].job) && JobInv(st, c, st.cpus[c].job)
    requires st'.cpus[c].Idle? || (HasJob(st'.cpus[c]) && st'.cpus[c].job.binding == st.cpus[c].job.binding
                                   && st'.cpus[c].job.kind == st.cpus[c].job.kind)
    requires st'.cpus[c].Idle? ==> st.cpus[c].job.kind.Process?
    requires |st'.spaces| == |st.spaces| && forall s :: 0 <= s < |st.spaces| ==>
      st'.spaces[s].attached == st.spaces[s].attached && st'.spaces[s].shootSequence == st.spaces[s].shootSequence
    requires st'.bindings[b] == st.bindings[b].(alreadyShot := st'.bindings[b].alreadyShot, tlb := st'.bindings[b].tlb)
    requires st'.bindings[b].alreadyShot == st.bindings[b].alreadyShot ||
      (b == st.cpus[c].job.binding && st.cpus[c].job.kind.Process?
       && st'.bindings[b].alreadyShot <= st.spaces[st.cpus[c].job.space].shootSequence)
    ensures AttachInv(st', b)
  {
  }

  lemma SettlesTlb(st: State, st': State, c: nat, b: nat)
    requires Settles(st, st', c) && b < |st.bindings| && st.bindings[b].cpu == c
    ensures TlbInv(st', b)
  {
    assert PcInv(st, c);
    assert AttachInv(st, b) && WaitInv(st, b);
    KeepTlb(st, st', b);
  }

  lemma SettlesBinding(st: State, st': State, c: nat, b: nat)
    requires Settles(st, st', c) && b < |st.bindings| && st.bindings[b].cpu == c
    ensures AttachInv(st', b) && WaitInv(st', b) && TlbInv(st', b)
  {
    assert PcInv(st, c);
    assert SequenceOk(st, st.cpus[c].cur) && AttachInv(st, b);
    SettlesAttach(st, st', c, b);
    SettlesWait(st, st', c, b);
    SettlesTlb(st, st', c, b);
  }

  lemma SettlesRest(st: State, st': State, c: nat)
    requires Settles(st, st', c)
    ensures forall n :: 0 <= n < |st'.nodes| && n != st.cpus[c].cur ==> NodeInv(st', n)
    ensures forall s :: 0 <= s < |st'.spaces| ==> SpaceInv(st', s)
  {
    assert PcInv(st, c);
    RestOfSmallStep(st, st', c, st.cpus[c].cur);
  }

  lemma SettlesKeeps(st: State, st': State, c: nat)
    requires Settles(st, st', c) && Guarantee(st, st', c) && NodeInv(st', st.cpus[c].cur)
    ensures Inv(st')
  {
    SettlesPc(st, st', c);
    KeepList(st, st');
    SettlesRest(st, st', c);
    forall b | 0 <= b < |st.bindings| && st.bindings[b].cpu == c
      ensures AttachInv(st', b) && WaitInv(st', b) && TlbInv(st', b)
    {
      SettlesBinding(st, st', c, b);
    }
    Assemble(st, st', c);
  }

  lemma KeepVisit(st: State, c: nat)
    requires Inv(st) && c < |st.cpus| && st.cpus[c].Visit?
    ensures Inv(StepAdvance(st, c))
  {
    assert PcInv(st, c);
    assert PcWellFormed(st, st.cpus[c]);
    var job, cur, nxt := st.cpus[c].job, st.cpus[c].cur, st.cpus[c].nxt;
    var node := st.nodes[cur];
    var st' := StepVisit(st, c, job, cur, nxt);
    if !job.kind.Process? && node.sequence > job.upTo {
      ScanEnds(st, st', c, job, node.sequence);
    } else if node.initiator == c {
      SkipSettles(st, st', c);
      SkippedNode(st, st', c, cur);
      SettlesKeeps(st, st', c);
    } else {
      KeepInvalidate(st, st', c);
    }
  }

  /** A step that leaves all nodes and spaces alone. */
  lemma SameNodesStep(st: State, st': State, c: nat, b: nat)
    requires Inv(st) && c < |st.cpus| == |st'.cpus| && b < |st.bindings| == |st'.bindings| && st.bindings[b].cpu == c
    requires st' == State(st.cpus[c := st'.cpus[c]], st.bindings[b := st'.bindings[b]], st.spaces, st.nodes)
    requires st'.bindings[b] == st.bindings[b].(alreadyShot := st'.bindings[b].alreadyShot, tlb := st'.bindings[b].tlb)
    requires PcWellFormed(st', st'.cpus[c])
    ensures WellFormed(st') && SameList(st, st') && Guarantee(st, st', c)
  {
    KeepWellFormed(st, st', c);
  }

  /** The CPU walks over a node that it submitted itself. */
  lemma SkipSettles(st: State, st': State, c: nat)
    requires Inv(st) && c < |st.cpus| && st.cpus[c].Visit? && st.nodes[st.cpus[c].cur].initiator == c
    requires !st.cpus[c].job.kind.Process? ==> st.nodes[st.cpus[c].cur].sequence <= st.cpus[c].job.upTo
    requires st' == StepVisit(st, c, st.cpus[c].job, st.cpus[c].cur, st.cpus[c].nxt)
    ensures Settles(st, st', c) && Guarantee(st, st', c)
  {
    assert PcInv(st, c);
    var job, cur := st.cpus[c].job, st.cpus[c].cur;
    assert st.bindings == st.bindings[job.binding := st.bindings[job.binding]];
    SameNodesStep(st, st', c, job.binding);
    assert st.nodes[cur].waiting == st.nodes[cur].waiting - {job.binding} by { assert WaitInv(st, job.binding); }
  }

  lemma SkippedNode(st: State, st': State, c: nat, n: nat)
    requires Inv(st) && WellFormed(st') && c < |st.cpus| == |st'.cpus| && n < |st.nodes|
    requires st'.cpus == st.cpus[c := st'.cpus[c]] && |st'.bindings| == |st.bindings|
    requires st'.spaces == st.spaces && st'.nodes == st.nodes && !st.cpus[c].Erase? && !st.cpus[c].Complete?
    ensures NodeInv(st', n)
  {
    KeepNode(st, st', n);
  }

  lemma InvalidatedIsFresh(tlb: map<nat, nat>, isGlobal: bool, node: Node)
    ensures Fresh(InvalidateNode(tlb, isGlobal, node.first, node.count), node)
    ensures forall other: Node :: Fresh(tlb, other) ==>
              Fresh(InvalidateNode(tlb, isGlobal, node.first, node.count), other)
  {
  }

  lemma InvalidateFrame(st: State, st': State, c: nat)
    requires Inv(st) && c < |st.cpus| && st.cpus[c].Visit? && st.nodes[st.cpus[c].cur].initiator != c
    requires !st.cpus[c].job.kind.Process? ==> st.nodes[st.cpus[c].cur].sequence <= st.cpus[c].job.upTo
    requires st' == StepVisit(st, c, st.cpus[c].job, st.cpus[c].cur, st.cpus[c].nxt)
    ensures WellFormed(st') && SameList(st, st') && Guarantee(st, st', c) && PcInv(st', c)
  {
    assert PcInv(st, c);
    var b0 := st.cpus[c].job.binding;
    assert st.bindings == st.bindings[b0 := st.bindings[b0]];
    SameNodesStep(st, st', c, b0);
  }

  lemma InvalidateSpaces(st: State, st': State, c: nat)
    requires Inv(st) && WellFormed(st') && c < |st.cpus| && st.cpus[c].Visit?
    requires st.nodes[st.cpus[c].cur].initiator != c
    requires !st.cpus[c].job.kind.Process? ==> st.nodes[st.cpus[c].cur].sequence <= st.cpus[c].job.upTo
    requires st' == StepVisit(st, c, st.cpus[c].job, st.cpus[c].cur, st.cpus[c].nxt)
    ensures forall s :: 0 <= s < |st'.spaces| ==> SpaceInv(st', s)
  {
    assert PcWellFormed(st, st.cpus[c]);
    forall s | 0 <= s < |st.spaces| ensures SpaceInv(st', s) { KeepSpace(st, st', s); }
  }

  /** A visit to a foreign node: doShootdown_() invalidates its pages first. */
  lemma KeepInvalidate(st: State, st': State, c: nat)
    requires Inv(st) && c < |st.cpus| && st.cpus[c].Visit? && st.nodes[st.cpus[c].cur].initiator != c
    requires !st.cpus[c].job.kind.Process? ==> st.nodes[st.cpus[c].cur].sequence <= st.cpus[c].job.upTo
    requires st' == StepVisit(st, c, st.cpus[c].job, st.cpus[c].cur, st.cpus[c].nxt)
    ensures Inv(st')
  {
    InvalidateFrame(st, st', c);
    InvalidateSpaces(st, st', c);
    forall b | 0 <= b < |st.bindings| && st.bindings[b].cpu == c
      ensures AttachInv(st', b) && WaitInv(st', b) && TlbInv(st', b)
    {
      InvalidateBinding(st, st', c, b);
    }
    AssembleSame(st, st', c);
  }

  lemma InvalidateBinding(st: State, st': State, c: nat, b: nat)
    requires Inv(st) && WellFormed(st') && c < |st.cpus| && st.cpus[c].Visit? && st.nodes[st.cpus[c].cur].initiator != c
    requires !st.cpus[c].job.kind.Process? ==> st.nodes[st.cpus[c].cur].sequence <= st.cpus[c].job.upTo
    requires st' == StepVisit(st, c, st.cpus[c].job, st.cpus[c].cur, st.cpus[c].nxt)
    requires b < |st.bindings| && st.bindings[b].cpu == c
    ensures AttachInv(st', b) && WaitInv(st', b) && TlbInv(st', b)
  {
    var job, cur := st.cpus[c].job, st.cpus[c].cur;
    assert PcInv(st, c);
    assert AttachInv(st, b) && WaitInv(st, b) && TlbInv(st, b);
    SettlesAttach(st, st', c, b);
    forall n | 0 <= n < |st'.nodes| ensures b in st'.nodes[n].waiting <==> Owes(st', b, n) {
      assert Owes(st, b, n) == Owes(st', b, n);
    }
    if b == job.binding && job.kind.Process? {
      InvalidatedIsFresh(st.bindings[b].tlb, IsGlobal(st, b), st.nodes[cur]);
    }
  }

  /** Every fetch_sub hits a node that counted this binding and is still in the queue. */
  lemma VisitedIsOwed(st: State, c: nat)
    requires Inv(st) && c < |st.cpus| && st.cpus[c].Decrement?
    ensures PcWellFormed(st, st.cpus[c]) && st.cpus[c].job.binding in st.nodes[st.cpus[c].cur].waiting
    ensures st.nodes[st.cpus[c].cur].bindingsToShoot >= 1 && st.nodes[st.cpus[c].cur].phase == Queued
  {
    assert PcInv(st, c);
    assert PcWellFormed(st, st.cpus[c]);
    var b := st.cpus[c].job.binding;
    assert WaitInv(st, b) && AttachInv(st, b);
    assert Owes(st, b, st.cpus[c].cur);
    assert NodeInv(st, st.cpus[c].cur);
  }

  lemma KeepDecrement(st: State, c: nat)
    requires Inv(st) && c < |st.cpus| && st.cpus[c].Decrement?
    ensures Inv(StepAdvance(st, c))
  {
    assert PcWellFormed(st, st.cpus[c]);
    var st' := StepDecrement(st, c, st.cpus[c].job, st.cpus[c].cur, st.cpus[c].nxt);
    DecrementSettles(st, st', c);
    DecrementedNode(st, st', c);
    SettlesKeeps(st, st', c);
  }

  lemma DecrementSettles(st: State, st': State, c: nat)
    requires Inv(st) && c < |st.cpus| && st.cpus[c].Decrement?
    requires st' == StepDecrement(st, c, st.cpus[c].job, st.cpus[c].cur, st.cpus[c].nxt)
    ensures Settles(st, st', c) && Guarantee(st, st', c)
  {
    assert PcInv(st, c);
    VisitedIsOwed(st, c);
    DecrementIsSmall(st, st', c);
  }

  lemma DecrementIsSmall(st: State, st': State, c: nat)
    requires Inv(st) && c < |st.cpus| && st.cpus[c].Decrement? && PcInv(st, c)
    requires st' == StepDecrement(st, c, st.cpus[c].job, st.cpus[c].cur, st.cpus[c].nxt)
    requires st.nodes[st.cpus[c].cur].bindingsToShoot >= 1 && st.nodes[st.cpus[c].cur].phase == Queued
    ensures WellFormed(st') && SameList(st, st') && Guarantee(st, st', c)
  {
    var b0 := st.cpus[c].job.binding;
    assert st.bindings == st.bindings[b0 := st.bindings[b0]];
    SmallStep(st, st', c, b0, st.cpus[c].cur);
  }

  lemma DecrementedNode(st: State, st': State, c: nat)
    requires Inv(st) && WellFormed(st') && c < |st.cpus| && st.cpus[c].Decrement?
    requires st' == StepDecrement(st, c, st.cpus[c].job, st.cpus[c].cur, st.cpus[c].nxt)
    ensures NodeInv(st', st.cpus[c].cur)
  {
    VisitedIsOwed(st, c);
    assert NodeInv(st, st.cpus[c].cur);
  }

  lemma KeepComplete(st: State, c: nat)
    requires Inv(st) && c < |st.cpus| && st.cpus[c].Complete?
    ensures Inv(StepAdvance(st, c))
  {
    assert PcWellFormed(st, st.cpus[c]);
    var st' := StepComplete(st, c, st.cpus[c].job, st.cpus[c].cur, st.cpus[c].nxt);
    CompleteFrame(st, st', c);
    KeepList(st, st');
    CompletePc(st, st', c);
    forall b | 0 <= b < |st.bindings| && st.bindings[b].cpu == c
      ensures AttachInv(st', b) && WaitInv(st', b) && TlbInv(st', b)
    {
      CompleteBinding(st, st', c, b);
    }
    Assemble(st, st', c);
  }

  lemma CompletePc(st: State, st': State, c: nat)
    requires Inv(st) && WellFormed(st') && SameList(st, st') && c < |st.cpus| && st.cpus[c].Complete?
    requires st' == StepComplete(st, c, st.cpus[c].job, st.cpus[c].cur, st.cpus[c].nxt)
    ensures PcInv(st', c)
  {
    assert PcInv(st, c);
    KeepScan(st, st', c, st.cpus[c].job, st.cpus[c].cur, st.cpus[c].nxt);
  }

  lemma CompleteBinding(st: State, st': State, c: nat, b: nat)
    requires Inv(st) && WellFormed(st') && c < |st.cpus| && st.cpus[c].Complete?
    requires st' == StepComplete(st, c, st.cpus[c].job, st.cpus[c].cur, st.cpus[c].nxt)
    requires b < |st.bindings| && st.bindings[b].cpu == c
    ensures AttachInv(st', b) && WaitInv(st', b) && TlbInv(st', b)
  {
    assert PcInv(st, c);
    assert AttachInv(st, b);
    SettlesAttach(st, st', c, b);
    CompleteWait(st, st', c, b);
    KeepTlb(st, st', b);
  }

  lemma CompleteFrame(st: State, st': State, c: nat)
    requires Inv(st) && c < |st.cpus| && st.cpus[c].Complete?
    requires st' == StepComplete(st, c, st.cpus[c].job, st.cpus[c].cur, st.cpus[c].nxt)
    ensures WellFormed(st') && SameList(st, st') && Guarantee(st, st', c)
    ensures forall n :: 0 <= n < |st'.nodes| ==> NodeInv(st', n)
    ensures forall s :: 0 <= s < |st'.spaces| ==> SpaceInv(st', s)
  {
    assert PcInv(st, c);
    var b0 := st.cpus[c].job.binding;
    assert st.bindings == st.bindings[b0 := st.bindings[b0]];
    SmallStep(st, st', c, b0, st.cpus[c].cur);
    RestOfSmallStep(st, st', c, st.cpus[c].cur);
    assert NodeInv(st, st.cpus[c].cur);
  }

  lemma CompleteWait(st: State, st': State, c: nat, b: nat)
    requires Inv(st) && WellFormed(st') && c < |st.cpus| && st.cpus[c].Complete?
    requires st' == StepComplete(st, c, st.cpus[c].job, st.cpus[c].cur, st.cpus[c].nxt)
    requires b < |st.bindings| && st.bindings[b].cpu == c
    ensures WaitInv(st', b)
  {
    assert PcInv(st, c);
    assert AttachInv(st, b) && WaitInv(st, b);
    forall n | 0 <= n < |st'.nodes| ensures b in st'.nodes[n].waiting <==> Owes(st', b, n) {
      assert NodeInv(st, n);
      assert Owes(st', b, n) ==> Owes(st, b, n);
      assert st.nodes[n].InList() && Owes(st, b, n) ==> Owes(st', b, n);
    }
  }
}

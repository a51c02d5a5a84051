/** The lock sections and the epilogues of the shootdown protocol keep its invariant. */
module ShootdownLockSteps {
  import opened Shootdown
  import opened ShootdownInvariant
  import opened ShootdownSafety

  // ---- Unlinking a node ----

  /** The state after unlinking cur, element by element. */
  ghost predicate Unlinked(st: State, st': State, cur: nat)
    requires WellFormed(st) && cur < |st.nodes|
  {
    var e := st.nodes[cur];
    && |st'.nodes| == |st.nodes| && |st'.spaces| == |st.spaces|
    && (forall n :: 0 <= n < |st.nodes| ==> st'.nodes[n] == st.nodes[n].(
          next := if n == e.prev then e.next else st.nodes[n].next,
          prev := if n == e.next then e.prev else st.nodes[n].prev,
          phase := if n == cur then Erased else st.nodes[n].phase,
          erasedAt := if n == cur then st.spaces[e.space].shootSequence else st.nodes[n].erasedAt))
    && (forall s :: 0 <= s < |st.spaces| ==> st'.spaces[s] == st.spaces[s].(
          tail := if s == e.space && e.next < 0 then e.prev else st.spaces[s].tail))
  }

  lemma EraseUnlinks(st: State, st': State, c: nat)
    requires WellFormed(st) && c < |st.cpus| && st.cpus[c].Erase?
    requires PcWellFormed(st, st.cpus[c])
    requires var e := st.nodes[st.cpus[c].cur];
      && e.space == st.cpus[c].job.space && e.prev != st.cpus[c].cur && e.next != st.cpus[c].cur
      && (e.prev >= 0 ==> e.prev != e.next)
    requires st' == StepErase(st, c, st.cpus[c].job, st.cpus[c].cur, st.cpus[c].nxt)
    ensures Unlinked(st, st', st.cpus[c].cur)
    ensures st'.bindings == st.bindings
    ensures st'.cpus == st.cpus[c := Complete(st.cpus[c].job, st.cpus[c].cur, st.cpus[c].nxt)]
  {
  }

  lemma UnlinkEvolves(st: State, st': State, cur: nat)
    requires WellFormed(st) && cur < |st.nodes| && Unlinked(st, st', cur) && st.nodes[cur].InList()
    ensures NodesEvolve(st, st')
    ensures forall n :: 0 <= n < |st'.nodes| ==>
      && st'.nodes[n].space < |st.spaces|
      && -1 <= st'.nodes[n].prev < |st.nodes| && -1 <= st'.nodes[n].next < |st.nodes|
    ensures forall s :: 0 <= s < |st.spaces| ==> -1 <= st'.spaces[s].tail < |st'.nodes|
  {
  }

  /** Around the unlinked node the two gaps merge into one. */
  lemma MergeGaps(st: State, st': State, cur: nat, lo: int, hi: int)
    requires WellFormed(st) && cur < |st.nodes| && Unlinked(st, st', cur) && Distinct(st.nodes)
    requires st.nodes[cur].Submitted()
    requires Gap(st.nodes, st.nodes[cur].space, lo, st.nodes[cur].sequence)
    requires Gap(st.nodes, st.nodes[cur].space, st.nodes[cur].sequence, hi)
    ensures Gap(st'.nodes, st.nodes[cur].space, lo, hi)
  {
    forall m | 0 <= m < |st'.nodes| && st'.nodes[m].InList() && st'.nodes[m].space == st.nodes[cur].space
      ensures st'.nodes[m].sequence <= lo || hi <= st'.nodes[m].sequence
    {
      assert st.nodes[m].InList() && m != cur;
    }
  }

  /** The predecessor of the unlinked node. */
  lemma UnlinkNextOfPrev(st: State, st': State, cur: nat, n: nat)
    requires WellFormed(st) && WellFormed(st') && cur < |st.nodes| && n < |st.nodes|
    requires Unlinked(st, st', cur) && Distinct(st.nodes) && st.nodes[cur].InList() && n == st.nodes[cur].prev
    requires NextOk(st, n) && NextOk(st, cur) && PrevOk(st, cur) && SequenceOk(st, cur)
    ensures NextOk(st', n)
  {
    var e := st.nodes[cur];
    MergeGaps(st, st', cur, st.nodes[n].sequence,
      if e.next < 0 then st.spaces[e.space].shootSequence + 1 else st.nodes[e.next].sequence);
  }

  lemma UnlinkNextOfSelf(st: State, st': State, cur: nat)
    requires WellFormed(st) && WellFormed(st') && cur < |st.nodes| && NodesEvolve(st, st')
    requires Unlinked(st, st', cur) && st.nodes[cur].InList() && NextOk(st, cur)
    requires PrevOk(st, cur) && SequenceOk(st, cur)
    requires st.nodes[cur].next >= 0 ==> SequenceOk(st, st.nodes[cur].next)
    ensures NextOk(st', cur)
  {
    var x := st.nodes[cur];
    KeepGap(st, st', x.space, x.sequence,
      if x.next < 0 then 1 + st.spaces[x.space].shootSequence else st.nodes[x.next].sequence);
  }

  lemma UnlinkNext(st: State, st': State, cur: nat, n: nat)
    requires WellFormed(st) && WellFormed(st') && cur < |st.nodes| && n < |st.nodes| && NodesEvolve(st, st')
    requires Unlinked(st, st', cur) && Distinct(st.nodes) && st.nodes[cur].InList() && st.nodes[n].Submitted()
    requires NextOk(st, n) && NextOk(st, cur) && PrevOk(st, cur) && SequenceOk(st, n) && SequenceOk(st, cur)
    requires st.nodes[n].next >= 0 ==> SequenceOk(st, st.nodes[n].next)
    ensures NextOk(st', n)
  {
    var x := st.nodes[n];
    if n == st.nodes[cur].prev {
      UnlinkNextOfPrev(st, st', cur, n);
    } else if n == cur {
      UnlinkNextOfSelf(st, st', cur);
    } else if x.next < 0 {
      KeepGap(st, st', x.space, x.sequence, 1 + if x.InList() then st.spaces[x.space].shootSequence else x.erasedAt);
    } else {
      KeepGap(st, st', x.space, x.sequence, st.nodes[x.next].sequence);
    }
  }

  /** The successor of the unlinked node. */
  lemma UnlinkPrevOfNext(st: State, st': State, cur: nat, n: nat)
    requires WellFormed(st) && WellFormed(st') && cur < |st.nodes| && n < |st.nodes|
    requires Unlinked(st, st', cur) && Distinct(st.nodes) && st.nodes[cur].InList() && n == st.nodes[cur].next
    requires PrevOk(st, n) && NextOk(st, cur) && PrevOk(st, cur) && SequenceOk(st, cur)
    ensures PrevOk(st', n)
  {
    var e := st.nodes[cur];
    MergeGaps(st, st', cur, if e.prev < 0 then 0 else st.nodes[e.prev].sequence, st.nodes[n].sequence);
  }

  lemma UnlinkPrev(st: State, st': State, cur: nat, n: nat)
    requires WellFormed(st) && WellFormed(st') && cur < |st.nodes| && n < |st.nodes| && NodesEvolve(st, st')
    requires Unlinked(st, st', cur) && Distinct(st.nodes) && st.nodes[cur].InList() && st.nodes[n].Submitted()
    requires PrevOk(st, n) && NextOk(st, cur) && PrevOk(st, cur) && SequenceOk(st, n) && SequenceOk(st, cur)
    ensures PrevOk(st', n)
  {
    var x := st.nodes[n];
    if n == st.nodes[cur].next {
      UnlinkPrevOfNext(st, st', cur, n);
    } else {
      KeepGap(st, st', x.space, if x.prev < 0 then 0 else st.nodes[x.prev].sequence, x.sequence);
    }
  }

  lemma UnlinkTail(st: State, st': State, cur: nat, s: nat)
    requires WellFormed(st) && WellFormed(st') && cur < |st.nodes| && NodesEvolve(st, st') && s < |st.spaces|
    requires Unlinked(st, st', cur) && Distinct(st.nodes) && st.nodes[cur].InList()
    requires TailOk(st, s) && NextOk(st, cur) && PrevOk(st, cur) && SequenceOk(st, cur)
    requires st.spaces[s].tail >= 0 ==> PrevOk(st, st.spaces[s].tail)
    ensures TailOk(st', s)
  {
    var e := st.nodes[cur];
    if s == e.space && e.next < 0 {
      if e.prev < 0 { MergeGaps(st, st', cur, 0, st.spaces[s].shootSequence + 1); }
    } else if st.spaces[s].tail < 0 {
      KeepGap(st, st', s, 0, st.spaces[s].shootSequence + 1);
    }
  }

  lemma UnlinkNode(st: State, st': State, cur: nat, n: nat)
    requires WellFormed(st) && WellFormed(st') && ListInv(st) && cur < |st.nodes| && st.nodes[cur].InList()
    requires Unlinked(st, st', cur) && NodesEvolve(st, st') && n < |st.nodes| && st.nodes[n].Submitted()
    ensures SequenceOk(st', n) && NextOk(st', n) && PrevOk(st', n)
  {
    ListFacts(st, cur);
    ListFacts(st, n);
    if st.nodes[n].next >= 0 { ListFacts(st, st.nodes[n].next); }
    UnlinkNext(st, st', cur, n);
    UnlinkPrev(st, st', cur, n);
  }

  lemma ListFacts(st: State, n: nat)
    requires WellFormed(st) && ListInv(st) && n < |st.nodes| && st.nodes[n].Submitted()
    ensures SequenceOk(st, n) && NextOk(st, n) && PrevOk(st, n)
  {
  }

  lemma UnlinkSpace(st: State, st': State, cur: nat, s: nat)
    requires WellFormed(st) && WellFormed(st') && ListInv(st) && cur < |st.nodes| && st.nodes[cur].InList()
    requires Unlinked(st, st', cur) && NodesEvolve(st, st') && s < |st.spaces|
    ensures TailOk(st', s)
  {
    ListFacts(st, cur);
    assert TailOk(st, s);
    if st.spaces[s].tail >= 0 { ListFacts(st, st.spaces[s].tail); }
    UnlinkTail(st, st', cur, s);
  }

  lemma UnlinkDistinct(st: State, st': State, cur: nat)
    requires WellFormed(st) && cur < |st.nodes| && Distinct(st.nodes) && Unlinked(st, st', cur) && NodesEvolve(st, st')
    ensures Distinct(st'.nodes)
  {
  }

  lemma UnlinkKeepsList(st: State, st': State, cur: nat)
    requires WellFormed(st) && WellFormed(st') && ListInv(st) && cur < |st.nodes| && st.nodes[cur].InList()
    requires Unlinked(st, st', cur) && NodesEvolve(st, st')
    ensures ListInv(st')
  {
    forall n | 0 <= n < |st'.nodes| && st'.nodes[n].Submitted()
      ensures SequenceOk(st', n) && NextOk(st', n) && PrevOk(st', n)
    {
      UnlinkNode(st, st', cur, n);
    }
    forall s | 0 <= s < |st'.spaces| ensures TailOk(st', s) { UnlinkSpace(st, st', cur, s); }
    UnlinkDistinct(st, st', cur);
  }

  lemma EraseFrame(st: State, st': State, c: nat)
    requires Inv(st) && c < |st.cpus| && st.cpus[c].Erase? && PcInv(st, c) && PcWellFormed(st, st.cpus[c])
    requires Unlinked(st, st', st.cpus[c].cur) && st'.bindings == st.bindings
    requires st'.cpus == st.cpus[c := Complete(st.cpus[c].job, st.cpus[c].cur, st.cpus[c].nxt)]
    ensures WellFormed(st') && Guarantee(st, st', c) && ListInv(st')
  {
    UnlinkEvolves(st, st', st.cpus[c].cur);
    KeepWellFormed(st, st', c);
    UnlinkGuarantee(st, st', c, st.cpus[c].cur);
    UnlinkKeepsList(st, st', st.cpus[c].cur);
  }

  lemma UnlinkGuarantee(st: State, st': State, c: nat, cur: nat)
    requires WellFormed(st) && cur < |st.nodes| && c < |st.cpus| && Unlinked(st, st', cur) && NodesEvolve(st, st')
    requires st'.bindings == st.bindings && |st'.cpus| == |st.cpus| && st'.cpus == st.cpus[c := st'.cpus[c]]
    requires st.nodes[cur].owner == c
    ensures Guarantee(st, st', c)
  {
  }

  lemma KeepErase(st: State, c: nat)
    requires Inv(st) && c < |st.cpus| && st.cpus[c].Erase?
    ensures Inv(StepAdvance(st, c))
  {
    assert PcWellFormed(st, st.cpus[c]);
    assert PcInv(st, c);
    var cur := st.cpus[c].cur;
    var st' := StepErase(st, c, st.cpus[c].job, cur, st.cpus[c].nxt);
    assert NextOk(st, cur) && PrevOk(st, cur);
    EraseUnlinks(st, st', c);
    EraseKeeps(st, st', c);
  }

  lemma EraseKeeps(st: State, st': State, c: nat)
    requires Inv(st) && c < |st.cpus| && st.cpus[c].Erase? && PcInv(st, c) && PcWellFormed(st, st.cpus[c])
    requires Unlinked(st, st', st.cpus[c].cur) && st'.bindings == st.bindings
    requires st'.cpus == st.cpus[c := Complete(st.cpus[c].job, st.cpus[c].cur, st.cpus[c].nxt)]
    ensures Inv(st')
  {
    EraseFrame(st, st', c);
    ErasePc(st, st', c);
    forall n | 0 <= n < |st.nodes| ensures NodeInv(st', n) { EraseNode(st, st', c, n); }
    forall s | 0 <= s < |st.spaces| ensures SpaceInv(st', s) { KeepSpace(st, st', s); }
    forall b | 0 <= b < |st.bindings| && st.bindings[b].cpu == c
      ensures AttachInv(st', b) && WaitInv(st', b) && TlbInv(st', b)
    {
      EraseBinding(st, st', c, b);
    }
    Assemble(st, st', c);
  }

  /** What the lemmas about the step need to know of it. */
  ghost predicate Erases(st: State, st': State, c: nat) {
    && Inv(st) && WellFormed(st') && c < |st.cpus| && st.cpus[c].Erase?
    && Unlinked(st, st', st.cpus[c].cur) && st'.bindings == st.bindings
    && st'.cpus == st.cpus[c := Complete(st.cpus[c].job, st.cpus[c].cur, st.cpus[c].nxt)]
  }

  lemma ErasePc(st: State, st': State, c: nat)
    requires Erases(st, st', c) && NodesEvolve(st, st')
    ensures PcInv(st', c)
  {
    assert PcInv(st, c);
    KeepReachable(st, st', st.cpus[c].job, st.cpus[c].cur);
    KeepNextNode(st, st', st.cpus[c].job, st.cpus[c].cur, st.cpus[c].nxt);
  }

  lemma EraseNode(st: State, st': State, c: nat, n: nat)
    requires Erases(st, st', c) && n < |st.nodes|
    ensures NodeInv(st', n)
  {
    assert PcInv(st, c);
    assert NodeInv(st, n);
    var cur := st.cpus[c].cur;
    assert NextOk(st, cur) && PrevOk(st, cur);
    if n != cur { KeepNode(st, st', n); }
  }

  lemma EraseBinding(st: State, st': State, c: nat, b: nat)
    requires Erases(st, st', c) && b < |st.bindings| && st.bindings[b].cpu == c
    ensures AttachInv(st', b) && WaitInv(st', b) && TlbInv(st', b)
  {
    assert PcInv(st, c);
    assert AttachInv(st, b) && WaitInv(st, b);
    SettlesAttach(st, st', c, b);
    forall n | 0 <= n < |st'.nodes| ensures b in st'.nodes[n].waiting <==> Owes(st', b, n) {
      assert Owes(st, b, n) == Owes(st', b, n);
    }
    KeepTlb(st, st', b);
  }

  // ---- Epilogues ----

  /** The space whose RetireNode the epilogue completes, and the binding it clears; or -1. */
  function RetiredBy(pc: Pc): int {
    if pc.FinishRetire? then pc.space else if pc.Finish? && pc.job.retire then pc.job.space else -1
  }

  function ClearedBy(pc: Pc): int {
    if pc.Finish? && pc.job.kind.DrainAfterUnbind? then pc.job.binding else -1
  }

  /** The state after an epilogue, element by element. */
  ghost predicate Finished(st: State, st': State, c: nat) {
    && c < |st.cpus| && (st.cpus[c].Finish? || st.cpus[c].FinishRetire?)
    && st'.cpus == st.cpus[c := Idle] && st'.nodes == st.nodes
    && |st'.spaces| == |st.spaces| && |st'.bindings| == |st.bindings|
    && (forall s :: 0 <= s < |st.spaces| ==> st'.spaces[s] == if s != RetiredBy(st.cpus[c]) then st.spaces[s]
          else st.spaces[s].(retireHolder := -1, retireCompletions := st.spaces[s].retireCompletions + 1))
    && (forall b :: 0 <= b < |st.bindings| ==> st'.bindings[b] == if b != ClearedBy(st.cpus[c]) then st.bindings[b]
          else st.bindings[b].(boundSpace := -1, alreadyShot := 0))
  }

  lemma KeepFinish(st: State, c: nat)
    requires Inv(st) && c < |st.cpus| && (st.cpus[c].Finish? || st.cpus[c].FinishRetire?)
    ensures Inv(StepAdvance(st, c))
  {
    assert PcInv(st, c);
    assert PcWellFormed(st, st.cpus[c]);
    FinishKeeps(st, StepAdvance(st, c), c);
  }

  lemma FinishKeeps(st: State, st': State, c: nat)
    requires Inv(st) && Finished(st, st', c)
    ensures Inv(st')
  {
    FinishFrame(st, st', c);
    forall s | 0 <= s < |st.spaces| ensures SpaceInv(st', s) { FinishSpace(st, st', c, s); }
    forall b | 0 <= b < |st.bindings| && st.bindings[b].cpu == c
      ensures AttachInv(st', b) && WaitInv(st', b) && TlbInv(st', b)
    {
      FinishBinding(st, st', c, b);
    }
    AssembleSame(st, st', c);
  }

  lemma FinishSpace(st: State, st': State, c: nat, s: nat)
    requires Inv(st) && WellFormed(st') && Finished(st, st', c) && s < |st.spaces|
    ensures SpaceInv(st', s)
  {
    assert PcInv(st, c);
    assert SpaceInv(st, s);
  }

  lemma FinishFrame(st: State, st': State, c: nat)
    requires Inv(st) && Finished(st, st', c)
    ensures WellFormed(st') && Guarantee(st, st', c) && SameList(st, st')
  {
    assert PcInv(st, c);
    KeepWellFormed(st, st', c);
  }

  lemma FinishBinding(st: State, st': State, c: nat, b: nat)
    requires Inv(st) && WellFormed(st') && Finished(st, st', c) && b < |st.bindings| && st.bindings[b].cpu == c
    ensures AttachInv(st', b) && WaitInv(st', b) && TlbInv(st', b)
  {
    FinishAttach(st, st', c, b);
    FinishWait(st, st', c, b);
    KeepTlb(st, st', b);
  }

  lemma FinishAttach(st: State, st': State, c: nat, b: nat)
    requires Inv(st) && WellFormed(st') && Finished(st, st', c) && b < |st.bindings| && st.bindings[b].cpu == c
    ensures AttachInv(st', b)
  {
    assert PcInv(st, c);
    assert AttachInv(st, b);
  }

  lemma FinishWait(st: State, st': State, c: nat, b: nat)
    requires Inv(st) && WellFormed(st') && Finished(st, st', c) && b < |st.bindings| && st.bindings[b].cpu == c
    ensures WaitInv(st', b)
  {
    assert PcInv(st, c);
    assert AttachInv(st, b) && WaitInv(st, b);
    forall n | 0 <= n < |st'.nodes| ensures b in st'.nodes[n].waiting <==> Owes(st', b, n) {
      assert Owes(st, b, n) == Owes(st', b, n);
    }
  }

  // ---- Giving up and taking a binding ----

  lemma KeepDetach(st: State, c: nat)
    requires Inv(st) && c < |st.cpus| && st.cpus[c].Detach?
    ensures Inv(StepAdvance(st, c))
  {
    var st' := StepAdvance(st, c);
    DetachFrame(st, st', c);
    forall s | 0 <= s < |st.spaces| ensures SpaceInv(st', s) { DetachSpace(st, st', c, s); }
    forall b | 0 <= b < |st.bindings| && st.bindings[b].cpu == c
      ensures AttachInv(st', b) && WaitInv(st', b) && TlbInv(st', b)
    {
      DetachBinding(st, st', c, b);
    }
    DetachPc(st, st', c);
    AssembleSame(st, st', c);
  }

  lemma DetachFrame(st: State, st': State, c: nat)
    requires Inv(st) && c < |st.cpus| && st.cpus[c].Detach? && st' == StepAdvance(st, c)
    ensures WellFormed(st') && Guarantee(st, st', c) && SameList(st, st')
  {
    assert PcInv(st, c);
    assert PcWellFormed(st, st.cpus[c]);
    assert SpaceInv(st, st.cpus[c].space);
    KeepWellFormed(st, st', c);
  }

  lemma DetachPc(st: State, st': State, c: nat)
    requires Inv(st) && WellFormed(st') && c < |st.cpus| && st.cpus[c].Detach? && st' == StepAdvance(st, c)
    ensures PcInv(st', c)
  {
    assert PcInv(st, c);
    assert AttachInv(st, st.cpus[c].binding);
  }

  lemma DetachSpace(st: State, st': State, c: nat, s: nat)
    requires Inv(st) && WellFormed(st') && c < |st.cpus| && st.cpus[c].Detach?
    requires st' == StepAdvance(st, c) && s < |st.spaces|
    ensures SpaceInv(st', s)
  {
    assert PcInv(st, c);
    assert SpaceInv(st, s) && AttachInv(st, st.cpus[c].binding);
    if s == st.cpus[c].space {
      assert st.cpus[c].binding in st.spaces[s].attached;
    } else {
      KeepSpace(st, st', s);
    }
  }

  lemma DetachBinding(st: State, st': State, c: nat, b: nat)
    requires Inv(st) && WellFormed(st') && c < |st.cpus| && st.cpus[c].Detach?
    requires st' == StepAdvance(st, c) && b < |st.bindings| && st.bindings[b].cpu == c
    ensures AttachInv(st', b) && WaitInv(st', b) && TlbInv(st', b)
  {
    assert PcInv(st, c);
    assert AttachInv(st, b) && WaitInv(st, b);
    forall n | 0 <= n < |st'.nodes| ensures b in st'.nodes[n].waiting <==> Owes(st', b, n) {
      if st.nodes[n].Submitted() { assert SequenceOk(st, n); }
      assert Owes(st, b, n) == Owes(st', b, n);
    }
    KeepTlb(st, st', b);
  }

  lemma KeepSwitchTable(st: State, c: nat)
    requires Inv(st) && c < |st.cpus| && st.cpus[c].SwitchTable?
    ensures Inv(StepAdvance(st, c))
  {
    var st' := StepAdvance(st, c);
    SwitchTableFrame(st, st', c);
    forall s | 0 <= s < |st.spaces| ensures SpaceInv(st', s) { KeepSpace(st, st', s); }
    forall b | 0 <= b < |st.bindings| && st.bindings[b].cpu == c
      ensures AttachInv(st', b) && WaitInv(st', b) && TlbInv(st', b)
    {
      SwitchTableBinding(st, st', c, b);
    }
    AssembleSame(st, st', c);
  }

  lemma SwitchTableFrame(st: State, st': State, c: nat)
    requires Inv(st) && c < |st.cpus| && st.cpus[c].SwitchTable? && st' == StepAdvance(st, c)
    ensures WellFormed(st') && Guarantee(st, st', c) && SameList(st, st') && PcInv(st', c)
  {
    assert PcInv(st, c);
    assert PcWellFormed(st, st.cpus[c]);
    KeepWellFormed(st, st', c);
  }

  lemma SwitchTableBinding(st: State, st': State, c: nat, b: nat)
    requires Inv(st) && WellFormed(st') && c < |st.cpus| && st.cpus[c].SwitchTable?
    requires st' == StepAdvance(st, c) && b < |st.bindings| && st.bindings[b].cpu == c
    ensures AttachInv(st', b) && WaitInv(st', b) && TlbInv(st', b)
  {
    assert PcInv(st, c);
    assert AttachInv(st, b) && WaitInv(st, b);
    forall n | 0 <= n < |st'.nodes| ensures b in st'.nodes[n].waiting <==> Owes(st', b, n) {
      assert Owes(st, b, n) == Owes(st', b, n);
    }
    if b != st.cpus[c].binding { KeepTlb(st, st', b); }
  }
}

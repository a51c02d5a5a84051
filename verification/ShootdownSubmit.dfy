/** submitShootdown() keeps the invariant of the shootdown protocol. */
module ShootdownSubmit {
  import opened Shootdown
  import opened ShootdownInvariant
  import opened ShootdownSafety

  /** The synchronous loop covers exactly the attached bindings of the submitting CPU. */
  lemma SyncShotIsOwn(st: State, c: nat, s: nat, b: nat)
    requires Inv(st) && IsIdle(st, c) && s < |st.spaces| && (s == KERNEL ==> st.bindings[c].boundSpace == KERNEL)
    requires b < |st.bindings|
    ensures b in SyncShot(st, c, s) <==> b in st.spaces[s].attached && st.bindings[b].cpu == c
  {
    assert AttachInv(st, b) && AttachInv(st, c);
  }

  /** unshotBindings counts the attached bindings of the other CPUs. */
  lemma UnshotCount(st: State, c: nat, s: nat)
    requires Inv(st) && IsIdle(st, c) && s < |st.spaces| && (s == KERNEL ==> st.bindings[c].boundSpace == KERNEL)
    ensures SyncShot(st, c, s) <= st.spaces[s].attached
    ensures st.spaces[s].numBindings - |SyncShot(st, c, s)| == |st.spaces[s].attached - SyncShot(st, c, s)|
  {
    var sync, attached := SyncShot(st, c, s), st.spaces[s].attached;
    assert SpaceInv(st, s);
    forall b | b in sync ensures b in attached { SyncShotIsOwn(st, c, s, b); }
    assert attached == sync + (attached - sync);
  }

  /** What both outcomes of submitShootdown() have in common. */
  ghost predicate Submits(st: State, st': State, c: nat, s: nat, first: nat, count: nat) {
    && Inv(st) && Enabled(st, Submit(c, s, first, count)) && |st'.nodes| == |st.nodes| + 1
    && st'.cpus == st.cpus && st'.bindings == SyncInvalidate(st, SyncShot(st, c, s), first, count)
    && var node := st'.nodes[|st.nodes|];
    && node.space == s && node.first == first && node.count == count && node.initiator == c
    && node.waiting == st.spaces[s].attached - SyncShot(st, c, s) && node.table == st.spaces[s].table
    && node.bindingsToShoot == |node.waiting| && node.completions == 0
    && node.phase == (if node.waiting == {} then Immediate else Queued)
  }

  /** The push_back, element by element. */
  ghost predicate Pushed(st: State, st': State, s: nat)
    requires WellFormed(st) && s < |st.spaces|
  {
    var id, space := |st.nodes|, st.spaces[s];
    && |st'.nodes| == id + 1 && |st'.spaces| == |st.spaces|
    && (forall n :: 0 <= n < id ==>
          st'.nodes[n] == st.nodes[n].(next := if n == space.tail then id else st.nodes[n].next))
    && (forall t :: 0 <= t < |st.spaces| ==> st'.spaces[t] == st.spaces[t].(
          shootSequence := st.spaces[t].shootSequence + (if t == s then 1 else 0),
          tail := if t == s then id else st.spaces[t].tail))
    && var node := st'.nodes[id];
    && node.space == s && node.sequence == space.shootSequence + 1 && node.prev == space.tail && node.next == -1
    && node.phase == Queued
  }

  /** Nothing is queued: the node only appears in the history. */
  ghost predicate Unqueued(st: State, st': State) {
    && |st'.nodes| == |st.nodes| + 1 && st'.spaces == st.spaces
    && (forall n :: 0 <= n < |st.nodes| ==> st'.nodes[n] == st.nodes[n])
    && st'.nodes[|st.nodes|].prev == -1 == st'.nodes[|st.nodes|].next
    && st'.nodes[|st.nodes|].phase == Immediate
  }

  lemma SubmitCases(st: State, c: nat, s: nat, first: nat, count: nat)
    requires Inv(st) && Enabled(st, Submit(c, s, first, count))
    ensures var st' := StepSubmit(st, c, s, first, count);
      && Submits(st, st', c, s, first, count)
      && (st'.nodes[|st.nodes|].waiting == {} ==> Unqueued(st, st'))
      && (st'.nodes[|st.nodes|].waiting != {} ==> Pushed(st, st', s))
  {
    UnshotCount(st, c, s);
  }

  lemma SubmitWellFormed(st: State, st': State, c: nat, s: nat, first: nat, count: nat)
    requires Submits(st, st', c, s, first, count)
    requires |st'.spaces| == |st.spaces|
    requires forall n :: 0 <= n < |st'.nodes| ==>
      && st'.nodes[n].space < |st.spaces|
      && -1 <= st'.nodes[n].prev < |st'.nodes| && -1 <= st'.nodes[n].next < |st'.nodes|
    requires forall t :: 0 <= t < |st.spaces| ==> -1 <= st'.spaces[t].tail < |st'.nodes|
    ensures WellFormed(st')
  {
    assert PcWellFormed(st', st'.cpus[c]);
    KeepWellFormed(st, st', c);
  }

  // ---- Every binding after a submission ----

  /** What a submission leaves alone: TLBs of other CPUs, old nodes, attachments. */
  ghost predicate Extends(st: State, st': State, c: nat) {
    && st'.cpus == st.cpus && c < |st.cpus| && |st'.bindings| == |st.bindings| && NodesEvolve(st, st')
    && (forall b :: 0 <= b < |st.bindings| ==>
          && st'.bindings[b] == st.bindings[b].(tlb := st'.bindings[b].tlb)
          && (st.bindings[b].cpu != c ==> st'.bindings[b].tlb == st.bindings[b].tlb)
          && (forall p :: p in st'.bindings[b].tlb ==>
                p in st.bindings[b].tlb && st'.bindings[b].tlb[p] == st.bindings[b].tlb[p]))
    && (forall n :: 0 <= n < |st.nodes| ==> st'.nodes[n] == st.nodes[n].(next := st'.nodes[n].next))
    && (forall t :: 0 <= t < |st.spaces| ==>
          st'.spaces[t] == st.spaces[t].(tail := st'.spaces[t].tail, shootSequence := st'.spaces[t].shootSequence))
  }

  lemma SubmitBinding(st: State, st': State, c: nat, s: nat, first: nat, count: nat, b: nat)
    requires Inv(st) && Enabled(st, Submit(c, s, first, count)) && b < |st.bindings|
    requires st'.bindings == SyncInvalidate(st, SyncShot(st, c, s), first, count)
    ensures |st'.bindings| == |st.bindings| && st'.bindings[b] == st.bindings[b].(tlb := st'.bindings[b].tlb)
    ensures st.bindings[b].cpu != c ==> st'.bindings[b].tlb == st.bindings[b].tlb
    ensures forall p :: p in st'.bindings[b].tlb ==>
      p in st.bindings[b].tlb && st'.bindings[b].tlb[p] == st.bindings[b].tlb[p]
  {
    SyncShotIsOwn(st, c, s, b);
  }

  lemma SubmitExtends(st: State, st': State, c: nat, s: nat, first: nat, count: nat)
    requires Submits(st, st', c, s, first, count) && NodesEvolve(st, st')
    requires forall n :: 0 <= n < |st.nodes| ==> st'.nodes[n] == st.nodes[n].(next := st'.nodes[n].next)
    requires forall t :: 0 <= t < |st.spaces| ==>
      st'.spaces[t] == st.spaces[t].(tail := st'.spaces[t].tail, shootSequence := st'.spaces[t].shootSequence)
    ensures Extends(st, st', c)
  {
    forall b | 0 <= b < |st.bindings| ensures
      && st'.bindings[b] == st.bindings[b].(tlb := st'.bindings[b].tlb)
      && (st.bindings[b].cpu != c ==> st'.bindings[b].tlb == st.bindings[b].tlb)
      && (forall p :: p in st'.bindings[b].tlb ==>
            p in st.bindings[b].tlb && st'.bindings[b].tlb[p] == st.bindings[b].tlb[p])
    {
      SubmitBinding(st, st', c, s, first, count, b);
    }
  }

  lemma ExtendsFrames(st: State, st': State, c: nat)
    requires Extends(st, st', c)
    ensures Guarantee(st, st', c) && Rely(st, st', c)
  {
  }

  /** The new node waits for the attached bindings of the other CPUs. */
  lemma NewNodeOwed(st: State, st': State, c: nat, s: nat, b: nat)
    requires Inv(st) && WellFormed(st') && Extends(st, st', c) && |st'.nodes| == |st.nodes| + 1
    requires b < |st.bindings| && s < |st.spaces|
    requires var node := st'.nodes[|st.nodes|];
      && node.space == s && node.initiator == c
      && (b in node.waiting <==> b in st.spaces[s].attached && st.bindings[b].cpu != c)
      && (node.Submitted() ==> node.sequence == st.spaces[s].shootSequence + 1)
      && (!node.Submitted() ==> node.waiting == {})
    ensures b in st'.nodes[|st.nodes|].waiting <==> Owes(st', b, |st.nodes|)
  {
    assert AttachInv(st, b) && PcInv(st, st.bindings[b].cpu);
    assert PcWellFormed(st, st.cpus[st.bindings[b].cpu]);
  }

  /** The submitting CPU has dropped what the new node covers from its own TLB. */
  lemma NewNodeFresh(st: State, st': State, c: nat, s: nat, first: nat, count: nat, b: nat)
    requires Submits(st, st', c, s, first, count) && b < |st.bindings| && b in SyncShot(st, c, s)
    ensures |st'.bindings| == |st.bindings| && Fresh(st'.bindings[b].tlb, st'.nodes[|st.nodes|])
  {
    InvalidatedIsFresh(st.bindings[b].tlb, IsGlobal(st, b), st'.nodes[|st.nodes|]);
  }

  lemma SubmitOwed(st: State, st': State, c: nat, s: nat, first: nat, count: nat, b: nat)
    requires Submits(st, st', c, s, first, count) && WellFormed(st') && Extends(st, st', c) && b < |st.bindings|
    requires st'.nodes[|st.nodes|].Submitted() ==> st'.nodes[|st.nodes|].sequence == st.spaces[s].shootSequence + 1
    ensures b in st'.nodes[|st.nodes|].waiting <==> Owes(st', b, |st.nodes|)
  {
    SyncShotIsOwn(st, c, s, b);
    NewNodeOwed(st, st', c, s, b);
  }

  lemma SubmitFresh(st: State, st': State, c: nat, s: nat, first: nat, count: nat, b: nat)
    requires Submits(st, st', c, s, first, count) && b < |st.bindings|
    requires st.bindings[b].tlbSpace == s && b !in st'.nodes[|st.nodes|].waiting
    ensures |st'.bindings| == |st.bindings| && Fresh(st'.bindings[b].tlb, st'.nodes[|st.nodes|])
  {
    assert AttachInv(st, b);
    assert b in SyncShot(st, c, s);
    NewNodeFresh(st, st', c, s, first, count, b);
  }

  lemma SubmitNewNode(st: State, st': State, c: nat, s: nat, first: nat, count: nat, b: nat)
    requires Submits(st, st', c, s, first, count) && WellFormed(st') && Extends(st, st', c) && b < |st.bindings|
    requires st'.nodes[|st.nodes|].Submitted() ==> st'.nodes[|st.nodes|].sequence == st.spaces[s].shootSequence + 1
    ensures NewNodesOk(st, st', b)
  {
    SubmitOwed(st, st', c, s, first, count, b);
    if s == st.bindings[b].tlbSpace && b !in st'.nodes[|st.nodes|].waiting {
      SubmitFresh(st, st', c, s, first, count, b);
    }
    OneNewNode(st, st', b);
  }

  lemma OneNewNode(st: State, st': State, b: nat)
    requires WellFormed(st') && b < |st'.bindings| && |st'.nodes| == |st.nodes| + 1
    requires b in st'.nodes[|st.nodes|].waiting <==> Owes(st', b, |st.nodes|)
    requires st'.nodes[|st.nodes|].space == st'.bindings[b].tlbSpace && b !in st'.nodes[|st.nodes|].waiting ==>
               Fresh(st'.bindings[b].tlb, st'.nodes[|st.nodes|])
    ensures NewNodesOk(st, st', b)
  {
  }

  lemma ExtendsBinding(st: State, st': State, c: nat, b: nat)
    requires Inv(st) && WellFormed(st') && Extends(st, st', c) && Rely(st, st', c)
    requires b < |st.bindings| && st.bindings[b].cpu == c && NewNodesOk(st, st', b) && st.cpus[c].Idle?
    ensures AttachInv(st', b) && WaitInv(st', b) && TlbInv(st', b)
  {
    KeepBinding(st, st', b);
    assert TlbInv(st, b);
    forall n | 0 <= n < |st'.nodes| && st'.nodes[n].space == st'.bindings[b].tlbSpace && b !in st'.nodes[n].waiting
      ensures Fresh(st'.bindings[b].tlb, st'.nodes[n])
    {
      if n < |st.nodes| {
        assert Fresh(st.bindings[b].tlb, st.nodes[n]);
        assert forall p :: st'.nodes[n].Covers(p) == st.nodes[n].Covers(p);
      }
    }
  }

  lemma ExtendsKeeps(st: State, st': State, c: nat)
    requires Inv(st) && WellFormed(st') && Extends(st, st', c) && ListInv(st') && st.cpus[c].Idle?
    requires |st'.nodes| == |st.nodes| + 1 && NodeInv(st', |st.nodes|)
    requires forall b :: 0 <= b < |st.bindings| ==> NewNodesOk(st, st', b)
    ensures Inv(st')
  {
    ExtendsFrames(st, st', c);
    forall n | 0 <= n < |st.nodes| ensures NodeInv(st', n) { KeepNode(st, st', n); }
    forall t | 0 <= t < |st.spaces| ensures SpaceInv(st', t) { KeepSpace(st, st', t); }
    forall b | 0 <= b < |st.bindings| && st.bindings[b].cpu == c
      ensures AttachInv(st', b) && WaitInv(st', b) && TlbInv(st', b)
    {
      ExtendsBinding(st, st', c, b);
    }
    Assemble(st, st', c);
  }

  lemma SubmitAssemble(st: State, st': State, c: nat, s: nat, first: nat, count: nat)
    requires Submits(st, st', c, s, first, count) && WellFormed(st') && Extends(st, st', c) && ListInv(st')
    requires st'.nodes[|st.nodes|].Submitted() ==> st'.nodes[|st.nodes|].sequence == st.spaces[s].shootSequence + 1
    ensures Inv(st')
  {
    assert NodeInv(st', |st.nodes|) by { assert SpaceInv(st, s); }
    forall b | 0 <= b < |st.bindings| ensures NewNodesOk(st, st', b) {
      SubmitNewNode(st, st', c, s, first, count, b);
    }
    ExtendsKeeps(st, st', c);
  }

  // ---- The list after a submission ----

  lemma PushEvolves(st: State, st': State, s: nat)
    requires WellFormed(st) && s < |st.spaces| && Pushed(st, st', s)
    ensures NodesEvolve(st, st')
    ensures forall n :: 0 <= n < |st'.nodes| ==>
      && st'.nodes[n].space < |st.spaces|
      && -1 <= st'.nodes[n].prev < |st'.nodes| && -1 <= st'.nodes[n].next < |st'.nodes|
    ensures forall t :: 0 <= t < |st.spaces| ==> -1 <= st'.spaces[t].tail < |st'.nodes|
  {
  }

  lemma PushOld(st: State, st': State, s: nat, n: nat)
    requires WellFormed(st) && WellFormed(st') && s < |st.spaces| && Pushed(st, st', s) && NodesEvolve(st, st')
    requires n < |st.nodes| && st.nodes[n].Submitted() && SequenceOk(st, n) && NextOk(st, n) && PrevOk(st, n)
    requires TailOk(st, s) && (st.nodes[n].next >= 0 ==> SequenceOk(st, st.nodes[n].next))
    ensures SequenceOk(st', n) && NextOk(st', n) && PrevOk(st', n)
  {
    var x := st.nodes[n];
    KeepGap(st, st', x.space, if x.prev < 0 then 0 else st.nodes[x.prev].sequence, x.sequence);
    if x.next < 0 {
      KeepGap(st, st', x.space, x.sequence, 1 + if x.InList() then st.spaces[x.space].shootSequence else x.erasedAt);
    } else {
      KeepGap(st, st', x.space, x.sequence, st.nodes[x.next].sequence);
    }
  }

  lemma PushNew(st: State, st': State, s: nat)
    requires WellFormed(st) && WellFormed(st') && ListInv(st) && s < |st.spaces|
    requires Pushed(st, st', s) && NodesEvolve(st, st')
    ensures SequenceOk(st', |st.nodes|) && NextOk(st', |st.nodes|) && PrevOk(st', |st.nodes|)
  {
    var id, space := |st.nodes|, st.spaces[s];
    assert TailOk(st, s);
    forall m | 0 <= m < |st'.nodes| && st'.nodes[m].InList() && st'.nodes[m].space == s
      ensures st'.nodes[m].sequence <= space.shootSequence + 1
    {
      if m < id { assert SequenceOk(st, m); }
    }
    if space.tail >= 0 {
      assert NextOk(st, space.tail) && SequenceOk(st, space.tail);
      KeepGap(st, st', s, st.nodes[space.tail].sequence, space.shootSequence + 1);
    } else {
      KeepGap(st, st', s, 0, space.shootSequence + 1);
    }
  }

  lemma PushKeepsList(st: State, st': State, s: nat)
    requires WellFormed(st) && WellFormed(st') && ListInv(st) && s < |st.spaces|
    requires Pushed(st, st', s) && NodesEvolve(st, st')
    ensures ListInv(st')
  {
    forall n | 0 <= n < |st'.nodes| && st'.nodes[n].Submitted()
      ensures SequenceOk(st', n) && NextOk(st', n) && PrevOk(st', n)
    {
      if n < |st.nodes| {
        assert SequenceOk(st, n) && NextOk(st, n) && PrevOk(st, n) && TailOk(st, s);
        if st.nodes[n].next >= 0 { assert SequenceOk(st, st.nodes[n].next); }
        PushOld(st, st', s, n);
      } else {
        PushNew(st, st', s);
      }
    }
    forall t | 0 <= t < |st'.spaces| ensures TailOk(st', t) {
      assert TailOk(st, t);
      if t != s && st.spaces[t].tail < 0 { KeepGap(st, st', t, 0, st.spaces[t].shootSequence + 1); }
      if st.spaces[s].tail >= 0 { assert TailOk(st, s); }
    }
    PushDistinct(st, st', s);
  }

  lemma PushDistinct(st: State, st': State, s: nat)
    requires WellFormed(st) && ListInv(st) && s < |st.spaces| && Pushed(st, st', s)
    ensures Distinct(st'.nodes)
  {
    forall m, n | 0 <= m < n < |st'.nodes| && st'.nodes[m].Submitted() && st'.nodes[n].Submitted()
      && st'.nodes[m].space == st'.nodes[n].space
      ensures st'.nodes[m].sequence != st'.nodes[n].sequence
    {
      assert SequenceOk(st, m);
      assert st.nodes[m].sequence == st'.nodes[m].sequence;
      if n < |st.nodes| { assert st.nodes[n].sequence == st'.nodes[n].sequence; }
    }
  }

  lemma KeepSubmit(st: State, c: nat, s: nat, first: nat, count: nat)
    requires Inv(st) && Enabled(st, Submit(c, s, first, count))
    ensures Inv(StepSubmit(st, c, s, first, count))
  {
    var st' := StepSubmit(st, c, s, first, count);
    SubmitCases(st, c, s, first, count);
    if st'.nodes[|st.nodes|].waiting == {} {
      KeepImmediate(st, st', c, s, first, count);
    } else {
      KeepPush(st, st', c, s, first, count);
    }
  }

  lemma KeepPush(st: State, st': State, c: nat, s: nat, first: nat, count: nat)
    requires Submits(st, st', c, s, first, count) && Pushed(st, st', s)
    ensures Inv(st')
  {
    PushEvolves(st, st', s);
    SubmitWellFormed(st, st', c, s, first, count);
    PushKeepsList(st, st', s);
    SubmitExtends(st, st', c, s, first, count);
    SubmitAssemble(st, st', c, s, first, count);
  }

  lemma KeepImmediate(st: State, st': State, c: nat, s: nat, first: nat, count: nat)
    requires Submits(st, st', c, s, first, count) && Unqueued(st, st')
    ensures Inv(st')
  {
    SubmitWellFormed(st, st', c, s, first, count);
    UnqueuedEvolves(st, st');
    UnqueuedKeepsList(st, st');
    SubmitExtends(st, st', c, s, first, count);
    SubmitAssemble(st, st', c, s, first, count);
  }

  lemma UnqueuedEvolves(st: State, st': State)
    requires Unqueued(st, st')
    ensures NodesEvolve(st, st')
  {
  }

  lemma UnqueuedNode(st: State, st': State, n: nat)
    requires WellFormed(st) && WellFormed(st') && Unqueued(st, st') && NodesEvolve(st, st')
    requires n < |st.nodes| && st.nodes[n].Submitted() && SequenceOk(st, n) && NextOk(st, n) && PrevOk(st, n)
    requires st.nodes[n].next >= 0 ==> SequenceOk(st, st.nodes[n].next)
    ensures SequenceOk(st', n) && NextOk(st', n) && PrevOk(st', n)
  {
    var x := st.nodes[n];
    KeepGap(st, st', x.space, if x.prev < 0 then 0 else st.nodes[x.prev].sequence, x.sequence);
    KeepGap(st, st', x.space, x.sequence,
      if x.next >= 0 then st.nodes[x.next].sequence
      else 1 + if x.InList() then st.spaces[x.space].shootSequence else x.erasedAt);
  }

  lemma UnqueuedKeepsList(st: State, st': State)
    requires WellFormed(st) && WellFormed(st') && ListInv(st) && Unqueued(st, st') && NodesEvolve(st, st')
    ensures ListInv(st')
  {
    forall n | 0 <= n < |st'.nodes| && st'.nodes[n].Submitted()
      ensures SequenceOk(st', n) && NextOk(st', n) && PrevOk(st', n)
    {
      assert SequenceOk(st, n) && NextOk(st, n) && PrevOk(st, n);
      if st.nodes[n].next >= 0 { assert SequenceOk(st, st.nodes[n].next); }
      UnqueuedNode(st, st', n);
    }
    forall t | 0 <= t < |st'.spaces| ensures TailOk(st', t) {
      assert TailOk(st, t);
      if st.spaces[t].tail < 0 { KeepGap(st, st', t, 0, st.spaces[t].shootSequence + 1); }
    }
  }
}

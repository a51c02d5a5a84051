/**
 The invariant of the shootdown protocol, one predicate per part of the state, and
 the frame lemmas that carry each part over a step of another CPU.
 */
module ShootdownInvariant {
  import opened Shootdown

  // ---- The lock-free list ----

  /** No listed node of space s has a sequence strictly between lo and hi. */
  ghost predicate Gap(nodes: seq<Node>, s: nat, lo: int, hi: int) {
    forall m :: 0 <= m < |nodes| && nodes[m].InList() && nodes[m].space == s ==>
      nodes[m].sequence <= lo || hi <= nodes[m].sequence
  }

  /** All listed nodes of space s strictly between lo and hi were submitted by CPU c. */
  ghost predicate OnlyOwn(nodes: seq<Node>, s: nat, lo: int, hi: int, c: nat) {
    forall m :: 0 <= m < |nodes| && nodes[m].InList() && nodes[m].space == s ==>
      nodes[m].sequence <= lo || hi <= nodes[m].sequence || nodes[m].initiator == c
  }

  ghost predicate NextOk(st: State, n: nat)
    requires WellFormed(st) && n < |st.nodes|
  {
    var x := st.nodes[n];
    if x.next < 0 then
      && (x.InList() ==> st.spaces[x.space].tail == n)
      && Gap(st.nodes, x.space, x.sequence, 1 + if x.InList() then st.spaces[x.space].shootSequence else x.erasedAt)
    else
      var y := st.nodes[x.next];
      && y.Submitted() && y.space == x.space && x.sequence < y.sequence
      && Gap(st.nodes, x.space, x.sequence, y.sequence)
      && (if x.InList() then y.InList() && y.prev == n else y.InList() || x.erasedAt <= y.erasedAt)
  }

  ghost predicate PrevOk(st: State, n: nat)
    requires WellFormed(st) && n < |st.nodes|
  {
    var x := st.nodes[n];
    if x.prev < 0 then Gap(st.nodes, x.space, 0, x.sequence)
    else
      var y := st.nodes[x.prev];
      && y.Submitted() && y.space == x.space && y.sequence < x.sequence
      && Gap(st.nodes, x.space, y.sequence, x.sequence)
      && (if x.InList() then y.InList() && y.next == n else y.InList() || x.erasedAt <= y.erasedAt)
  }

  ghost predicate SequenceOk(st: State, n: nat)
    requires WellFormed(st) && n < |st.nodes|
  {
    var x := st.nodes[n];
    && 0 < x.sequence <= st.spaces[x.space].shootSequence
    && (!x.InList() ==> x.sequence <= x.erasedAt <= st.spaces[x.space].shootSequence)
  }

  ghost predicate TailOk(st: State, s: nat)
    requires WellFormed(st) && s < |st.spaces|
  {
    var space := st.spaces[s];
    if space.tail < 0 then Gap(st.nodes, s, 0, space.shootSequence + 1)
    else
      var t := st.nodes[space.tail];
      t.InList() && t.space == s && t.next < 0
  }

  ghost predicate Distinct(nodes: seq<Node>) {
    forall m, n ::
      0 <= m < n < |nodes| && nodes[m].Submitted() && nodes[n].Submitted() && nodes[m].space == nodes[n].space
      ==> nodes[m].sequence != nodes[n].sequence
  }

  ghost predicate ListInv(st: State)
    requires WellFormed(st)
  {
    && (forall n {:trigger SequenceOk(st, n)} :: 0 <= n < |st.nodes| && st.nodes[n].Submitted() ==> SequenceOk(st, n))
    && (forall n {:trigger NextOk(st, n)} :: 0 <= n < |st.nodes| && st.nodes[n].Submitted() ==> NextOk(st, n))
    && (forall n {:trigger PrevOk(st, n)} :: 0 <= n < |st.nodes| && st.nodes[n].Submitted() ==> PrevOk(st, n))
    && (forall s :: 0 <= s < |st.spaces| ==> TailOk(st, s))
    && Distinct(st.nodes)
  }

  // ---- Program counters ----

  predicate HasJob(pc: Pc) {
    || pc.LoadTail? || pc.LoadPrev? || pc.LoadNext? || pc.Visit?
    || pc.Decrement? || pc.Erase? || pc.Complete? || pc.Finish?
  }

  /** The space the binding still has to detach from besides its boundSpace, or -1. */
  function Leaving(pc: Pc, b: nat): int {
    if pc.SwitchTable? && pc.binding == b then pc.from
    else if pc.Detach? && pc.binding == b then pc.space
    else -1
  }

  predicate UnbindDrains(pc: Pc, b: nat) {
    HasJob(pc) && pc.job.kind.DrainAfterUnbind? && pc.job.binding == b
  }

  predicate AttachedTo(pc: Pc, b: nat, boundSpace: int, s: nat) {
    (s == boundSpace && !UnbindDrains(pc, b)) || s == Leaving(pc, b)
  }

  /** The sequence up to which an attached binding has dealt with the nodes of space s. */
  function Floor(pc: Pc, b: nat, alreadyShot: nat, s: nat): nat {
    if s == Leaving(pc, b) then (if pc.SwitchTable? then pc.fromSequence else pc.sequence) else alreadyShot
  }

  /** A drain of binding b on space s that has yet to reach the given sequence. */
  predicate Drains(pc: Pc, b: nat, s: nat, sequence: nat) {
    && HasJob(pc) && !pc.Finish? && !pc.job.kind.Process?
    && pc.job.binding == b && pc.job.space == s && pc.job.lo < sequence <= pc.job.upTo
  }

  /** Binding b must still decrement bindingsToShoot_ of node n. */
  ghost predicate Owes(st: State, b: nat, n: nat)
    requires WellFormed(st) && b < |st.bindings| && n < |st.nodes|
  {
    var node := st.nodes[n];
    var binding := st.bindings[b];
    var pc := st.cpus[binding.cpu];
    && node.Submitted() && node.initiator != binding.cpu
    && (|| (b in st.spaces[node.space].attached && Floor(pc, b, binding.alreadyShot, node.space) < node.sequence)
        || Drains(pc, b, node.space, node.sequence))
  }

  ghost predicate JobInv(st: State, c: nat, job: Job)
    requires WellFormed(st) && JobWellFormed(st, job)
  {
    var binding := st.bindings[job.binding];
    var space := st.spaces[job.space];
    && binding.cpu == c && job.lo <= space.shootSequence && job.goal <= space.shootSequence
    && (job.retire ==> !job.kind.Process? && space.retireHolder == c)
    && (job.kind.Process? ==> binding.boundSpace == job.space && binding.alreadyShot == job.lo)
    && (!job.kind.Process? ==>
          && job.upTo <= space.shootSequence
          && job.binding !in space.attached && !IsGlobal(st, job.binding)
          && (job.kind.DrainAfterUnbind? <==> binding.boundSpace == job.space))
  }

  /** A node a traversal can stand on: listed, or erased after the traversal began. */
  ghost predicate Reachable(st: State, job: Job, n: nat)
    requires n < |st.nodes|
  {
    var x := st.nodes[n];
    x.Submitted() && x.space == job.space && (x.InList() || job.goal <= x.erasedAt)
  }

  ghost predicate ScanInv(st: State, job: Job, cur: nat)
    requires cur < |st.nodes|
  {
    && Reachable(st, job, cur)
    && (!job.kind.Process? ==> job.upTo <= job.goal)
  }

  ghost predicate NextNodeOk(st: State, job: Job, cur: nat, nxt: int)
    requires cur < |st.nodes| && -1 <= nxt < |st.nodes|
  {
    if nxt < 0 then Gap(st.nodes, job.space, st.nodes[cur].sequence, job.goal + 1)
    else
      && Reachable(st, job, nxt) && st.nodes[cur].sequence < st.nodes[nxt].sequence
      && Gap(st.nodes, job.space, st.nodes[cur].sequence, st.nodes[nxt].sequence)
  }

  /** What holds while a traversal moves forward and stands on cur. */
  ghost predicate ForwardInv(st: State, c: nat, job: Job, cur: nat)
    requires cur < |st.nodes|
  {
    && ScanInv(st, job, cur) && job.lo < st.nodes[cur].sequence
    && OnlyOwn(st.nodes, job.space, job.lo, st.nodes[cur].sequence, c)
  }

  ghost predicate PcInv(st: State, c: nat)
    requires WellFormed(st) && c < |st.cpus|
  {
    assert PcWellFormed(st, st.cpus[c]);
    match st.cpus[c]
    case Idle => true
    case SwitchTable(b, from, sequence) =>
      && st.bindings[b].cpu == c && !IsGlobal(st, b) && st.bindings[b].boundSpace != from
      && st.bindings[b].tlbSpace != st.bindings[b].boundSpace
    case Detach(b, s, sequence, kind) =>
      && st.bindings[b].cpu == c && !IsGlobal(st, b) && st.bindings[b].tlbSpace != s
      && (kind.DrainAfterUnbind? <==> st.bindings[b].boundSpace == s) && !kind.Process?
      && (kind.DrainAfterUnbind? ==> sequence == st.bindings[b].alreadyShot)
    case LoadTail(job) => JobInv(st, c, job)
    case LoadPrev(job, cur) => JobInv(st, c, job) && ScanInv(st, job, cur) && job.lo < st.nodes[cur].sequence
    case LoadNext(job, cur) => JobInv(st, c, job) && ForwardInv(st, c, job, cur)
    case Visit(job, cur, nxt) =>
      JobInv(st, c, job) && ForwardInv(st, c, job, cur) && NextNodeOk(st, job, cur, nxt)
    case Decrement(job, cur, nxt) =>
      && JobInv(st, c, job) && ForwardInv(st, c, job, cur) && NextNodeOk(st, job, cur, nxt)
      && st.nodes[cur].initiator != c && (!job.kind.Process? ==> st.nodes[cur].sequence <= job.upTo)
    case Erase(job, cur, nxt) =>
      && JobInv(st, c, job) && ScanInv(st, job, cur) && NextNodeOk(st, job, cur, nxt)
      && st.nodes[cur].sequence == job.lo && st.nodes[cur].phase == Drained && st.nodes[cur].owner == c
    case Complete(job, cur, nxt) =>
      && JobInv(st, c, job) && ScanInv(st, job, cur) && NextNodeOk(st, job, cur, nxt)
      && st.nodes[cur].sequence == job.lo && st.nodes[cur].phase == Erased && st.nodes[cur].owner == c
    case Finish(job) => JobInv(st, c, job) && !job.kind.Process?
    case FinishRetire(s) => st.spaces[s].retireHolder == c
  }

  // ---- Nodes, spaces, bindings ----

  ghost predicate NodeInv(st: State, n: nat)
    requires WellFormed(st) && n < |st.nodes|
  {
    var x := st.nodes[n];
    && (x.Submitted() ==> x.bindingsToShoot == |x.waiting|)
    && (x.phase.Queued? <==> x.waiting != {})
    && x.completions == (if x.phase.Completed? then 1 else 0)
    && (x.phase.Drained? ==> 0 <= x.owner < |st.cpus| && st.cpus[x.owner].Erase? && st.cpus[x.owner].cur == n)
    && (x.phase.Erased? ==> 0 <= x.owner < |st.cpus| && st.cpus[x.owner].Complete? && st.cpus[x.owner].cur == n)
    && (forall b :: b in x.waiting ==> b < |st.bindings|)
    && (forall p :: Version(x.table, p) <= Version(st.spaces[x.space].table, p))
  }

  predicate HoldsRetireNode(pc: Pc, s: nat) {
    (pc.FinishRetire? && pc.space == s) || (HasJob(pc) && pc.job.retire && pc.job.space == s)
  }

  ghost predicate SpaceInv(st: State, s: nat)
    requires WellFormed(st) && s < |st.spaces|
  {
    var space := st.spaces[s];
    && space.numBindings == |space.attached|
    && (forall b :: b in space.attached ==> b < |st.bindings|)
    && (s == KERNEL ==> !space.retired)
    && (space.wantToRetire ==> space.retired)
    && (!space.retired ==> !space.retireNode && space.retireHolder == -1 && space.retireCompletions == 0)
    && (space.retired ==>
          || (space.retireNode && space.retireHolder == -1 && space.retireCompletions == 0 && space.attached != {})
          || (!space.retireNode && 0 <= space.retireHolder < |st.cpus| && space.retireCompletions == 0
              && space.attached == {} && HoldsRetireNode(st.cpus[space.retireHolder], s))
          || (!space.retireNode && space.retireHolder == -1 && space.retireCompletions == 1 && space.attached == {}))
  }

  ghost predicate AttachInv(st: State, b: nat)
    requires WellFormed(st) && b < |st.bindings|
  {
    var binding := st.bindings[b];
    var pc := st.cpus[binding.cpu];
    && (forall s :: 0 <= s < |st.spaces| ==>
          (b in st.spaces[s].attached <==> AttachedTo(pc, b, binding.boundSpace, s)))
    && (forall s :: 0 <= s < |st.spaces| && b in st.spaces[s].attached ==>
          Floor(pc, b, binding.alreadyShot, s) <= st.spaces[s].shootSequence)
    && (binding.tlbSpace >= 0 ==> b in st.spaces[binding.tlbSpace].attached)
    && (if IsGlobal(st, b) then binding.boundSpace <= KERNEL else binding.boundSpace != KERNEL)
  }

  ghost predicate WaitInv(st: State, b: nat)
    requires WellFormed(st) && b < |st.bindings|
  {
    forall n {:trigger Owes(st, b, n)} {:trigger b in st.nodes[n].waiting} ::
      0 <= n < |st.nodes| ==> (b in st.nodes[n].waiting <==> Owes(st, b, n))
  }

  /** doShootdown_() of binding b is between invalidateNode() and the fetch_sub of node n. */
  predicate JustInvalidated(pc: Pc, b: nat, n: nat) {
    pc.Decrement? && pc.job.kind.Process? && pc.job.binding == b && pc.cur == n
  }

  ghost predicate Fresh(tlb: map<nat, nat>, node: Node) {
    forall p :: p in tlb && node.Covers(p) ==> Version(node.table, p) <= tlb[p]
  }

  ghost predicate TlbInv(st: State, b: nat)
    requires WellFormed(st) && b < |st.bindings|
  {
    forall n {:trigger Fresh(st.bindings[b].tlb, st.nodes[n])} ::
      0 <= n < |st.nodes| && st.nodes[n].space == st.bindings[b].tlbSpace
      && (b !in st.nodes[n].waiting || JustInvalidated(st.cpus[st.bindings[b].cpu], b, n))
      ==> Fresh(st.bindings[b].tlb, st.nodes[n])
  }

  ghost predicate Inv(st: State) {
    && WellFormed(st) && ListInv(st)
    && (forall c :: 0 <= c < |st.cpus| ==> PcInv(st, c))
    && (forall n :: 0 <= n < |st.nodes| ==> NodeInv(st, n))
    && (forall s :: 0 <= s < |st.spaces| ==> SpaceInv(st, s))
    && (forall b :: 0 <= b < |st.bindings| ==> AttachInv(st, b))
    && (forall b :: 0 <= b < |st.bindings| ==> WaitInv(st, b))
    && (forall b :: 0 <= b < |st.bindings| ==> TlbInv(st, b))
  }

  // ---- Frames ----

  /** The list looks the same before and after. */
  ghost predicate SameList(st: State, st': State) {
    && |st'.nodes| == |st.nodes| && |st'.spaces| == |st.spaces|
    && (forall n :: 0 <= n < |st.nodes| ==>
          var x, x' := st.nodes[n], st'.nodes[n];
          && x'.space == x.space && x'.sequence == x.sequence && x'.InList() == x.InList()
          && x'.Submitted() == x.Submitted() && x'.prev == x.prev && x'.next == x.next && x'.erasedAt == x.erasedAt
          && x'.initiator == x.initiator)
    && (forall s :: 0 <= s < |st.spaces| ==>
          st'.spaces[s].tail == st.spaces[s].tail && st'.spaces[s].shootSequence == st.spaces[s].shootSequence)
  }

  lemma KeepList(st: State, st': State)
    requires WellFormed(st) && WellFormed(st') && ListInv(st) && SameList(st, st')
    ensures ListInv(st')
  {
    forall n | 0 <= n < |st'.nodes| && st'.nodes[n].Submitted()
      ensures SequenceOk(st', n) && NextOk(st', n) && PrevOk(st', n)
    {
      assert SequenceOk(st, n) && NextOk(st, n) && PrevOk(st, n);
    }
    forall s | 0 <= s < |st'.spaces| ensures TailOk(st', s) {
      assert TailOk(st, s);
    }
  }

  /** What any step leaves alone of the nodes that exist. */
  ghost predicate NodesEvolve(st: State, st': State) {
    && |st.nodes| <= |st'.nodes| && |st.spaces| == |st'.spaces|
    && (forall s :: 0 <= s < |st.spaces| ==> st.spaces[s].shootSequence <= st'.spaces[s].shootSequence)
    && (forall n :: 0 <= n < |st.nodes| ==>
          var x, x' := st.nodes[n], st'.nodes[n];
          && x'.space == x.space && x'.sequence == x.sequence && x'.initiator == x.initiator
          && x'.Submitted() == x.Submitted() && (x'.InList() ==> x.InList())
          && (!x.InList() ==> x'.erasedAt == x.erasedAt)
          && (x.InList() && !x'.InList() && x.space < |st.spaces| ==> st.spaces[x.space].shootSequence <= x'.erasedAt))
    && (forall n :: |st.nodes| <= n < |st'.nodes| && st'.nodes[n].Submitted() && st'.nodes[n].space < |st.spaces| ==>
          st.spaces[st'.nodes[n].space].shootSequence < st'.nodes[n].sequence)
  }

  /** What CPU c may rely on when another CPU or the hardware takes a step. */
  ghost predicate Rely(st: State, st': State, c: nat)
    requires c < |st.cpus|
  {
    && NodesEvolve(st, st') && |st'.cpus| == |st.cpus| && |st'.bindings| == |st.bindings|
    && st'.cpus[c] == st.cpus[c]
    && (forall b :: 0 <= b < |st.bindings| ==> st'.bindings[b].cpu == st.bindings[b].cpu)
    && (forall b :: 0 <= b < |st.bindings| && st.bindings[b].cpu == c ==>
          && st'.bindings[b].boundSpace == st.bindings[b].boundSpace
          && st'.bindings[b].alreadyShot == st.bindings[b].alreadyShot
          && st'.bindings[b].tlbSpace == st.bindings[b].tlbSpace)
    && (forall s :: 0 <= s < |st.spaces| ==>
          && (st.spaces[s].retireHolder == c ==> st'.spaces[s].retireHolder == c)
          && (forall b :: 0 <= b < |st.bindings| && st.bindings[b].cpu == c ==>
                (b in st'.spaces[s].attached <==> b in st.spaces[s].attached)))
    && (forall n :: 0 <= n < |st.nodes| ==>
          && (st.nodes[n].owner == c && (st.nodes[n].phase.Drained? || st.nodes[n].phase.Erased?) ==>
                st'.nodes[n].phase == st.nodes[n].phase && st'.nodes[n].owner == c))
  }

  lemma KeepGap(st: State, st': State, s: nat, lo: int, hi: int)
    requires NodesEvolve(st, st') && WellFormed(st) && WellFormed(st') && s < |st.spaces|
    requires Gap(st.nodes, s, lo, hi) && hi <= st.spaces[s].shootSequence + 1
    ensures Gap(st'.nodes, s, lo, hi)
  {
    forall m | 0 <= m < |st'.nodes| && st'.nodes[m].InList() && st'.nodes[m].space == s
      ensures st'.nodes[m].sequence <= lo || hi <= st'.nodes[m].sequence
    {
      if m < |st.nodes| { assert st.nodes[m].InList(); }
    }
  }

  lemma KeepOnlyOwn(st: State, st': State, s: nat, lo: int, hi: int, c: nat)
    requires NodesEvolve(st, st') && WellFormed(st) && WellFormed(st') && s < |st.spaces|
    requires OnlyOwn(st.nodes, s, lo, hi, c) && hi <= st.spaces[s].shootSequence + 1
    ensures OnlyOwn(st'.nodes, s, lo, hi, c)
  {
    forall m | 0 <= m < |st'.nodes| && st'.nodes[m].InList() && st'.nodes[m].space == s
      ensures st'.nodes[m].sequence <= lo || hi <= st'.nodes[m].sequence || st'.nodes[m].initiator == c
    {
      if m < |st.nodes| { assert st.nodes[m].InList(); }
    }
  }

  lemma KeepReachable(st: State, st': State, job: Job, n: nat)
    requires NodesEvolve(st, st') && WellFormed(st) && WellFormed(st')
    requires n < |st.nodes| && job.space < |st.spaces| && job.goal <= st.spaces[job.space].shootSequence
    requires Reachable(st, job, n)
    ensures Reachable(st', job, n)
  {
  }

  lemma KeepNextNode(st: State, st': State, job: Job, cur: nat, nxt: int)
    requires NodesEvolve(st, st') && WellFormed(st) && WellFormed(st') && ListInv(st)
    requires cur < |st.nodes| && -1 <= nxt < |st.nodes|
    requires job.space < |st.spaces| && job.goal <= st.spaces[job.space].shootSequence
    requires NextNodeOk(st, job, cur, nxt)
    ensures NextNodeOk(st', job, cur, nxt)
  {
    if nxt < 0 {
      KeepGap(st, st', job.space, st.nodes[cur].sequence, job.goal + 1);
    } else {
      KeepReachable(st, st', job, nxt);
      assert SequenceOk(st, nxt);
      KeepGap(st, st', job.space, st.nodes[cur].sequence, st.nodes[nxt].sequence);
    }
  }

  lemma KeepForward(st: State, st': State, c: nat, job: Job, cur: nat)
    requires NodesEvolve(st, st') && WellFormed(st) && WellFormed(st') && ListInv(st)
    requires cur < |st.nodes|
    requires job.space < |st.spaces| && job.goal <= st.spaces[job.space].shootSequence
    requires ForwardInv(st, c, job, cur)
    ensures ForwardInv(st', c, job, cur)
  {
    KeepReachable(st, st', job, cur);
    assert SequenceOk(st, cur);
    KeepOnlyOwn(st, st', job.space, job.lo, st.nodes[cur].sequence, c);
  }

  lemma KeepPc(st: State, st': State, c: nat)
    requires Inv(st) && WellFormed(st') && c < |st.cpus| && Rely(st, st', c)
    ensures PcInv(st', c)
  {
    assert PcInv(st, c);
    var pc := st.cpus[c];
    assert PcWellFormed(st, pc);
    if HasJob(pc) {
      assert JobInv(st, c, pc.job);
      assert JobInv(st', c, pc.job);
    }
    match pc
    case LoadPrev(job, cur) => KeepReachable(st, st', job, cur);
    case LoadNext(job, cur) => KeepForward(st, st', c, job, cur);
    case Visit(job, cur, nxt) =>
      KeepForward(st, st', c, job, cur); KeepNextNode(st, st', job, cur, nxt);
    case Decrement(job, cur, nxt) =>
      KeepForward(st, st', c, job, cur); KeepNextNode(st, st', job, cur, nxt);
    case Erase(job, cur, nxt) =>
      KeepReachable(st, st', job, cur); KeepNextNode(st, st', job, cur, nxt);
    case Complete(job, cur, nxt) =>
      KeepReachable(st, st', job, cur); KeepNextNode(st, st', job, cur, nxt);
    case _ =>
  }

  /** Binding b is counted by the nodes that a step adds exactly if it may be stale. */
  ghost predicate NewNodesOk(st: State, st': State, b: nat)
    requires WellFormed(st') && b < |st'.bindings|
  {
    forall n :: |st.nodes| <= n < |st'.nodes| ==>
      && (b in st'.nodes[n].waiting <==> Owes(st', b, n))
      && (st'.nodes[n].space == st'.bindings[b].tlbSpace && b !in st'.nodes[n].waiting
          ==> Fresh(st'.bindings[b].tlb, st'.nodes[n]))
  }

  /** Attachments and debts of a binding survive a step of another CPU. */
  lemma KeepBinding(st: State, st': State, b: nat)
    requires Inv(st) && WellFormed(st') && b < |st.bindings| && Rely(st, st', st.bindings[b].cpu)
    requires NewNodesOk(st, st', b)
    requires forall n :: 0 <= n < |st.nodes| ==> (b in st'.nodes[n].waiting <==> b in st.nodes[n].waiting)
    ensures AttachInv(st', b) && WaitInv(st', b)
  {
    assert AttachInv(st, b) && WaitInv(st, b);
    forall n | 0 <= n < |st'.nodes| ensures b in st'.nodes[n].waiting <==> Owes(st', b, n) {
      if n < |st.nodes| { assert Owes(st, b, n) <==> Owes(st', b, n); }
    }
  }

  lemma KeepTlb(st: State, st': State, b: nat)
    requires Inv(st) && WellFormed(st') && b < |st.bindings| == |st'.bindings| && |st.nodes| <= |st'.nodes|
    requires NewNodesOk(st, st', b)
    requires |st.nodes| < |st'.nodes| ==>
               var pc := st'.cpus[st'.bindings[b].cpu]; !pc.Decrement? || pc.cur < |st.nodes|
    requires st'.bindings[b].tlbSpace == st.bindings[b].tlbSpace && st'.bindings[b].tlb == st.bindings[b].tlb
    requires forall n :: 0 <= n < |st.nodes| ==>
      && st'.nodes[n].space == st.nodes[n].space && st'.nodes[n].first == st.nodes[n].first
      && st'.nodes[n].count == st.nodes[n].count && st'.nodes[n].table == st.nodes[n].table
    requires forall n :: 0 <= n < |st.nodes| && st.nodes[n].space == st.bindings[b].tlbSpace ==>
      (b !in st'.nodes[n].waiting || JustInvalidated(st'.cpus[st'.bindings[b].cpu], b, n)
       ==> b !in st.nodes[n].waiting || JustInvalidated(st.cpus[st.bindings[b].cpu], b, n))
    ensures TlbInv(st', b)
  {
    assert TlbInv(st, b);
    forall n | 0 <= n < |st'.nodes| && st'.nodes[n].space == st'.bindings[b].tlbSpace
      && (b !in st'.nodes[n].waiting || JustInvalidated(st'.cpus[st'.bindings[b].cpu], b, n))
      ensures Fresh(st'.bindings[b].tlb, st'.nodes[n])
    {
      if n < |st.nodes| {
        assert Fresh(st.bindings[b].tlb, st.nodes[n]);
        assert forall p :: st'.nodes[n].Covers(p) == st.nodes[n].Covers(p);
      }
    }
  }

  /** What a step of CPU c guarantees to the others. */
  ghost predicate Guarantee(st: State, st': State, c: nat) {
    && NodesEvolve(st, st') && |st'.cpus| == |st.cpus| && |st'.bindings| == |st.bindings|
    && (forall d :: 0 <= d < |st.cpus| && d != c ==> st'.cpus[d] == st.cpus[d])
    && (forall b :: 0 <= b < |st.bindings| ==>
          && st'.bindings[b].cpu == st.bindings[b].cpu
          && (st.bindings[b].cpu != c ==> st'.bindings[b] == st.bindings[b]))
    && (forall s :: 0 <= s < |st.spaces| ==>
          && (st'.spaces[s].retireHolder == st.spaces[s].retireHolder || st.spaces[s].retireHolder == -1
              || st.spaces[s].retireHolder == c)
          && (forall b :: 0 <= b < |st.bindings| && st.bindings[b].cpu != c ==>
                (b in st'.spaces[s].attached <==> b in st.spaces[s].attached)))
    && (forall n :: 0 <= n < |st.nodes| ==>
          && st'.nodes[n].first == st.nodes[n].first && st'.nodes[n].count == st.nodes[n].count
          && st'.nodes[n].table == st.nodes[n].table
          && (st.nodes[n].owner != c && (st.nodes[n].phase.Drained? || st.nodes[n].phase.Erased?) ==>
                st'.nodes[n].phase == st.nodes[n].phase && st'.nodes[n].owner == st.nodes[n].owner)
          && (forall b :: 0 <= b < |st.bindings| && st.bindings[b].cpu != c ==>
                (b in st'.nodes[n].waiting <==> b in st.nodes[n].waiting)))
  }

  lemma GuaranteeIsRely(st: State, st': State, c: nat, d: nat)
    requires Guarantee(st, st', c) && d < |st.cpus| && d != c
    ensures Rely(st, st', d)
  {
  }

  /**
   A step of CPU c, or of the hardware if c is not a CPU: what concerns c is shown,
   the rest is framed.
   */
  lemma Assemble(st: State, st': State, c: nat)
    requires Inv(st) && WellFormed(st') && ListInv(st') && Guarantee(st, st', c)
    requires c < |st.cpus| ==> PcInv(st', c)
    requires forall n :: 0 <= n < |st'.nodes| ==> NodeInv(st', n)
    requires forall s :: 0 <= s < |st'.spaces| ==> SpaceInv(st', s)
    requires forall b :: 0 <= b < |st'.bindings| && st'.bindings[b].cpu != c ==> NewNodesOk(st, st', b)
    requires forall b :: 0 <= b < |st'.bindings| && st'.bindings[b].cpu == c ==>
      AttachInv(st', b) && WaitInv(st', b) && TlbInv(st', b)
    ensures Inv(st')
  {
    forall d | 0 <= d < |st'.cpus| ensures PcInv(st', d) {
      if d != c {
        GuaranteeIsRely(st, st', c, d);
        KeepPc(st, st', d);
      }
    }
    forall b | 0 <= b < |st'.bindings| ensures AttachInv(st', b) && WaitInv(st', b) && TlbInv(st', b) {
      if st.bindings[b].cpu != c {
        GuaranteeIsRely(st, st', c, st.bindings[b].cpu);
        KeepBinding(st, st', b);
        assert PcWellFormed(st, st.cpus[st.bindings[b].cpu]);
        KeepTlb(st, st', b);
      }
    }
  }

  ghost predicate TablesGrow(st: State, st': State) {
    && |st'.spaces| == |st.spaces|
    && forall s :: 0 <= s < |st.spaces| ==>
         forall p :: Version(st.spaces[s].table, p) <= Version(st'.spaces[s].table, p)
  }

  lemma KeepNode(st: State, st': State, n: nat)
    requires WellFormed(st) && WellFormed(st') && n < |st.nodes| <= |st'.nodes| && NodeInv(st, n)
    requires |st'.bindings| == |st.bindings| && |st'.cpus| == |st.cpus| && TablesGrow(st, st')
    requires st'.nodes[n] == st.nodes[n].(prev := st'.nodes[n].prev, next := st'.nodes[n].next)
    requires forall d :: 0 <= d < |st.cpus| ==>
      st'.cpus[d] == st.cpus[d] || !(st.cpus[d].Erase? || st.cpus[d].Complete?) || st.cpus[d].cur != n
    ensures NodeInv(st', n)
  {
    var x := st.nodes[n];
    forall p ensures Version(x.table, p) <= Version(st'.spaces[x.space].table, p) {
      assert Version(x.table, p) <= Version(st.spaces[x.space].table, p);
    }
  }

  lemma KeepSpace(st: State, st': State, s: nat)
    requires WellFormed(st) && WellFormed(st') && s < |st.spaces| == |st'.spaces| && SpaceInv(st, s)
    requires |st'.bindings| == |st.bindings| && |st'.cpus| == |st.cpus|
    requires st'.spaces[s] == st.spaces[s].(
      table := st'.spaces[s].table, tail := st'.spaces[s].tail, shootSequence := st'.spaces[s].shootSequence)
    requires forall d :: 0 <= d < |st.cpus| && HoldsRetireNode(st.cpus[d], s) ==> HoldsRetireNode(st'.cpus[d], s)
    ensures SpaceInv(st', s)
  {
  }

  /** A step of CPU c, or of the hardware, that leaves all nodes alone. */
  lemma AssembleSame(st: State, st': State, c: nat)
    requires Inv(st) && WellFormed(st') && Guarantee(st, st', c) && SameList(st, st') && st'.nodes == st.nodes
    requires TablesGrow(st, st')
    requires c < |st.cpus| ==> PcInv(st', c)
    requires c < |st.cpus| ==> st'.cpus[c] == st.cpus[c] || (!st.cpus[c].Erase? && !st.cpus[c].Complete?)
    requires forall s :: 0 <= s < |st'.spaces| ==> SpaceInv(st', s)
    requires forall b :: 0 <= b < |st'.bindings| && st'.bindings[b].cpu == c ==>
      AttachInv(st', b) && WaitInv(st', b) && TlbInv(st', b)
    ensures Inv(st')
  {
    KeepList(st, st');
    forall n | 0 <= n < |st.nodes| ensures NodeInv(st', n) { KeepNode(st, st', n); }
    Assemble(st, st', c);
  }
}

/**
 The TLB shootdown protocol of kernel/thor/generic/asid.cpp as a state machine.

 A step is one lock section, one atomic load, one fetch_sub, one TLB flush or one
 completion; steps of different CPUs interleave freely. Every method of PageBinding
 and PageSpace runs with interrupts disabled, so a CPU executes one of them at a time
 and `Pc` says where in that method it is. Assignments to fields that only their own
 CPU reads are folded into the neighbouring step of that CPU.

 The shootdown queue is a linked list whose readers take no lock: an erased node
 keeps the pointers it had, and traversals may walk over it.

 Hardware is modelled as well. Every page table entry has a version that grows with
 each write; the TLB of a binding caches versions and may be filled at any time while
 the page table of a space is loaded under the ASID of the binding.
 */
module Shootdown {

  const KERNEL: nat := 0       // index of KernelPageSpace::global()
  const FULL_FLUSH_PAGES := 64 // invalidateNode() flushes the whole ASID from here on

  /** Life of a ShootNode. `Immediate` nodes were finished by submitShootdown() itself. */
  datatype Phase = Immediate | Queued | Drained | Erased | Completed

  /**
   The fields up to `next` exist in the source (-1 is the null pointer). The others
   record history and are read by no step: the bindings that were counted and have
   neither processed nor drained the node, the page table at submission, the value of
   shootSequence_ when the node left the list, the CPU that finishes the node and the
   number of calls of complete().
   */
  datatype Node = Node(
    space: nat, first: nat, count: nat, initiator: nat, sequence: nat, bindingsToShoot: int,
    prev: int, next: int,
    phase: Phase, waiting: set<nat>, table: map<nat, nat>, erasedAt: nat, owner: int, completions: nat)
  {
    predicate Submitted() { !phase.Immediate? }
    predicate InList() { phase.Queued? || phase.Drained? }
    predicate Covers(page: nat) { first <= page < first + count }
  }

  /** History: who is attached, whether retire() ran, who holds the RetireNode, completions. */
  datatype Space = Space(
    numBindings: int, shootSequence: nat, tail: int, wantToRetire: bool, retireNode: bool,
    attached: set<nat>, retired: bool, retireHolder: int, retireCompletions: nat, table: map<nat, nat>)

  /** boundSpace and tlbSpace are -1 when there is none. The TLB caches versions of pages. */
  datatype Binding = Binding(
    cpu: nat, boundSpace: int, alreadyShot: nat, tlbSpace: int, tlb: map<nat, nat>)

  datatype JobKind = Process | DrainAfterUnbind | DrainAfterRebind

  /**
   A running doShootdown_() or drainShootdown_(). `lo` is the sequence up to which the
   job has dealt with all nodes and `goal` the value of shootSequence_ when it read the
   back of the queue.
   */
  datatype Job = Job(
    kind: JobKind, binding: nat, space: nat, lo: nat, upTo: nat, retire: bool, goal: nat)

  datatype Pc =
    | Idle
    | SwitchTable(binding: nat, from: int, fromSequence: nat)
    | Detach(binding: nat, space: nat, sequence: nat, kind: JobKind)
    | LoadTail(job: Job)
    | LoadPrev(job: Job, cur: nat)
    | LoadNext(job: Job, cur: nat)
    | Visit(job: Job, cur: nat, nxt: int)
    | Decrement(job: Job, cur: nat, nxt: int)
    | Erase(job: Job, cur: nat, nxt: int)
    | Complete(job: Job, cur: nat, nxt: int)
    | Finish(job: Job)
    | FinishRetire(space: nat)

  /** bindings[c] is the global binding of CPU c; the others are ASID bindings. */
  datatype State = State(cpus: seq<Pc>, bindings: seq<Binding>, spaces: seq<Space>, nodes: seq<Node>)

  datatype Step =
    | WritePage(space: nat, page: nat)
    | FillTlb(binding: nat, page: nat)
    | InitialBind(cpu: nat)
    | Rebind(binding: nat, space: nat)
    | Unbind(binding: nat)
    | ShootdownIpi(binding: nat)
    | Submit(cpu: nat, space: nat, first: nat, count: nat)
    | Retire(cpu: nat, space: nat)
    | Advance(cpu: nat)

  function Version(table: map<nat, nat>, page: nat): nat {
    if page in table then table[page] else 0
  }

  predicate IsGlobal(st: State, b: nat) { b < |st.cpus| }

  predicate IsIdle(st: State, c: nat) { c < |st.cpus| && st.cpus[c].Idle? }

  /** Indices are in range; nothing more is needed to execute a step. */
  ghost predicate WellFormed(st: State) {
    && |st.cpus| <= |st.bindings| && 0 < |st.spaces|
    && (forall b :: 0 <= b < |st.bindings| ==>
          && st.bindings[b].cpu < |st.cpus|
          && (b < |st.cpus| ==> st.bindings[b].cpu == b)
          && -1 <= st.bindings[b].boundSpace < |st.spaces|
          && -1 <= st.bindings[b].tlbSpace < |st.spaces|)
    && (forall s :: 0 <= s < |st.spaces| ==> -1 <= st.spaces[s].tail < |st.nodes|)
    && (forall n :: 0 <= n < |st.nodes| ==>
          && st.nodes[n].space < |st.spaces|
          && -1 <= st.nodes[n].prev < |st.nodes|
          && -1 <= st.nodes[n].next < |st.nodes|)
    && (forall c :: 0 <= c < |st.cpus| ==> PcWellFormed(st, st.cpus[c]))
  }

  ghost predicate JobWellFormed(st: State, job: Job) {
    job.binding < |st.bindings| && job.space < |st.spaces|
  }

  ghost predicate PcWellFormed(st: State, pc: Pc) {
    match pc
    case Idle => true
    case SwitchTable(b, from, _) => b < |st.bindings| && -1 <= from < |st.spaces| && st.bindings[b].boundSpace >= 0
    case Detach(b, s, _, _) => b < |st.bindings| && s < |st.spaces|
    case LoadTail(job) => JobWellFormed(st, job)
    case LoadPrev(job, cur) => JobWellFormed(st, job) && cur < |st.nodes|
    case LoadNext(job, cur) => JobWellFormed(st, job) && cur < |st.nodes|
    case Visit(job, cur, nxt) => JobWellFormed(st, job) && cur < |st.nodes| && -1 <= nxt < |st.nodes|
    case Decrement(job, cur, nxt) => JobWellFormed(st, job) && cur < |st.nodes| && -1 <= nxt < |st.nodes|
    case Erase(job, cur, nxt) => JobWellFormed(st, job) && cur < |st.nodes| && -1 <= nxt < |st.nodes|
    case Complete(job, cur, nxt) => JobWellFormed(st, job) && cur < |st.nodes| && -1 <= nxt < |st.nodes|
    case Finish(job) => JobWellFormed(st, job)
    case FinishRetire(s) => s < |st.spaces|
  }

  /**
   When a step can happen. Beyond indices and program counters this states what the
   callers guarantee: a space is bound only before retire() was called on it, retire()
   runs once per space and never on the kernel space, and a CPU shoots down kernel
   pages only after its initialBind().
   */
  ghost predicate Enabled(st: State, step: Step)
    requires WellFormed(st)
  {
    match step
    case WritePage(s, _) => s < |st.spaces|
    case FillTlb(b, _) => b < |st.bindings| && st.bindings[b].tlbSpace >= 0
    case InitialBind(c) => IsIdle(st, c) && st.bindings[c].boundSpace == -1
    case Rebind(b, s) =>
      && b < |st.bindings| && !IsGlobal(st, b) && IsIdle(st, st.bindings[b].cpu)
      && s < |st.spaces| && s != KERNEL && s != st.bindings[b].boundSpace && !st.spaces[s].retired
    case Unbind(b) => b < |st.bindings| && !IsGlobal(st, b) && IsIdle(st, st.bindings[b].cpu)
    case ShootdownIpi(b) => b < |st.bindings| && IsIdle(st, st.bindings[b].cpu)
    case Submit(c, s, _, _) =>
      IsIdle(st, c) && s < |st.spaces| && (s == KERNEL ==> st.bindings[c].boundSpace == KERNEL)
    case Retire(c, s) => IsIdle(st, c) && s < |st.spaces| && s != KERNEL && !st.spaces[s].retired
    case Advance(c) => c < |st.cpus| && !st.cpus[c].Idle?
  }

  // ---- Invalidation ----

  /** invalidateNode(): drop the pages of the node, or everything if there are many. */
  function InvalidateNode(tlb: map<nat, nat>, isGlobal: bool, first: nat, count: nat): map<nat, nat> {
    if !isGlobal && count >= FULL_FLUSH_PAGES then map[]
    else map p | p in tlb && !(first <= p < first + count) :: tlb[p]
  }

  // ---- Steps ----

  function SetPc(st: State, c: nat, pc: Pc): State
    requires c < |st.cpus|
  {
    st.(cpus := st.cpus[c := pc])
  }

  /** The loop of a job is left: doShootdown_() returns, a drain goes on to its epilogue. */
  function EndScan(st: State, c: nat, job: Job): State
    requires c < |st.cpus|
  {
    SetPc(st, c, if job.kind.Process? then Idle else Finish(job))
  }

  function NextNode(st: State, c: nat, job: Job, nxt: int): State
    requires c < |st.cpus|
  {
    if nxt < 0 then EndScan(st, c, job) else SetPc(st, c, LoadNext(job, nxt))
  }

  /** doShootdown_() also stores the sequence into alreadyShotSequence_. */
  function RecordShot(st: State, job: Job, sequence: nat): State
    requires job.binding < |st.bindings|
  {
    if job.kind.Process?
    then st.(bindings := st.bindings[job.binding := st.bindings[job.binding].(alreadyShot := sequence)])
    else st
  }

  ghost function StepLoadTail(st: State, c: nat, job0: Job): State
    requires WellFormed(st) && c < |st.cpus| && JobWellFormed(st, job0)
  {
    var tail := st.spaces[job0.space].tail;
    var job := job0.(goal := st.spaces[job0.space].shootSequence);
    if tail < 0 || st.nodes[tail].sequence <= job.lo then EndScan(st, c, job)
    else SetPc(st, c, LoadPrev(job, tail))
  }

  ghost function StepLoadPrev(st: State, c: nat, job: Job, cur: nat): State
    requires WellFormed(st) && c < |st.cpus| && cur < |st.nodes|
  {
    var prev := st.nodes[cur].prev;
    if prev < 0 || st.nodes[prev].sequence <= job.lo then SetPc(st, c, LoadNext(job, cur))
    else SetPc(st, c, LoadPrev(job, prev))
  }

  function StepVisit(st: State, c: nat, job: Job, cur: nat, nxt: int): State
    requires c < |st.cpus| && job.binding < |st.bindings| && cur < |st.nodes|
  {
    var node := st.nodes[cur];
    if !job.kind.Process? && node.sequence > job.upTo then EndScan(st, c, job)
    else if node.initiator == c then
      NextNode(RecordShot(st, job, node.sequence), c, job.(lo := node.sequence), nxt)
    else if job.kind.Process? then
      var b := st.bindings[job.binding];
      SetPc(st.(bindings := st.bindings[job.binding :=
        b.(tlb := InvalidateNode(b.tlb, IsGlobal(st, job.binding), node.first, node.count))]),
        c, Decrement(job, cur, nxt))
    else SetPc(st, c, Decrement(job, cur, nxt))
  }

  function StepDecrement(st: State, c: nat, job: Job, cur: nat, nxt: int): State
    requires c < |st.cpus| && job.binding < |st.bindings| && cur < |st.nodes|
  {
    var node := st.nodes[cur];
    var last := node.bindingsToShoot == 1;
    var node' := node.(bindingsToShoot := node.bindingsToShoot - 1, waiting := node.waiting - {job.binding},
      phase := if last then Drained else node.phase, owner := if last then c else node.owner);
    var job' := job.(lo := node.sequence);
    var st' := RecordShot(st.(nodes := st.nodes[cur := node']), job, node.sequence);
    if last then SetPc(st', c, Erase(job', cur, nxt)) else NextNode(st', c, job', nxt)
  }

  ghost function StepErase(st: State, c: nat, job: Job, cur: nat, nxt: int): State
    requires WellFormed(st) && c < |st.cpus| && JobWellFormed(st, job) && cur < |st.nodes|
  {
    var space := st.spaces[job.space];
    var node := st.nodes[cur];
    var nodes0 := st.nodes[cur := node.(phase := Erased, erasedAt := space.shootSequence)];
    var nodes1 := if node.prev >= 0 then nodes0[node.prev := nodes0[node.prev].(next := node.next)] else nodes0;
    var nodes2 := if node.next >= 0 then nodes1[node.next := nodes1[node.next].(prev := node.prev)] else nodes1;
    var space' := if node.next >= 0 then space else space.(tail := node.prev);
    SetPc(st.(nodes := nodes2, spaces := st.spaces[job.space := space']), c, Complete(job, cur, nxt))
  }

  function StepComplete(st: State, c: nat, job: Job, cur: nat, nxt: int): State
    requires c < |st.cpus| && cur < |st.nodes|
  {
    var node := st.nodes[cur];
    NextNode(st.(nodes := st.nodes[cur := node.(phase := Completed, completions := node.completions + 1)]),
      c, job, nxt)
  }

  function StepFinish(st: State, c: nat, job: Job): State
    requires c < |st.cpus| && job.binding < |st.bindings| && job.space < |st.spaces|
  {
    var st1 := if job.retire then CompleteRetire(st, job.space) else st;
    var st2 := if job.kind.DrainAfterUnbind?
      then st1.(bindings := st1.bindings[job.binding := st1.bindings[job.binding].(boundSpace := -1, alreadyShot := 0)])
      else st1;
    SetPc(st2, c, Idle)
  }

  function CompleteRetire(st: State, s: nat): State
    requires s < |st.spaces|
  {
    var space := st.spaces[s];
    st.(spaces := st.spaces[s := space.(retireHolder := -1, retireCompletions := space.retireCompletions + 1)])
  }

  /** The lock section that gives up the binding: rebind() 165-172 and unbind() 220-227. */
  function StepDetach(st: State, c: nat, b: nat, s: nat, sequence: nat, kind: JobKind): State
    requires c < |st.cpus| && s < |st.spaces|
  {
    var space := st.spaces[s];
    var num := space.numBindings - 1;
    var takesNode := num == 0 && space.retireNode;
    var space' := space.(numBindings := num, attached := space.attached - {b},
      retireNode := space.retireNode && !takesNode, retireHolder := if takesNode then c else space.retireHolder);
    SetPc(st.(spaces := st.spaces[s := space']), c,
      LoadTail(Job(kind, b, s, sequence, space.shootSequence, takesNode, 0)))
  }

  /** switchToPageTable(root, id, true): flush the ASID and load the new table. */
  function StepSwitchTable(st: State, c: nat, b: nat, from: int, fromSequence: nat): State
    requires c < |st.cpus| && b < |st.bindings|
  {
    var binding := st.bindings[b];
    SetPc(st.(bindings := st.bindings[b := binding.(tlbSpace := binding.boundSpace, tlb := map[])]), c,
      if from < 0 then Idle else Detach(b, from, fromSequence, DrainAfterRebind))
  }

  ghost function StepAdvance(st: State, c: nat): State
    requires WellFormed(st) && c < |st.cpus| && !st.cpus[c].Idle?
  {
    assert PcWellFormed(st, st.cpus[c]);
    match st.cpus[c]
    case SwitchTable(b, from, fromSequence) => StepSwitchTable(st, c, b, from, fromSequence)
    case Detach(b, s, sequence, kind) => StepDetach(st, c, b, s, sequence, kind)
    case LoadTail(job) => StepLoadTail(st, c, job)
    case LoadPrev(job, cur) => StepLoadPrev(st, c, job, cur)
    case LoadNext(job, cur) => SetPc(st, c, Visit(job, cur, st.nodes[cur].next))
    case Visit(job, cur, nxt) => StepVisit(st, c, job, cur, nxt)
    case Decrement(job, cur, nxt) => StepDecrement(st, c, job, cur, nxt)
    case Erase(job, cur, nxt) => StepErase(st, c, job, cur, nxt)
    case Complete(job, cur, nxt) => StepComplete(st, c, job, cur, nxt)
    case Finish(job) => StepFinish(st, c, job)
    case FinishRetire(s) => SetPc(CompleteRetire(st, s), c, Idle)
  }

  function StepInitialBind(st: State, c: nat): State
    requires c < |st.cpus| <= |st.bindings| && KERNEL < |st.spaces|
  {
    var space := st.spaces[KERNEL];
    st.(spaces := st.spaces[KERNEL := space.(numBindings := space.numBindings + 1, attached := space.attached + {c})],
        bindings := st.bindings[c := st.bindings[c].(boundSpace := KERNEL, alreadyShot := space.shootSequence,
                                                     tlbSpace := KERNEL, tlb := map[])])
  }

  /** First half of rebind(space): the lock section on the new space. */
  function StepRebind(st: State, b: nat, s: nat): State
    requires b < |st.bindings| && s < |st.spaces| && st.bindings[b].cpu < |st.cpus|
  {
    var binding := st.bindings[b];
    var space := st.spaces[s];
    SetPc(st.(spaces := st.spaces[s := space.(numBindings := space.numBindings + 1, attached := space.attached + {b})],
              bindings := st.bindings[b := binding.(boundSpace := s, alreadyShot := space.shootSequence)]),
      binding.cpu, SwitchTable(b, binding.boundSpace, binding.alreadyShot))
  }

  /** unbind() up to its lock section: leave if unbound, else flush the ASID. */
  function StepUnbind(st: State, b: nat): State
    requires b < |st.bindings| && st.bindings[b].cpu < |st.cpus|
  {
    var binding := st.bindings[b];
    if binding.boundSpace < 0 then st
    else SetPc(st.(bindings := st.bindings[b := binding.(tlbSpace := -1, tlb := map[])]),
      binding.cpu, Detach(b, binding.boundSpace, binding.alreadyShot, DrainAfterUnbind))
  }

  /** shootdown(): unbind from a space that wants to retire, else run doShootdown_(). */
  function StepShootdownIpi(st: State, b: nat): State
    requires b < |st.bindings| && st.bindings[b].cpu < |st.cpus| && st.bindings[b].boundSpace < |st.spaces|
  {
    var binding := st.bindings[b];
    if binding.boundSpace < 0 then st
    else if st.spaces[binding.boundSpace].wantToRetire then StepUnbind(st, b)
    else SetPc(st, binding.cpu, LoadTail(Job(Process, b, binding.boundSpace, binding.alreadyShot, 0, false, 0)))
  }

  /** The bindings of CPU c that submitShootdown() invalidates itself. */
  function SyncShot(st: State, c: nat, s: nat): set<nat> {
    if s == KERNEL then {c}
    else set b: nat | b < |st.bindings| && !IsGlobal(st, b) && st.bindings[b].cpu == c && st.bindings[b].boundSpace == s
  }

  function SyncInvalidate(st: State, sync: set<nat>, first: nat, count: nat): seq<Binding> {
    seq(|st.bindings|, i requires 0 <= i < |st.bindings| =>
      var b := st.bindings[i];
      if i in sync then b.(tlb := InvalidateNode(b.tlb, IsGlobal(st, i), first, count)) else b)
  }

  ghost function StepSubmit(st: State, c: nat, s: nat, first: nat, count: nat): State
    requires WellFormed(st) && s < |st.spaces|
  {
    var space := st.spaces[s];
    var sync := SyncShot(st, c, s);
    var unshot := space.numBindings - |sync|;
    var st1 := st.(bindings := SyncInvalidate(st, sync, first, count));
    var id := |st.nodes|;
    if unshot == 0 then
      st1.(nodes := st.nodes + [Node(s, first, count, c, 0, 0, -1, -1, Immediate, {}, space.table, 0, -1, 0)])
    else
      var sequence := space.shootSequence + 1;
      var node := Node(s, first, count, c, sequence, unshot, space.tail, -1, Queued,
                       space.attached - sync, space.table, 0, -1, 0);
      var nodes0 := if space.tail >= 0 then st.nodes[space.tail := st.nodes[space.tail].(next := id)] else st.nodes;
      st1.(nodes := nodes0 + [node], spaces := st.spaces[s := space.(shootSequence := sequence, tail := id)])
  }

  function StepRetire(st: State, c: nat, s: nat): State
    requires c < |st.cpus| && s < |st.spaces|
  {
    var space := st.spaces[s].(retired := true);
    if space.numBindings != 0
    then st.(spaces := st.spaces[s := space.(retireNode := true, wantToRetire := true)])
    else SetPc(st.(spaces := st.spaces[s := space.(retireHolder := c)]), c, FinishRetire(s))
  }

  function StepWritePage(st: State, s: nat, page: nat): State
    requires s < |st.spaces|
  {
    var space := st.spaces[s];
    st.(spaces := st.spaces[s := space.(table := space.table[page := Version(space.table, page) + 1])])
  }

  function StepFillTlb(st: State, b: nat, page: nat): State
    requires b < |st.bindings| && 0 <= st.bindings[b].tlbSpace < |st.spaces|
  {
    var binding := st.bindings[b];
    st.(bindings := st.bindings[b :=
      binding.(tlb := binding.tlb[page := Version(st.spaces[binding.tlbSpace].table, page)])])
  }

  ghost function Next(st: State, step: Step): State
    requires WellFormed(st) && Enabled(st, step)
  {
    match step
    case WritePage(s, page) => StepWritePage(st, s, page)
    case FillTlb(b, page) => StepFillTlb(st, b, page)
    case InitialBind(c) => StepInitialBind(st, c)
    case Rebind(b, s) => StepRebind(st, b, s)
    case Unbind(b) => StepUnbind(st, b)
    case ShootdownIpi(b) => StepShootdownIpi(st, b)
    case Submit(c, s, first, count) => StepSubmit(st, c, s, first, count)
    case Retire(c, s) => StepRetire(st, c, s)
    case Advance(c) => StepAdvance(st, c)
  }

  // ---- Runs ----

  ghost predicate Initial(st: State) {
    && |st.cpus| <= |st.bindings| && 0 < |st.spaces| && st.nodes == []
    && (forall c :: 0 <= c < |st.cpus| ==> st.cpus[c] == Idle)
    && (forall b :: 0 <= b < |st.bindings| ==>
          && st.bindings[b].cpu < |st.cpus| && (b < |st.cpus| ==> st.bindings[b].cpu == b)
          && st.bindings[b].boundSpace == -1 && st.bindings[b].tlbSpace == -1)
    && (forall s :: 0 <= s < |st.spaces| ==>
          st.spaces[s] == Space(0, 0, -1, false, false, {}, false, -1, 0, st.spaces[s].table))
  }

  /** Every step of the run, of whichever CPU, was possible where it was taken. */
  ghost predicate IsRun(st: State, steps: seq<Step>)
    decreases |steps|
  {
    steps != [] ==> WellFormed(st) && Enabled(st, steps[0]) && IsRun(Next(st, steps[0]), steps[1..])
  }

  ghost function After(st: State, steps: seq<Step>): State
    requires IsRun(st, steps)
    decreases |steps|
  {
    if steps == [] then st else After(Next(st, steps[0]), steps[1..])
  }

  // ---- What the protocol is for ----

  /** Binding b caches, for a page of the node, a version older than at submission. */
  ghost predicate HoldsStale(st: State, b: nat, n: nat)
    requires b < |st.bindings| && n < |st.nodes|
  {
    && st.bindings[b].tlbSpace == st.nodes[n].space
    && exists p :: p in st.bindings[b].tlb && st.nodes[n].Covers(p)
                   && st.bindings[b].tlb[p] < Version(st.nodes[n].table, p)
  }

  /** The submitter has been told that the shootdown is done. */
  predicate Done(node: Node) { node.phase.Immediate? || node.phase.Completed? }
}

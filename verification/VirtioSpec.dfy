/** Where the descriptors of a virtq are, and what its rings hold. */
module VirtioSpec {
  import opened Common
  import opened Remainders
  import opened Sequences

  /** An entry of the descriptor table; hasNext is VIRTQ_DESC_F_NEXT. */
  datatype Descriptor = Descriptor(address: nat, length: nat, write: bool, hasNext: bool, next: nat)

  datatype UsedElement = UsedElement(tableIndex: nat, written: nat)

  /** Requests are named by numbers; who they belong to does not matter here. */
  type Request = nat

  /** The ring indices are 16 bits wide. */
  const WRAP: nat := 0x10000

  // ---- Places ----

  /** The place of a descriptor: on the free stack, with a driver, or in the chain posted at `head`. */
  datatype Place = Free | Held | InChain(head: nat)

  /** How far the device is with a posted chain. */
  datatype Phase = Pending | Taken | Returned

  /** A posted chain: its descriptors, the number of its request, and how far the device is. */
  datatype Posted = Posted(chain: seq<nat>, ticket: nat, phase: Phase)

  /**
   The history of a queue: places, posted chains by head, the heads that the device has
   not taken yet, the used elements that the driver has not processed yet, how many the
   two have been through, units acquired but not popped and freed but not released, all
   requests in the order of their posting, and the completed ones.
   */
  datatype Ghost = Ghost(
    place: seq<Place>, posted: map<nat, Posted>, pending: seq<nat>, returned: seq<UsedElement>,
    consumed: nat, processed: nat, acquired: nat, releasing: nat,
    requests: seq<Request>, completions: seq<nat>)

  // ---- Chains ----

  /** The links of the table lead along the chain and end at its end. */
  ghost predicate IsChain(table: seq<Descriptor>, chain: seq<nat>) {
    && chain != [] && NoRepeats(chain)
    && (forall k :: 0 <= k < |chain| ==> chain[k] < |table|)
    && (forall k :: 0 <= k < |chain| ==> table[chain[k]].hasNext == (k + 1 < |chain|))
    && (forall k :: 0 <= k < |chain| - 1 ==> table[chain[k]].next == chain[k + 1])
  }

  /** Exactly the descriptors of the chain at h are in the place of that chain. */
  ghost predicate ChainOk(table: seq<Descriptor>, place: seq<Place>, h: nat, chain: seq<nat>) {
    && IsChain(table, chain) && chain[0] == h
    && (forall i :: 0 <= i < |place| ==> (place[i] == InChain(h) <==> i in chain))
  }

  ghost predicate ChainInv(table: seq<Descriptor>, g: Ghost) {
    && |g.place| == |table|
    && (forall h :: h in g.posted ==> ChainOk(table, g.place, h, g.posted[h].chain))
    && (forall i :: 0 <= i < |g.place| && g.place[i].InChain? ==> g.place[i].head in g.posted)
  }

  /** The stack holds exactly the free descriptors, and as many as there are units. */
  ghost predicate StackInv(stack: seq<nat>, semaphore: nat, g: Ghost) {
    IsFreeStack(stack, g.place) && |stack| == semaphore + g.acquired + g.releasing
  }

  ghost predicate IsFreeStack(stack: seq<nat>, place: seq<Place>) {
    && NoRepeats(stack) && (forall k :: 0 <= k < |stack| ==> stack[k] < |place|)
    && (forall i :: 0 <= i < |place| ==> (place[i] == Free <==> i in stack))
  }

  // ---- Rings ----

  /** The slot of entry number k. */
  function Slot(k: nat, size: nat): (slot: nat)
    requires size > 0
    ensures slot < size
  {
    k % size
  }

  /** The slots of the ring from number `from` on hold the items. */
  ghost predicate RingHolds<T>(ring: seq<T>, from: nat, items: seq<T>) {
    |ring| > 0 && forall i {:trigger items[i]} :: 0 <= i < |items| ==> ring[Slot(from + i, |ring|)] == items[i]
  }

  lemma RingPush<T>(ring: seq<T>, from: nat, items: seq<T>, x: T)
    requires RingHolds(ring, from, items) && |items| < |ring|
    ensures RingHolds(ring[Slot(from + |items|, |ring|) := x], from, items + [x])
  {
    var ring' := ring[Slot(from + |items|, |ring|) := x];
    forall i | 0 <= i < |items| ensures ring'[Slot(from + i, |ring|)] == items[i] {
      RemaindersDiffer(from + i, from + |items|, |ring|);
    }
  }

  lemma RingPop<T>(ring: seq<T>, from: nat, items: seq<T>)
    requires RingHolds(ring, from, items) && items != []
    ensures ring[Slot(from, |ring|)] == items[0] && RingHolds(ring, from + 1, items[1..])
  {
    assert ring[Slot(from + 0, |ring|)] == items[0];
    forall i | 0 <= i < |items[1..]| ensures ring[Slot(from + 1 + i, |ring|)] == items[1..][i] {
      assert ring[Slot(from + (i + 1), |ring|)] == items[i + 1];
    }
  }

  /** The queue sizes of section 2.7 of the VIRTIO 1.2 specification: powers of two up to 32768. */
  ghost predicate SizeOk(size: nat) { 0 < size <= 0x8000 && WRAP % size == 0 }

  function Heads(returned: seq<UsedElement>): (heads: seq<nat>)
    ensures |heads| == |returned|
    ensures forall i :: 0 <= i < |heads| ==> heads[i] == returned[i].tableIndex
  {
    seq(|returned|, i requires 0 <= i < |returned| => returned[i].tableIndex)
  }

  /** A ring of 16-bit indices: items waiting between the reader's and the writer's index. */
  ghost predicate RingOk<T>(ring: seq<T>, readIndex: nat, writeIndex: nat, from: nat, items: seq<T>) {
    && RingHolds(ring, from, items) && |items| <= |ring| && SizeOk(|ring|)
    && readIndex == from % WRAP && writeIndex == (from + |items|) % WRAP
  }

  /** The two indices are equal only when nothing is waiting, although they wrap around. */
  lemma RingEmpty<T>(ring: seq<T>, readIndex: nat, writeIndex: nat, from: nat, items: seq<T>)
    requires RingOk(ring, readIndex, writeIndex, from, items)
    ensures readIndex == writeIndex <==> items == []
  {
    if items != [] { RemaindersDiffer(from, from + |items|, WRAP); }
  }

  lemma IndexStep(total: nat)
    ensures (total % WRAP + 1) % WRAP == (total + 1) % WRAP
  {
  }

  lemma RingOkPush<T>(ring: seq<T>, readIndex: nat, writeIndex: nat, from: nat, items: seq<T>, x: T)
    requires RingOk(ring, readIndex, writeIndex, from, items) && |items| < |ring|
    ensures RingOk(ring[Slot(writeIndex, |ring|) := x], readIndex, (writeIndex + 1) % WRAP, from, items + [x])
  {
    RemainderOfRemainder(from + |items|, WRAP, |ring|);
    RingPush(ring, from, items, x);
    IndexStep(from + |items|);
  }

  lemma RingOkPop<T>(ring: seq<T>, readIndex: nat, writeIndex: nat, from: nat, items: seq<T>)
    requires RingOk(ring, readIndex, writeIndex, from, items) && items != []
    ensures ring[Slot(readIndex, |ring|)] == items[0]
    ensures RingOk(ring, (readIndex + 1) % WRAP, writeIndex, from + 1, items[1..])
  {
    RemainderOfRemainder(from, WRAP, |ring|);
    RingPop(ring, from, items);
    IndexStep(from);
  }

  ghost predicate RingInv(available: seq<nat>, deviceIndex: nat, availableHead: nat,
                          used: seq<UsedElement>, progressHead: nat, usedHead: nat, g: Ghost) {
    && |available| == |used| == |g.place|
    && RingOk(available, deviceIndex, availableHead, g.consumed, g.pending)
    && RingOk(used, progressHead, usedHead, g.processed, g.returned)
  }

  // ---- Requests ----

  ghost predicate InPhase(posted: map<nat, Posted>, h: nat, phase: Phase) {
    h in posted && posted[h].phase == phase
  }

  /** The queues towards and from the device hold the posted heads of their phase, each once. */
  ghost predicate PhaseInv(g: Ghost) {
    && NoRepeats(g.pending) && NoRepeats(Heads(g.returned))
    && (forall h: nat :: InPhase(g.posted, h, Pending) <==> h in g.pending)
    && (forall h: nat :: InPhase(g.posted, h, Returned) <==> h in Heads(g.returned))
    && (forall h: nat :: h in g.posted ==> h < |g.place|)
  }

  /** Every request is outstanding under one head or was completed once. */
  ghost predicate TicketInv(g: Ghost) {
    && NoRepeats(g.completions) && (forall k :: 0 <= k < |g.completions| ==> g.completions[k] < |g.requests|)
    && (forall h: nat :: h in g.posted ==> g.posted[h].ticket < |g.requests| && g.posted[h].ticket !in g.completions)
    && (forall h: nat, h': nat ::
          h in g.posted && h' in g.posted && g.posted[h].ticket == g.posted[h'].ticket ==> h == h')
    && (forall t: nat :: t < |g.requests| && t !in g.completions ==> Outstanding(g, t))
  }

  ghost predicate Outstanding(g: Ghost, t: nat) {
    exists h: nat :: h in g.posted && g.posted[h].ticket == t
  }

  ghost predicate ActiveInv(active: seq<Option<Request>>, g: Ghost) {
    && |active| == |g.place|
    && (forall h: nat :: h < |active| && h !in g.posted ==> active[h] == None)
    && (forall h: nat :: h in g.posted && h < |active| ==>
          g.posted[h].ticket < |g.requests| && active[h] == Some(g.requests[g.posted[h].ticket]))
  }

  // ---- Steps on the history ----

  ghost function AfterPop(g: Ghost, handles: seq<nat>): Ghost
    requires |handles| <= g.acquired
  {
    g.(place := seq(|g.place|, i requires 0 <= i < |g.place| => if i in handles then Held else g.place[i]),
       acquired := g.acquired - |handles|)
  }

  ghost function AfterPost(g: Ghost, chain: seq<nat>, request: Request): Ghost
    requires chain != []
  {
    g.(place := seq(|g.place|, i requires 0 <= i < |g.place| => if i in chain then InChain(chain[0]) else g.place[i]),
       posted := g.posted[chain[0] := Posted(chain, |g.requests|, Pending)],
       pending := g.pending + [chain[0]], requests := g.requests + [request])
  }

  /** The request is the newest one, and its chain is the last pending one; all other heads are as before. */
  ghost predicate Records(g: Ghost, g': Ghost, chain: seq<nat>, request: Request) {
    && chain != [] && g'.requests == g.requests + [request] && g'.pending == g.pending + [chain[0]]
    && chain[0] !in g.posted && g'.posted.Keys == g.posted.Keys + {chain[0]}
    && g'.posted[chain[0]] == Posted(chain, |g.requests|, Pending)
    && forall h: nat :: h in g.posted ==> g'.posted[h] == g.posted[h]
  }

  lemma PostRecords(g: Ghost, chain: seq<nat>, request: Request)
    requires chain != [] && chain[0] !in g.posted
    ensures Records(g, AfterPost(g, chain, request), chain, request)
  {
  }

  ghost function AfterTake(g: Ghost): Ghost
    requires g.pending != [] && g.pending[0] in g.posted
  {
    var h := g.pending[0];
    g.(posted := g.posted[h := g.posted[h].(phase := Taken)], pending := g.pending[1..], consumed := g.consumed + 1)
  }

  ghost function AfterReturn(g: Ghost, h: nat, written: nat): Ghost
    requires h in g.posted
  {
    g.(posted := g.posted[h := g.posted[h].(phase := Returned)], returned := g.returned + [UsedElement(h, written)])
  }

  ghost function AfterProcess(g: Ghost): Ghost
    requires g.returned != [] && g.returned[0].tableIndex in g.posted
  {
    var h := g.returned[0].tableIndex;
    g.(place := seq(|g.place|, i requires 0 <= i < |g.place| => if g.place[i] == InChain(h) then Free else g.place[i]),
       posted := g.posted - {h}, returned := g.returned[1..], processed := g.processed + 1,
       releasing := g.releasing + |g.posted[h].chain|, completions := g.completions + [g.posted[h].ticket])
  }

  /** The used element e ends the request posted at its head. */
  ghost predicate Completes(g: Ghost, e: UsedElement, done: (Request, nat)) {
    && e.tableIndex in g.posted && g.posted[e.tableIndex].ticket < |g.requests|
    && done == (g.requests[g.posted[e.tableIndex].ticket], e.written)
  }

  /** Since history g0, the first |done| of all returned elements have been processed. */
  ghost predicate HasProcessed(g0: Ghost, g: Ghost, all: seq<UsedElement>, done: seq<(Request, nat)>) {
    && |done| <= |all| && g.returned == all[|done|..]
    && g.releasing == g0.releasing && g.requests == g0.requests && g.processed == g0.processed + |done|
    && (forall i :: 0 <= i < |done| ==> Completes(g0, all[i], done[i]))
    && (forall h: nat :: h in g.posted ==> h in g0.posted && g.posted[h].ticket == g0.posted[h].ticket)
  }

  lemma ProcessOneMore(g0: Ghost, g: Ghost, g': Ghost, all: seq<UsedElement>, done: seq<(Request, nat)>,
                       one: (Request, nat))
    requires HasProcessed(g0, g, all, done) && g.returned != [] && Completes(g, g.returned[0], one)
    requires g' == AfterProcess(g).(releasing := g.releasing)
    ensures HasProcessed(g0, g', all, done + [one])
  {
    assert all[|done|..][1..] == all[|done| + 1..];
  }

  // ---- The device during an interrupt ----

  datatype DeviceStep = Take | Return(head: nat, written: nat)

  ghost function TakenHeads(posted: map<nat, Posted>): set<nat> {
    set h | h in posted && posted[h].phase == Taken
  }

  /** The device takes heads only while some are pending, and returns only heads that it has taken. */
  ghost predicate CanRun(pending: seq<nat>, taken: set<nat>, steps: seq<DeviceStep>) {
    steps == [] ||
    match steps[0]
    case Take => pending != [] && CanRun(pending[1..], taken + {pending[0]}, steps[1..])
    case Return(head, _) => head in taken && CanRun(pending, taken - {head}, steps[1..])
  }

  ghost function Yields(step: DeviceStep): seq<UsedElement> {
    if step.Take? then [] else [UsedElement(step.head, step.written)]
  }

  /** What the device returns in the steps. */
  ghost function Returns(steps: seq<DeviceStep>): seq<UsedElement> {
    if steps == [] then [] else Yields(steps[0]) + Returns(steps[1..])
  }

  /** The batches one after the other. */
  ghost function AllSteps(device: seq<seq<DeviceStep>>): seq<DeviceStep> {
    if device == [] then [] else device[0] + AllSteps(device[1..])
  }

  /** What the device returns in all batches. */
  ghost function AllReturns(device: seq<seq<DeviceStep>>): seq<UsedElement> {
    if device == [] then [] else AllReturns(device[..|device| - 1]) + Returns(device[|device| - 1])
  }

  /** The batches of the first n iterations. */
  ghost function Until(device: seq<seq<DeviceStep>>, n: nat): seq<seq<DeviceStep>> {
    if n <= |device| then device[..n] else device
  }

  ghost predicate Running(g: Ghost, steps: seq<DeviceStep>) {
    CanRun(g.pending, TakenHeads(g.posted), steps)
  }

  /** Between two histories, the device has returned elements and perhaps taken heads. */
  ghost predicate OnlyReturned(g: Ghost, g': Ghost, more: seq<UsedElement>) {
    && g'.returned == g.returned + more
    && g'.releasing == g.releasing && g'.requests == g.requests && g'.processed == g.processed
    && (forall h: nat :: h in g'.posted ==> h in g.posted && g'.posted[h].ticket == g.posted[h].ticket)
  }

  lemma TakeRuns(g: Ghost, steps: seq<DeviceStep>)
    requires PhaseInv(g) && steps != [] && steps[0] == Take && Running(g, steps)
    ensures g.pending != [] && g.pending[0] in g.posted
    ensures Running(AfterTake(g), steps[1..]) && OnlyReturned(g, AfterTake(g), Yields(steps[0]))
  {
    assert InPhase(g.posted, g.pending[0], Pending);
    assert TakenHeads(AfterTake(g).posted) == TakenHeads(g.posted) + {g.pending[0]};
  }

  lemma ReturnRuns(g: Ghost, steps: seq<DeviceStep>)
    requires steps != [] && steps[0].Return? && Running(g, steps)
    ensures InPhase(g.posted, steps[0].head, Taken)
    ensures var g' := AfterReturn(g, steps[0].head, steps[0].written);
            && Running(g', steps[1..])
            && OnlyReturned(g, g', Yields(steps[0]))
  {
    var g' := AfterReturn(g, steps[0].head, steps[0].written);
    assert TakenHeads(g'.posted) == TakenHeads(g.posted) - {steps[0].head};
  }

  /** Processing a returned head leaves the pending and the taken ones alone. */
  lemma ProcessRuns(g: Ghost, g': Ghost, steps: seq<DeviceStep>)
    requires PhaseInv(g) && g.returned != [] && g.returned[0].tableIndex in g.posted && Running(g, steps)
    requires g' == AfterProcess(g).(releasing := g.releasing)
    ensures Running(g', steps)
  {
    assert Heads(g.returned)[0] == g.returned[0].tableIndex;
    assert InPhase(g.posted, g.returned[0].tableIndex, Returned);
    assert TakenHeads(g'.posted) == TakenHeads(g.posted);
  }

  lemma ReturnsOnwards(g: Ghost, g': Ghost, g'': Ghost, batch: seq<DeviceStep>)
    requires batch != [] && OnlyReturned(g, g', Yields(batch[0])) && OnlyReturned(g', g'', Returns(batch[1..]))
    ensures OnlyReturned(g, g'', Returns(batch))
  {
    Associative(g.returned, Yields(batch[0]), Returns(batch[1..]));
  }

  /** Since history g0, the device has been through i batches and the handler through |done| elements. */
  ghost predicate Serving(g0: Ghost, g: Ghost, device: seq<seq<DeviceStep>>, i: nat, done: seq<(Request, nat)>) {
    && i <= |device| && Running(g, AllSteps(device[i..]))
    && HasProcessed(g0, g, g0.returned + AllReturns(device[..i]), done)
  }

  lemma ServingStarts(g: Ghost, device: seq<seq<DeviceStep>>)
    requires Running(g, AllSteps(device))
    ensures Serving(g, g, device, 0, [])
  {
    assert device[0..] == device && g.returned + [] == g.returned;
  }

  lemma NextBatch(g: Ghost, device: seq<seq<DeviceStep>>, i: nat)
    requires i < |device| && Running(g, AllSteps(device[i..]))
    ensures Running(g, device[i] + AllSteps(device[i + 1..]))
  {
    assert device[i..][1..] == device[i + 1..];
  }

  lemma ReturnsMore(g0: Ghost, g: Ghost, g': Ghost, all: seq<UsedElement>, more: seq<UsedElement>,
                    done: seq<(Request, nat)>)
    requires HasProcessed(g0, g, all, done) && OnlyReturned(g, g', more)
    ensures HasProcessed(g0, g', all + more, done)
  {
    assert (all + more)[|done|..] == all[|done|..] + more;
  }

  lemma AfterBatch(g0: Ghost, g: Ghost, g': Ghost, device: seq<seq<DeviceStep>>, i: nat, done: seq<(Request, nat)>)
    requires i < |device| && Serving(g0, g, device, i, done)
    requires OnlyReturned(g, g', Returns(device[i])) && Running(g', AllSteps(device[i + 1..]))
    ensures Serving(g0, g', device, i + 1, done)
  {
    ReturnsMore(g0, g, g', g0.returned + AllReturns(device[..i]), Returns(device[i]), done);
    Associative(g0.returned, AllReturns(device[..i]), Returns(device[i]));
    assert device[..i + 1][..i] == device[..i];
  }

  lemma AfterNext(g0: Ghost, g: Ghost, g': Ghost, device: seq<seq<DeviceStep>>, i: nat,
                  done: seq<(Request, nat)>, one: (Request, nat))
    requires PhaseInv(g) && Serving(g0, g, device, i, done) && g.returned != [] && Completes(g, g.returned[0], one)
    requires g' == AfterProcess(g).(releasing := g.releasing)
    ensures Serving(g0, g', device, i, done + [one]) && |g'.returned| < |g.returned|
  {
    ProcessOneMore(g0, g, g', g0.returned + AllReturns(device[..i]), done, one);
    ProcessRuns(g, g', AllSteps(device[i..]));
  }

  /** All elements are done, in the order of the returns up to the iteration after the last of them. */
  ghost predicate AllDone(g0: Ghost, device: seq<seq<DeviceStep>>, done: seq<(Request, nat)>) {
    var all := g0.returned + AllReturns(Until(device, |done| + 1));
    |done| == |all| && forall i :: 0 <= i < |done| ==> Completes(g0, all[i], done[i])
  }

  lemma ServingEnds(g0: Ghost, g: Ghost, device: seq<seq<DeviceStep>>, i: nat, done: seq<(Request, nat)>)
    requires Serving(g0, g, device, i, done) && g.returned == []
    requires i == |done| + 1 <= |device| || i == |device| <= |done|
    ensures AllDone(g0, device, done)
    ensures g.releasing == g0.releasing && g.requests == g0.requests && g.processed == g0.processed + |done|
  {
    assert device[..i] == Until(device, |done| + 1);
  }

  // ---- What the invariants say ----

  /** Every descriptor is in exactly one place: on the stack, with a driver, or in one posted chain. */
  lemma ExactlyOnePlace(table: seq<Descriptor>, stack: seq<nat>, semaphore: nat, g: Ghost, i: nat)
    requires ChainInv(table, g) && StackInv(stack, semaphore, g) && i < |table|
    ensures i in stack <==> g.place[i] == Free
    ensures forall h: nat :: (h in g.posted && i in g.posted[h].chain) <==> g.place[i] == InChain(h)
    ensures semaphore + g.acquired <= |stack|
  {
    forall h: nat ensures (h in g.posted && i in g.posted[h].chain) <==> g.place[i] == InChain(h) {
      if h in g.posted { assert ChainOk(table, g.place, h, g.posted[h].chain); }
    }
  }

  /** Every request that was posted is completed once, or is still outstanding under exactly one head. */
  lemma CompletedExactlyOnce(g: Ghost, t: nat)
    requires TicketInv(g) && t < |g.requests|
    ensures multiset(g.completions)[t] == (if Outstanding(g, t) then 0 else 1)
    ensures forall h: nat, h': nat ::
              h in g.posted && h' in g.posted && g.posted[h].ticket == t == g.posted[h'].ticket ==> h == h'
  {
    CountDistinct(g.completions, t);
  }

  // ---- Preservation ----

  function InitialGhost(size: nat): Ghost {
    Ghost(seq(size, _ => Free), map[], [], [], 0, 0, 0, 0, [], [])
  }

  lemma InitialStack(size: nat, stack: seq<nat>)
    requires |stack| == size && forall i :: 0 <= i < size ==> stack[i] == i
    ensures StackInv(stack, size, InitialGhost(size))
  {
    forall i | 0 <= i < size ensures i in stack { assert stack[i] == i; }
  }

  lemma PopKeeps(table: seq<Descriptor>, stack: seq<nat>, semaphore: nat, g: Ghost, rest: seq<nat>, handles: seq<nat>)
    requires ChainInv(table, g) && StackInv(stack, semaphore, g) && |handles| <= g.acquired
    requires |rest| + |handles| == |stack| && rest == stack[..|rest|]
    requires forall i :: 0 <= i < |handles| ==> handles[i] == stack[|stack| - 1 - i]
    ensures ChainInv(table, AfterPop(g, handles)) && StackInv(rest, semaphore, AfterPop(g, handles))
  {
    var g' := AfterPop(g, handles);
    forall i | 0 <= i < |g.place| ensures g'.place[i] == Free <==> i in rest {
      if i in stack {
        var k :| 0 <= k < |stack| && stack[k] == i;
        if k >= |rest| { assert handles[|stack| - 1 - k] == i; }
      }
    }
    forall k | 0 <= k < |handles| ensures g.place[handles[k]] == Free { assert handles[k] in stack; }
    forall h | h in g.posted ensures ChainOk(table, g'.place, h, g'.posted[h].chain) {
      assert ChainOk(table, g.place, h, g.posted[h].chain);
    }
  }

  /** Writing to a descriptor that a driver holds leaves the chains alone. */
  lemma WriteKeeps(table: seq<Descriptor>, g: Ghost, i: nat, d: Descriptor)
    requires ChainInv(table, g) && i < |table| && g.place[i] == Held
    ensures ChainInv(table[i := d], g)
  {
    forall h | h in g.posted ensures ChainOk(table[i := d], g.place, h, g.posted[h].chain) {
      assert ChainOk(table, g.place, h, g.posted[h].chain);
    }
  }

  lemma PostKeepsChains(table: seq<Descriptor>, stack: seq<nat>, semaphore: nat, g: Ghost,
                        chain: seq<nat>, request: Request)
    requires ChainInv(table, g) && StackInv(stack, semaphore, g) && IsChain(table, chain)
    requires forall k :: 0 <= k < |chain| ==> g.place[chain[k]] == Held
    ensures chain[0] !in g.posted
    ensures ChainInv(table, AfterPost(g, chain, request)) && StackInv(stack, semaphore, AfterPost(g, chain, request))
  {
    var g' := AfterPost(g, chain, request);
    forall h: nat | h in g.posted ensures h < |g.place| && g.place[h] == InChain(h) {
      assert ChainOk(table, g.place, h, g.posted[h].chain);
      assert g.posted[h].chain[0] in g.posted[h].chain;
    }
    forall h | h in g'.posted ensures ChainOk(table, g'.place, h, g'.posted[h].chain) {
      if h != chain[0] { assert ChainOk(table, g.place, h, g.posted[h].chain); }
    }
  }

  lemma PostKeepsPhases(g: Ghost, chain: seq<nat>, request: Request)
    requires PhaseInv(g) && TicketInv(g) && chain != [] && chain[0] !in g.posted && chain[0] < |g.place|
    ensures PhaseInv(AfterPost(g, chain, request)) && TicketInv(AfterPost(g, chain, request))
    ensures |g.pending| < |g.place|
  {
    var g', h := AfterPost(g, chain, request), chain[0];
    assert !InPhase(g.posted, h, Pending) && !InPhase(g.posted, h, Returned);
    forall k | 0 <= k < |g.pending| ensures g.pending[k] < |g.place| {
      assert InPhase(g.posted, g.pending[k], Pending);
    }
    DistinctBelow(g.pending + [h], |g.place|);
    forall x: nat ensures InPhase(g'.posted, x, Pending) <==> x in g'.pending {
      assert InPhase(g.posted, x, Pending) <==> x in g.pending;
    }
    forall t: nat | t < |g'.requests| && t !in g'.completions ensures Outstanding(g', t) {
      if t < |g.requests| {
        assert Outstanding(g, t);
        var x: nat :| x in g.posted && g.posted[x].ticket == t;
        assert x in g'.posted;
      } else {
        assert h in g'.posted;
      }
    }
  }

  lemma TakeKeeps(table: seq<Descriptor>, active: seq<Option<Request>>, g: Ghost)
    requires ChainInv(table, g) && PhaseInv(g) && TicketInv(g) && ActiveInv(active, g) && g.pending != []
    ensures InPhase(g.posted, g.pending[0], Pending)
    ensures var g' := AfterTake(g); ChainInv(table, g') && PhaseInv(g') && TicketInv(g') && ActiveInv(active, g')
  {
    var h := g.pending[0];
    assert h in g.pending;
    MovePhase(table, active, g, AfterTake(g), h);
    var g' := AfterTake(g);
    forall x: nat ensures InPhase(g'.posted, x, Pending) <==> x in g'.pending {
      assert InPhase(g.posted, x, Pending) <==> x in g.pending;
    }
    forall x: nat ensures InPhase(g'.posted, x, Returned) <==> x in Heads(g'.returned) {
      assert InPhase(g.posted, x, Returned) <==> x in Heads(g.returned);
    }
  }

  lemma TakeRing(available: seq<nat>, deviceIndex: nat, availableHead: nat,
                 used: seq<UsedElement>, progressHead: nat, usedHead: nat, g: Ghost)
    requires RingInv(available, deviceIndex, availableHead, used, progressHead, usedHead, g)
    requires g.pending != [] && g.pending[0] in g.posted
    ensures available[Slot(deviceIndex, |available|)] == g.pending[0]
    ensures RingInv(available, (deviceIndex + 1) % WRAP, availableHead, used, progressHead, usedHead, AfterTake(g))
  {
    RingOkPop(available, deviceIndex, availableHead, g.consumed, g.pending);
  }

  lemma ReturnKeeps(table: seq<Descriptor>, active: seq<Option<Request>>, g: Ghost, h: nat, written: nat)
    requires ChainInv(table, g) && PhaseInv(g) && TicketInv(g) && ActiveInv(active, g) && InPhase(g.posted, h, Taken)
    ensures |g.returned| < |g.place|
    ensures var g' := AfterReturn(g, h, written);
            ChainInv(table, g') && PhaseInv(g') && TicketInv(g') && ActiveInv(active, g')
  {
    var g' := AfterReturn(g, h, written);
    MovePhase(table, active, g, g', h);
    assert Heads(g'.returned) == Heads(g.returned) + [h];
    assert !InPhase(g.posted, h, Returned);
    forall x: nat ensures InPhase(g'.posted, x, Returned) <==> x in Heads(g'.returned) {
      assert InPhase(g.posted, x, Returned) <==> x in Heads(g.returned);
    }
    forall x: nat ensures InPhase(g'.posted, x, Pending) <==> x in g'.pending {
      assert InPhase(g.posted, x, Pending) <==> x in g.pending;
    }
    forall k | 0 <= k < |Heads(g'.returned)| ensures Heads(g'.returned)[k] < |g.place| {
      assert Heads(g'.returned)[k] in Heads(g'.returned);
      assert InPhase(g'.posted, Heads(g'.returned)[k], Returned);
    }
    DistinctBelow(Heads(g'.returned), |g.place|);
  }

  /** Chains and tickets do not depend on the phase. */
  lemma MovePhase(table: seq<Descriptor>, active: seq<Option<Request>>, g: Ghost, g': Ghost, h: nat)
    requires ChainInv(table, g) && TicketInv(g) && ActiveInv(active, g) && h in g.posted
    requires g'.place == g.place && g'.requests == g.requests && g'.completions == g.completions
    requires h in g'.posted && g'.posted == g.posted[h := g.posted[h].(phase := g'.posted[h].phase)]
    ensures ChainInv(table, g') && TicketInv(g') && ActiveInv(active, g')
  {
    forall x | x in g'.posted ensures ChainOk(table, g'.place, x, g'.posted[x].chain) {
      assert ChainOk(table, g.place, x, g.posted[x].chain);
    }
    forall t: nat | t < |g'.requests| && t !in g'.completions ensures Outstanding(g', t) {
      assert Outstanding(g, t);
      var x: nat :| x in g.posted && g.posted[x].ticket == t;
      assert x in g'.posted;
    }
  }

  lemma ProcessKeepsChains(table: seq<Descriptor>, stack: seq<nat>, semaphore: nat, g: Ghost)
    requires ChainInv(table, g) && StackInv(stack, semaphore, g)
    requires g.returned != [] && g.returned[0].tableIndex in g.posted
    ensures var g', chain := AfterProcess(g), g.posted[g.returned[0].tableIndex].chain;
            ChainInv(table, g') && StackInv(stack + chain, semaphore, g')
  {
    var g', h := AfterProcess(g), g.returned[0].tableIndex;
    var chain := g.posted[h].chain;
    assert ChainOk(table, g.place, h, chain);
    forall k | 0 <= k < |chain| ensures g.place[chain[k]] == InChain(h) { assert chain[k] in chain; }
    forall k | 0 <= k < |stack| ensures g.place[stack[k]] == Free { assert stack[k] in stack; }
    forall x | x in g'.posted ensures ChainOk(table, g'.place, x, g'.posted[x].chain) {
      assert ChainOk(table, g.place, x, g.posted[x].chain);
    }
  }

  lemma ProcessKeepsPhases(g: Ghost)
    requires PhaseInv(g) && g.returned != []
    ensures InPhase(g.posted, g.returned[0].tableIndex, Returned) && PhaseInv(AfterProcess(g))
  {
    assert Heads(g.returned)[0] in Heads(g.returned);
    assert InPhase(g.posted, g.returned[0].tableIndex, Returned);
    var g' := AfterProcess(g);
    assert Heads(g'.returned) == Heads(g.returned)[1..];
    forall x: nat ensures InPhase(g'.posted, x, Returned) <==> x in Heads(g'.returned) {
      assert InPhase(g.posted, x, Returned) <==> x in Heads(g.returned);
    }
    forall x: nat ensures InPhase(g'.posted, x, Pending) <==> x in g'.pending {
      assert InPhase(g.posted, x, Pending) <==> x in g.pending;
    }
  }

  lemma ProcessKeepsTickets(active: seq<Option<Request>>, g: Ghost)
    requires TicketInv(g) && ActiveInv(active, g) && g.returned != []
    requires g.returned[0].tableIndex in g.posted && g.returned[0].tableIndex < |active|
    ensures TicketInv(AfterProcess(g)) && ActiveInv(active[g.returned[0].tableIndex := None], AfterProcess(g))
  {
    var g', h := AfterProcess(g), g.returned[0].tableIndex;
    forall t: nat | t < |g'.requests| && t !in g'.completions ensures Outstanding(g', t) {
      assert g'.completions == g.completions + [g.posted[h].ticket];
      assert Outstanding(g, t);
      var x: nat :| x in g.posted && g.posted[x].ticket == t;
      assert x in g'.posted;
    }
  }
}

/** Queue of core/virtio/src/core.cpp; a method is one section under the lock or one access of the device. */
module VirtioQueue {
  import opened Common
  import opened Sequences
  import opened VirtioSpec

  class Queue {
    const table: array<Descriptor>
    const availableRing: array<nat>
    var availableHead: nat
    /** The device's index into the available ring. */
    var deviceIndex: nat
    const usedRing: array<UsedElement>
    var usedHead: nat
    var semaphore: nat
    var stack: seq<nat>
    const active: array<Option<Request>>
    var progressHead: nat
    ghost var g: Ghost

    ghost predicate Valid()
      reads this, table, availableRing, usedRing, active
    {
      && ChainInv(table[..], g) && StackInv(stack, semaphore, g)
      && RingInv(availableRing[..], deviceIndex, availableHead, usedRing[..], progressHead, usedHead, g)
      && PhaseInv(g) && TicketInv(g) && ActiveInv(active[..], g)
    }

    constructor (size: nat)
      requires SizeOk(size)
      ensures Valid() && table.Length == size && g == InitialGhost(size)
      ensures fresh(table) && fresh(availableRing) && fresh(usedRing) && fresh(active)
    {
      table := new Descriptor[size](_ => Descriptor(0, 0, false, false, 0));
      availableRing := new nat[size](_ => 0xFFFF);
      usedRing := new UsedElement[size](_ => UsedElement(0xFFFF, 0));
      active := new Option<Request>[size](_ => None);
      availableHead, deviceIndex, usedHead, progressHead, semaphore := 0, 0, 0, 0, size;
      stack := seq(size, i => i);
      g := InitialGhost(size);
      new;
      InitialStack(size, stack);
    }

    // ---- The driver ----

    /** async_acquire(): enabled once there are enough units. */
    method Acquire(n: nat)
      requires Valid() && n <= semaphore
      modifies this
      ensures Valid() && g == old(g).(acquired := old(g).acquired + n)
    {
      semaphore := semaphore - n;
      g := g.(acquired := g.acquired + n);
    }

    /** The lock section of obtainDescriptors(), for a caller that has acquired its units. */
    method Pop(n: nat) returns (handles: seq<nat>)
      requires Valid() && n <= g.acquired
      modifies this
      ensures Valid() && |handles| == n && g == AfterPop(old(g), handles) && NoRepeats(handles)
      ensures forall k :: 0 <= k < n ==> handles[k] < |g.place| && old(g).place[handles[k]] == Free
    {
      ghost var stack0 := stack;
      handles := [];
      assert stack0[..|stack0|] == stack0;
      while |handles| < n
        invariant |handles| <= n && |stack| + |handles| == |stack0| && stack == stack0[..|stack|]
        invariant forall k :: 0 <= k < |handles| ==> handles[k] == stack0[|stack0| - 1 - k]
        invariant unchanged(this`g, this`semaphore, this`availableHead, this`deviceIndex,
                            this`usedHead, this`progressHead)
      {
        var top := stack[|stack| - 1];
        stack := stack[..|stack| - 1];
        handles := handles + [top];
      }
      PopKeeps(table[..], stack0, semaphore, g, stack, handles);
      assert forall k :: 0 <= k < n ==> handles[k] in stack0;
      g := AfterPop(g, handles);
    }

    /** Stores to the descriptor of a handle: obtainDescriptors(), setupBuffer() and setupLink(). */
    method Write(i: nat, d: Descriptor)
      requires Valid() && i < |g.place| && g.place[i] == Held
      modifies table
      ensures Valid() && table[..] == old(table[..])[i := d]
    {
      WriteKeeps(table[..], g, i, d);
      table[i] := d;
      assert table[..] == old(table[..])[i := d];
    }

    method SetupLink(i: nat, other: nat)
      requires Valid() && i < |g.place| && g.place[i] == Held
      modifies table
      ensures Valid() && table[..] == old(table[..])[i := old(table[i]).(next := other, hasNext := true)]
    {
      Write(i, table[i].(next := other, hasNext := true));
    }

    /** obtainDescriptors() when enough units are available: cleared descriptors, held by the caller. */
    method ObtainDescriptors(n: nat) returns (handles: seq<nat>)
      requires Valid() && 0 < n <= semaphore
      modifies this, table
      ensures Valid() && |handles| == n && NoRepeats(handles)
      ensures g == AfterPop(old(g).(acquired := old(g).acquired + n), handles)
      ensures forall k :: 0 <= k < n ==>
                && handles[k] < |g.place| && old(g).place[handles[k]] == Free && g.place[handles[k]] == Held
                && table[handles[k]] == Descriptor(0, 0, false, false, table[handles[k]].next)
      ensures forall i :: 0 <= i < table.Length && i !in handles ==> table[i] == old(table[i])
    {
      Acquire(n);
      handles := Pop(n);
      for j := 0 to n
        invariant Valid() && |handles| == n && g == AfterPop(old(g).(acquired := old(g).acquired + n), handles)
        invariant forall k :: 0 <= k < j ==> table[handles[k]] == Descriptor(0, 0, false, false, table[handles[k]].next)
        invariant forall i :: 0 <= i < table.Length && i !in handles ==> table[i] == old(table[i])
      {
        Write(handles[j], Descriptor(0, 0, false, false, table[handles[j]].next));
      }
    }

    /** Chain::append() for all handles in turn: they form a chain that can be posted. */
    method LinkAll(handles: seq<nat>)
      requires Valid() && handles != [] && NoRepeats(handles)
      requires forall k :: 0 <= k < |handles| ==>
                 handles[k] < |g.place| && g.place[handles[k]] == Held && !table[handles[k]].hasNext
      modifies table
      ensures Valid() && IsChain(table[..], handles)
      ensures forall i :: 0 <= i < table.Length ==>
                if i in handles then table[i] == old(table[i]).(next := table[i].next, hasNext := table[i].hasNext)
                else table[i] == old(table[i])
    {
      var j := 1;
      while j < |handles|
        invariant 1 <= j <= |handles| && Valid()
        invariant forall i :: 0 <= i < table.Length ==>
                    if i in handles then table[i] == old(table[i]).(next := table[i].next, hasNext := table[i].hasNext)
                    else table[i] == old(table[i])
        invariant forall k :: 0 <= k < |handles| ==> table[handles[k]].hasNext == (k < j - 1)
        invariant forall k :: 0 <= k < j - 1 ==> table[handles[k]].next == handles[k + 1]
      {
        SetupLink(handles[j - 1], handles[j]);
        j := j + 1;
      }
    }

    /** postDescriptor() at the head of a chain that the driver holds. */
    method Post(head: nat, request: Request, ghost chain: seq<nat>)
      requires Valid() && IsChain(table[..], chain) && chain[0] == head
      requires forall k :: 0 <= k < |chain| ==> g.place[chain[k]] == Held
      modifies this, availableRing, active
      ensures Valid() && g == AfterPost(old(g), chain, request)
      ensures Records(old(g), g, chain, request) && active[..] == old(active[..])[head := Some(request)]
    {
      PostKeepsChains(table[..], stack, semaphore, g, chain, request);
      PostKeepsPhases(g, chain, request);
      PostRecords(g, chain, request);
      assert active[head] == None;
      active[head] := Some(request);

      var size := table.Length;
      var enqueueHead := availableHead;
      var ringIndex := Slot(enqueueHead, size);
      RingOkPush(availableRing[..], deviceIndex, availableHead, g.consumed, g.pending, head);
      availableRing[ringIndex] := head;
      availableHead := (enqueueHead + 1) % WRAP;
      g := AfterPost(g, chain, request);
    }

    // ---- The device ----

    /** The device compares its index with the driver's: equal 16-bit indices mean that nothing is pending. */
    method DeviceHasWork() returns (work: bool)
      requires Valid()
      ensures work <==> g.pending != []
    {
      RingEmpty(availableRing[..], deviceIndex, availableHead, g.consumed, g.pending);
      work := deviceIndex != availableHead;
    }

    /** The device takes the next head from the available ring: nothing there was overwritten. */
    method DeviceTake() returns (head: nat)
      requires Valid() && g.pending != []
      modifies `g, `deviceIndex
      ensures Valid() && head == old(g).pending[0] && head in old(g).posted && g == AfterTake(old(g))
      ensures g.posted == old(g).posted[head := old(g).posted[head].(phase := Taken)]
      ensures g.pending == old(g).pending[1..] && g.returned == old(g).returned && g.requests == old(g).requests
    {
      TakeKeeps(table[..], active[..], g);
      TakeRing(availableRing[..], deviceIndex, availableHead, usedRing[..], progressHead, usedHead, g);
      head := availableRing[Slot(deviceIndex, availableRing.Length)];
      deviceIndex := (deviceIndex + 1) % WRAP;
      g := AfterTake(g);
    }

    /** The device returns a head that it has taken, in any order. */
    method DeviceReturn(head: nat, written: nat)
      requires Valid() && InPhase(g.posted, head, Taken)
      modifies `g, `usedHead, usedRing
      ensures Valid() && g == AfterReturn(old(g), head, written)
      ensures g.returned == old(g).returned + [UsedElement(head, written)]
      ensures g.posted == old(g).posted[head := old(g).posted[head].(phase := Returned)]
      ensures g.requests == old(g).requests && g.pending == old(g).pending
    {
      ReturnKeeps(table[..], active[..], g, head, written);
      RingOkPush(usedRing[..], progressHead, usedHead, g.processed, g.returned, UsedElement(head, written));
      usedRing[Slot(usedHead, usedRing.Length)] := UsedElement(head, written);
      usedHead := (usedHead + 1) % WRAP;
      g := AfterReturn(g, head, written);
    }

    // ---- The interrupt handler ----

    /** Push the descriptors of a chain onto the stack by following its links. */
    method FreeChain(head: nat, ghost chain: seq<nat>) returns (freed: nat)
      requires IsChain(table[..], chain) && chain[0] == head
      modifies `stack
      ensures stack == old(stack) + chain && freed == |chain|
    {
      var chainIndex := head;
      freed := 0;
      while table[chainIndex].hasNext
        invariant freed < |chain| && chainIndex == chain[freed] && stack == old(stack) + chain[..freed]
        decreases |chain| - freed
      {
        assert table[..][chain[freed]].hasNext;
        var successor := table[chainIndex].next;
        stack := stack + [chainIndex];
        freed := freed + 1;
        chainIndex := successor;
      }
      assert !table[..][chain[freed]].hasNext;
      assert chain[..freed] + [chainIndex] == chain;
      stack := stack + [chainIndex];
      freed := freed + 1;
    }

    /**
     The lock section of processInterrupt(): the oldest unprocessed used element completes
     the request posted at its head and frees the whole chain.
     */
    method Process() returns (r: Option<(Request, nat)>, freed: nat)
      requires Valid()
      modifies this, active
      ensures Valid()
      ensures if old(g).returned == [] then r == None && freed == 0 && g == old(g)
              else
                && r.Some? && Completes(old(g), old(g).returned[0], r.value)
                && g == AfterProcess(old(g)) && freed == |old(g).posted[old(g).returned[0].tableIndex].chain|
    {
      RingEmpty(usedRing[..], progressHead, usedHead, g.processed, g.returned);
      if progressHead == usedHead { return None, 0; }
      RingOkPop(usedRing[..], progressHead, usedHead, g.processed, g.returned);
      ProcessKeepsPhases(g);
      ProcessKeepsTickets(active[..], g);
      ProcessKeepsChains(table[..], stack, semaphore, g);

      var element := usedRing[Slot(progressHead, usedRing.Length)];
      var request := active[element.tableIndex].value;
      active[element.tableIndex] := None;
      assert ChainOk(table[..], g.place, element.tableIndex, g.posted[element.tableIndex].chain);
      freed := FreeChain(element.tableIndex, g.posted[element.tableIndex].chain);
      progressHead := (progressHead + 1) % WRAP;
      r := Some((request, element.written));
      g := AfterProcess(g);
    }

    /** release(): the freed units become available to waiters. */
    method Release(freed: nat)
      requires Valid() && freed <= g.releasing
      modifies this
      ensures Valid() && g == old(g).(releasing := old(g).releasing - freed)
    {
      semaphore := semaphore + freed;
      g := g.(releasing := g.releasing - freed);
    }

    /** The next step of the device. */
    method DeviceStepNext(ghost steps: seq<DeviceStep>, step: DeviceStep)
      requires Valid() && steps != [] && step == steps[0] && Running(g, steps)
      modifies `g, `deviceIndex, `usedHead, usedRing
      ensures Valid() && Running(g, steps[1..]) && OnlyReturned(old(g), g, Yields(step))
    {
      match step {
        case Take =>
          TakeRuns(g, steps);
          var _ := DeviceTake();
        case Return(head, written) =>
          ReturnRuns(g, steps);
          DeviceReturn(head, written);
      }
    }

    /** The device takes a few steps between two iterations of the handler. */
    method DeviceRun(batch: seq<DeviceStep>, ghost rest: seq<DeviceStep>)
      requires Valid() && Running(g, batch + rest)
      modifies `g, `deviceIndex, `usedHead, usedRing
      ensures Valid() && Running(g, rest) && OnlyReturned(old(g), g, Returns(batch))
      decreases |batch|
    {
      if batch == [] {
        assert batch + rest == rest;
        return;
      }
      assert (batch + rest)[1..] == batch[1..] + rest;
      DeviceStepNext(batch + rest, batch[0]);
      ghost var between := g;
      DeviceRun(batch[1..], rest);
      ReturnsOnwards(old(g), between, g, batch);
    }

    /** What the device does before iteration i of the handler. */
    method DeviceTurn(device: seq<seq<DeviceStep>>, i: nat, ghost g0: Ghost, ghost done: seq<(Request, nat)>)
      returns (i': nat)
      requires Valid() && Serving(g0, g, device, i, done)
      modifies `g, `deviceIndex, `usedHead, usedRing
      ensures Valid() && Serving(g0, g, device, i', done)
      ensures i' == if i < |device| then i + 1 else i
    {
      if i == |device| { return i; }
      ghost var before := g;
      NextBatch(g, device, i);
      DeviceRun(device[i], AllSteps(device[i + 1..]));
      AfterBatch(g0, before, g, device, i, done);
      i' := i + 1;
    }

    /** One iteration of the handler. */
    method ProcessNext(ghost g0: Ghost, ghost device: seq<seq<DeviceStep>>, ghost i: nat,
                       ghost done: seq<(Request, nat)>)
      returns (r: Option<(Request, nat)>)
      requires Valid() && Serving(g0, g, device, i, done)
      modifies this, active
      ensures Valid()
      ensures if old(g).returned == [] then r == None && g == old(g)
              else r.Some? && Serving(g0, g, device, i, done + [r.value]) && |g.returned| < |old(g).returned|
    {
      ghost var before := g;
      var freed;
      r, freed := Process();
      if r == None { return; }
      Release(freed);
      AfterNext(g0, before, g, device, i, done, r.value);
    }

    /**
     processInterrupt(), while the device goes on: it takes the steps device[i] before iteration
     i of the handler. Everything that the device has returned before the last comparison of the
     indices completes, in the order of the returns.
     */
    method ProcessInterrupt(device: seq<seq<DeviceStep>>) returns (done: seq<(Request, nat)>)
      requires Valid() && Running(g, AllSteps(device))
      modifies this, active, usedRing
      ensures Valid() && g.returned == [] && AllDone(old(g), device, done)
      ensures g.releasing == old(g).releasing && g.requests == old(g).requests
      ensures g.processed == old(g).processed + |done|
    {
      ghost var g0 := g;
      ServingStarts(g0, device);
      done := [];
      var i := 0;
      while true
        invariant Valid() && Serving(g0, g, device, i, done)
        invariant i == |done| <= |device| || i == |device| < |done|
        decreases |device| - i, |g.returned|
      {
        i := DeviceTurn(device, i, g0, done);
        var r := ProcessNext(g0, device, i, done);
        if r == None { break; }
        done := done + [r.value];
      }
      ServingEnds(g0, g, device, i, done);
    }
  }
}

/** The steps that start an operation, and those of the hardware, keep the invariant. */
module ShootdownEntrySteps {
  import opened Shootdown
  import opened ShootdownInvariant
  import opened ShootdownSafety

  // ---- Hardware and page tables ----

  lemma KeepWritePage(st: State, s: nat, page: nat)
    requires Inv(st) && s < |st.spaces|
    ensures Inv(StepWritePage(st, s, page))
  {
    var st' := StepWritePage(st, s, page);
    assert WellFormed(st') by {
      forall d | 0 <= d < |st.cpus| ensures PcWellFormed(st', st'.cpus[d]) { assert PcWellFormed(st, st.cpus[d]); }
    }
    forall t | 0 <= t < |st.spaces| ensures SpaceInv(st', t) { KeepSpace(st, st', t); }
    AssembleSame(st, st', |st.cpus|);
  }

  lemma KeepFillTlb(st: State, b: nat, page: nat)
    requires Inv(st) && Enabled(st, FillTlb(b, page))
    ensures Inv(StepFillTlb(st, b, page))
  {
    var st' := StepFillTlb(st, b, page);
    var c := st.bindings[b].cpu;
    FillTlbFrame(st, st', b, page);
    KeepPc(st, st', c);
    forall t | 0 <= t < |st.spaces| ensures SpaceInv(st', t) { KeepSpace(st, st', t); }
    forall a | 0 <= a < |st.bindings| && st.bindings[a].cpu == c
      ensures AttachInv(st', a) && WaitInv(st', a) && TlbInv(st', a)
    {
      KeepBinding(st, st', a);
      if a == b { FilledTlb(st, st', b, page); } else { KeepTlb(st, st', a); }
    }
    AssembleSame(st, st', c);
  }

  lemma FillTlbFrame(st: State, st': State, b: nat, page: nat)
    requires Inv(st) && Enabled(st, FillTlb(b, page)) && st' == StepFillTlb(st, b, page)
    ensures WellFormed(st') && Guarantee(st, st', st.bindings[b].cpu) && SameList(st, st')
    ensures Rely(st, st', st.bindings[b].cpu)
  {
    assert WellFormed(st') by {
      forall d | 0 <= d < |st.cpus| ensures PcWellFormed(st', st'.cpus[d]) { assert PcWellFormed(st, st.cpus[d]); }
    }
  }

  /** A translation that is loaded now is at least as new as any past submission. */
  lemma FilledTlb(st: State, st': State, b: nat, page: nat)
    requires Inv(st) && WellFormed(st') && Enabled(st, FillTlb(b, page)) && st' == StepFillTlb(st, b, page)
    ensures TlbInv(st', b)
  {
    assert TlbInv(st, b);
    forall n | 0 <= n < |st'.nodes| && st'.nodes[n].space == st'.bindings[b].tlbSpace
      && (b !in st'.nodes[n].waiting || JustInvalidated(st'.cpus[st'.bindings[b].cpu], b, n))
      ensures Fresh(st'.bindings[b].tlb, st'.nodes[n])
    {
      assert NodeInv(st, n);
      assert Fresh(st.bindings[b].tlb, st.nodes[n]);
    }
  }

  // ---- Binding and unbinding ----

  lemma KeepInitialBind(st: State, c: nat)
    requires Inv(st) && Enabled(st, InitialBind(c))
    ensures Inv(StepInitialBind(st, c))
  {
    var st' := StepInitialBind(st, c);
    InitialBindFrame(st, st', c);
    forall s | 0 <= s < |st.spaces| ensures SpaceInv(st', s) {
      assert AttachInv(st, c) && SpaceInv(st, s);
    }
    forall b | 0 <= b < |st.bindings| && st.bindings[b].cpu == c
      ensures AttachInv(st', b) && WaitInv(st', b) && TlbInv(st', b)
    {
      InitialBindBinding(st, st', c, b);
    }
    AssembleSame(st, st', c);
  }

  lemma InitialBindFrame(st: State, st': State, c: nat)
    requires Inv(st) && Enabled(st, InitialBind(c)) && st' == StepInitialBind(st, c)
    ensures WellFormed(st') && Guarantee(st, st', c) && SameList(st, st')
  {
    KeepWellFormed(st, st', c);
  }

  lemma InitialBindBinding(st: State, st': State, c: nat, b: nat)
    requires Inv(st) && WellFormed(st') && Enabled(st, InitialBind(c)) && st' == StepInitialBind(st, c)
    requires b < |st.bindings| && st.bindings[b].cpu == c
    ensures AttachInv(st', b) && WaitInv(st', b) && TlbInv(st', b)
  {
    assert AttachInv(st, b) && WaitInv(st, b);
    forall n | 0 <= n < |st'.nodes| ensures b in st'.nodes[n].waiting <==> Owes(st', b, n) {
      if st.nodes[n].Submitted() { assert SequenceOk(st, n); }
      assert Owes(st, b, n) == Owes(st', b, n);
    }
    if b != c { KeepTlb(st, st', b); }
  }

  lemma KeepRebind(st: State, b: nat, s: nat)
    requires Inv(st) && Enabled(st, Rebind(b, s))
    ensures Inv(StepRebind(st, b, s))
  {
    var st' := StepRebind(st, b, s);
    var c := st.bindings[b].cpu;
    RebindFrame(st, st', b, s);
    forall t | 0 <= t < |st.spaces| ensures SpaceInv(st', t) { RebindSpace(st, st', b, s, t); }
    forall a | 0 <= a < |st.bindings| && st.bindings[a].cpu == c
      ensures AttachInv(st', a) && WaitInv(st', a) && TlbInv(st', a)
    {
      RebindBinding(st, st', b, s, a);
    }
    AssembleSame(st, st', c);
  }

  lemma RebindSpace(st: State, st': State, b: nat, s: nat, t: nat)
    requires Inv(st) && WellFormed(st') && Enabled(st, Rebind(b, s)) && st' == StepRebind(st, b, s) && t < |st.spaces|
    ensures SpaceInv(st', t)
  {
    assert AttachInv(st, b) && SpaceInv(st, t);
  }

  lemma RebindFrame(st: State, st': State, b: nat, s: nat)
    requires Inv(st) && Enabled(st, Rebind(b, s)) && st' == StepRebind(st, b, s)
    ensures WellFormed(st') && Guarantee(st, st', st.bindings[b].cpu) && SameList(st, st')
    ensures PcInv(st', st.bindings[b].cpu)
  {
    assert AttachInv(st, b);
    KeepWellFormed(st, st', st.bindings[b].cpu);
  }

  lemma RebindBinding(st: State, st': State, b: nat, s: nat, a: nat)
    requires Inv(st) && WellFormed(st') && Enabled(st, Rebind(b, s)) && st' == StepRebind(st, b, s)
    requires a < |st.bindings| && st.bindings[a].cpu == st.bindings[b].cpu
    ensures AttachInv(st', a) && WaitInv(st', a) && TlbInv(st', a)
  {
    assert AttachInv(st, a) && WaitInv(st, a);
    forall n | 0 <= n < |st'.nodes| ensures a in st'.nodes[n].waiting <==> Owes(st', a, n) {
      if st.nodes[n].Submitted() { assert SequenceOk(st, n); }
      assert Owes(st, a, n) == Owes(st', a, n);
    }
    KeepTlb(st, st', a);
  }

  lemma KeepUnbind(st: State, b: nat)
    requires Inv(st) && Enabled(st, Unbind(b))
    ensures Inv(StepUnbind(st, b))
  {
    if st.bindings[b].boundSpace >= 0 {
      var st' := StepUnbind(st, b);
      var c := st.bindings[b].cpu;
      UnbindFrame(st, st', b);
      forall t | 0 <= t < |st.spaces| ensures SpaceInv(st', t) { KeepSpace(st, st', t); }
      forall a | 0 <= a < |st.bindings| && st.bindings[a].cpu == c
        ensures AttachInv(st', a) && WaitInv(st', a) && TlbInv(st', a)
      {
        UnbindBinding(st, st', b, a);
      }
      AssembleSame(st, st', c);
    }
  }

  lemma UnbindFrame(st: State, st': State, b: nat)
    requires Inv(st) && Enabled(st, Unbind(b)) && st' == StepUnbind(st, b) && st.bindings[b].boundSpace >= 0
    ensures WellFormed(st') && Guarantee(st, st', st.bindings[b].cpu) && SameList(st, st')
    ensures PcInv(st', st.bindings[b].cpu)
  {
    KeepWellFormed(st, st', st.bindings[b].cpu);
  }

  lemma UnbindBinding(st: State, st': State, b: nat, a: nat)
    requires Inv(st) && WellFormed(st') && Enabled(st, Unbind(b)) && st' == StepUnbind(st, b)
    requires st.bindings[b].boundSpace >= 0
    requires a < |st.bindings| && st.bindings[a].cpu == st.bindings[b].cpu
    ensures AttachInv(st', a) && WaitInv(st', a) && TlbInv(st', a)
  {
    assert AttachInv(st, a) && WaitInv(st, a);
    forall n | 0 <= n < |st'.nodes| ensures a in st'.nodes[n].waiting <==> Owes(st', a, n) {
      assert Owes(st, a, n) == Owes(st', a, n);
    }
    if a != b { KeepTlb(st, st', a); }
  }

  lemma KeepShootdownIpi(st: State, b: nat)
    requires Inv(st) && Enabled(st, ShootdownIpi(b))
    ensures Inv(StepShootdownIpi(st, b))
  {
    var binding := st.bindings[b];
    var c := binding.cpu;
    if binding.boundSpace >= 0 {
      assert AttachInv(st, b) && SpaceInv(st, binding.boundSpace);
      if st.spaces[binding.boundSpace].wantToRetire {
        KeepUnbind(st, b);
      } else {
        var st' := StepShootdownIpi(st, b);
        KeepWellFormed(st, st', c);
        forall a | 0 <= a < |st.bindings| && st.bindings[a].cpu == c ensures AttachInv(st', a) && WaitInv(st', a) {
          IpiBinding(st, st', b, a);
        }
        PcOnly(st, st', c);
      }
    }
  }

  lemma IpiBinding(st: State, st': State, b: nat, a: nat)
    requires Inv(st) && WellFormed(st') && Enabled(st, ShootdownIpi(b)) && 0 <= st.bindings[b].boundSpace
    requires st' == SetPc(st, st.bindings[b].cpu,
      LoadTail(Job(Process, b, st.bindings[b].boundSpace, st.bindings[b].alreadyShot, 0, false, 0)))
    requires a < |st.bindings| && st.bindings[a].cpu == st.bindings[b].cpu
    ensures AttachInv(st', a) && WaitInv(st', a)
  {
    assert AttachInv(st, a) && WaitInv(st, a);
    forall n | 0 <= n < |st'.nodes| ensures a in st'.nodes[n].waiting <==> Owes(st', a, n) {
      assert Owes(st, a, n) == Owes(st', a, n);
    }
  }

  lemma KeepRetire(st: State, c: nat, s: nat)
    requires Inv(st) && Enabled(st, Retire(c, s))
    ensures Inv(StepRetire(st, c, s))
  {
    var st' := StepRetire(st, c, s);
    RetireFrame(st, st', c, s);
    forall t | 0 <= t < |st.spaces| ensures SpaceInv(st', t) { RetireSpace(st, st', c, s, t); }
    forall b | 0 <= b < |st.bindings| && st.bindings[b].cpu == c
      ensures AttachInv(st', b) && WaitInv(st', b) && TlbInv(st', b)
    {
      RetireBinding(st, st', c, s, b);
    }
    AssembleSame(st, st', c);
  }

  lemma RetireSpace(st: State, st': State, c: nat, s: nat, t: nat)
    requires Inv(st) && WellFormed(st') && Enabled(st, Retire(c, s)) && st' == StepRetire(st, c, s) && t < |st.spaces|
    ensures SpaceInv(st', t)
  {
    assert SpaceInv(st, t);
  }

  lemma RetireFrame(st: State, st': State, c: nat, s: nat)
    requires Inv(st) && Enabled(st, Retire(c, s)) && st' == StepRetire(st, c, s)
    ensures WellFormed(st') && Guarantee(st, st', c) && SameList(st, st') && PcInv(st', c)
  {
    assert SpaceInv(st, s);
    if st.spaces[s].numBindings != 0 {
      assert st'.cpus == st.cpus;
      KeepWellFormed(st, st', c);
    } else {
      KeepWellFormed(st, st', c);
    }
  }

  lemma RetireBinding(st: State, st': State, c: nat, s: nat, b: nat)
    requires Inv(st) && WellFormed(st') && Enabled(st, Retire(c, s)) && st' == StepRetire(st, c, s)
    requires b < |st.bindings| && st.bindings[b].cpu == c
    ensures AttachInv(st', b) && WaitInv(st', b) && TlbInv(st', b)
  {
    assert AttachInv(st, b) && WaitInv(st, b);
    forall n | 0 <= n < |st'.nodes| ensures b in st'.nodes[n].waiting <==> Owes(st', b, n) {
      assert Owes(st, b, n) == Owes(st', b, n);
    }
    KeepTlb(st, st', b);
  }
}

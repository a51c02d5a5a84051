/**
 CancelRegistry of kernel/thor/generic/cancel.cpp as a state machine: a step is one lock
 section, one event.cancel() or one fetch_sub together with the destruction it decides.
 */
module Cancel {
  import opened Sequences

  /** What the owner of a CancelGuard still has to do: unregister, give up its reference, nothing. */
  datatype Guard = Registered | Dropping | Gone

  /** A node; `holder` is the canceller that has it in its list, or -1; `destroyed` counts destructions. */
  datatype Node = Node(tag: nat, cancelled: bool, events: nat, refcount: int, guard: Guard, holder: int, destroyed: nat)

  /** A call of cancel(): its list, the node it has just cancelled or -1, and all that it collected. */
  datatype Canceller = Idle | Busy(pending: seq<nat>, current: int, count: nat, collected: seq<nat>)

  /** `order` is the tree: the registered nodes in the order of their tags. */
  datatype State = State(nodes: seq<Node>, order: seq<nat>, cancellers: seq<Canceller>)

  datatype Step =
    | Register(tag: nat, k: nat)
    | Unregister(n: nat)
    | DropGuard(n: nat)
    | Collect(c: nat, tag: nat)
    | CancelEvent(c: nat)
    | DropReference(c: nat)
    | Return(c: nat)

  ghost predicate IsSorted(nodes: seq<Node>, order: seq<nat>) {
    && (forall i :: 0 <= i < |order| ==> order[i] < |nodes|)
    && forall i, j :: 0 <= i < j < |order| ==> nodes[order[i]].tag <= nodes[order[j]].tag
  }

  function Insert(order: seq<nat>, k: nat, n: nat): seq<nat>
    requires k <= |order|
  {
    order[..k] + [n] + order[k..]
  }

  function Without(order: seq<nat>, n: nat): seq<nat> {
    if order == [] then [] else (if order[0] == n then [] else [order[0]]) + Without(order[1..], n)
  }

  /** The nodes that the walk over the tree takes into the list. */
  function Matching(nodes: seq<Node>, order: seq<nat>, tag: nat): seq<nat> {
    if order == [] then []
    else
      var n := order[0];
      (if n < |nodes| && nodes[n].tag == tag && !nodes[n].cancelled then [n] else []) + Matching(nodes, order[1..], tag)
  }

  function NewNode(tag: nat): Node { Node(tag, false, 0, 1, Registered, -1, 0) }

  /** fetch_sub() and, if it took the last reference, the destruction. */
  function Release(node: Node): Node {
    node.(refcount := node.refcount - 1, destroyed := node.destroyed + if node.refcount == 1 then 1 else 0)
  }

  predicate IsBusy(st: State, c: nat) { c < |st.cancellers| && st.cancellers[c].Busy? }

  ghost predicate Enabled(st: State, step: Step) {
    match step
    case Register(tag, k) =>
      tag != 0 ==> k <= |st.order| && IsSorted(st.nodes + [NewNode(tag)], Insert(st.order, k, |st.nodes|))
    case Unregister(n) => n < |st.nodes| && st.nodes[n].guard.Registered?
    case DropGuard(n) => n < |st.nodes| && st.nodes[n].guard.Dropping?
    case Collect(c, _) => c < |st.cancellers| && st.cancellers[c].Idle?
    case CancelEvent(c) =>
      && IsBusy(st, c) && st.cancellers[c].current < 0 && st.cancellers[c].pending != []
      && st.cancellers[c].pending[0] < |st.nodes|
    case DropReference(c) => IsBusy(st, c) && 0 <= st.cancellers[c].current < |st.nodes|
    case Return(c) => IsBusy(st, c) && st.cancellers[c].current < 0 && st.cancellers[c].pending == []
  }

  function Mark(node: Node, c: nat): Node {
    node.(cancelled := true, refcount := node.refcount + 1, holder := c)
  }

  /** Collected nodes are marked, and the canceller takes a reference to each. */
  function Marked(nodes: seq<Node>, list: seq<nat>, c: nat): (r: seq<Node>)
    ensures |r| == |nodes|
    ensures forall n :: 0 <= n < |nodes| ==> r[n] == (if n in list then Mark(nodes[n], c) else nodes[n])
  {
    seq(|nodes|, n requires 0 <= n < |nodes| => if n in list then Mark(nodes[n], c) else nodes[n])
  }

  ghost function Next(st: State, step: Step): State
    requires Enabled(st, step)
  {
    match step
    case Register(tag, k) =>
      if tag == 0 then st
      else st.(nodes := st.nodes + [NewNode(tag)], order := Insert(st.order, k, |st.nodes|))
    case Unregister(n) =>
      st.(nodes := st.nodes[n := st.nodes[n].(guard := Dropping)], order := Without(st.order, n))
    case DropGuard(n) => st.(nodes := st.nodes[n := Release(st.nodes[n].(guard := Gone))])
    case Collect(c, tag) =>
      if tag == 0 then st
      else
        var list := Matching(st.nodes, st.order, tag);
        st.(nodes := Marked(st.nodes, list, c), cancellers := st.cancellers[c := Busy(list, -1, 0, list)])
    case CancelEvent(c) =>
      var canceller := st.cancellers[c];
      var n := canceller.pending[0];
      st.(nodes := st.nodes[n := st.nodes[n].(events := st.nodes[n].events + 1)],
          cancellers := st.cancellers[c := canceller.(pending := canceller.pending[1..], current := n)])
    case DropReference(c) =>
      var canceller := st.cancellers[c];
      var n := canceller.current;
      st.(nodes := st.nodes[n := Release(st.nodes[n].(holder := -1))],
          cancellers := st.cancellers[c := canceller.(current := -1, count := canceller.count + 1)])
    case Return(c) => st.(cancellers := st.cancellers[c := Idle])
  }

  ghost predicate Initial(st: State) {
    st.nodes == [] && st.order == [] && forall c :: 0 <= c < |st.cancellers| ==> st.cancellers[c].Idle?
  }

  ghost predicate IsRun(st: State, steps: seq<Step>)
    decreases |steps|
  {
    steps != [] ==> Enabled(st, steps[0]) && IsRun(Next(st, steps[0]), steps[1..])
  }

  ghost function After(st: State, steps: seq<Step>): State
    requires IsRun(st, steps)
    decreases |steps|
  {
    if steps == [] then st else After(Next(st, steps[0]), steps[1..])
  }

  // ---- The invariant ----

  /** References are exact, the last one destroys, an event is cancelled once. */
  predicate NodeOk(node: Node) {
    && node.refcount == (if node.guard.Gone? then 0 else 1) + (if node.holder >= 0 then 1 else 0)
    && node.destroyed == (if node.refcount == 0 then 1 else 0)
    && node.events <= 1
    && (!node.cancelled ==> node.events == 0 && node.holder < 0)
    && (node.cancelled && node.holder < 0 ==> node.events == 1)
  }

  ghost predicate OrderOk(nodes: seq<Node>, order: seq<nat>) {
    && NoRepeats(order) && IsSorted(nodes, order)
    && forall n :: 0 <= n < |nodes| ==> (n in order <==> nodes[n].guard.Registered?)
  }

  /** Node n is in the list of canceller c or was just taken from it. */
  predicate Holds(canceller: Canceller, n: nat) {
    canceller.Busy? && (n in canceller.pending || n == canceller.current)
  }

  ghost predicate CancellerOk(nodes: seq<Node>, c: nat, canceller: Canceller) {
    canceller.Busy? ==>
      && NoRepeats(canceller.pending)
      && (forall k :: 0 <= k < |canceller.pending| ==>
            var n := canceller.pending[k]; n < |nodes| && nodes[n].holder == c && nodes[n].events == 0)
      && (canceller.current >= 0 ==>
            canceller.current < |nodes| && nodes[canceller.current].holder == c && nodes[canceller.current].events == 1)
      && canceller.count + |canceller.pending| + (if canceller.current >= 0 then 1 else 0) == |canceller.collected|
      && (forall k :: 0 <= k < |canceller.collected| ==>
            var n := canceller.collected[k];
            n < |nodes| && nodes[n].cancelled && (Holds(canceller, n) || nodes[n].events == 1))
  }

  ghost predicate HolderOk(st: State, n: nat)
    requires n < |st.nodes|
  {
    var c := st.nodes[n].holder;
    c >= 0 ==> c < |st.cancellers| && Holds(st.cancellers[c], n)
  }

  ghost predicate Inv(st: State) {
    && OrderOk(st.nodes, st.order)
    && (forall n :: 0 <= n < |st.nodes| ==> NodeOk(st.nodes[n]))
    && (forall n :: 0 <= n < |st.nodes| ==> HolderOk(st, n))
    && (forall c :: 0 <= c < |st.cancellers| ==> CancellerOk(st.nodes, c, st.cancellers[c]))
  }

  // ---- The tree ----

  lemma {:induction false} WithoutIn(order: seq<nat>, n: nat, x: nat)
    ensures x in Without(order, n) <==> x in order && x != n
    decreases |order|
  {
    if order != [] {
      assert order == [order[0]] + order[1..];
      WithoutIn(order[1..], n, x);
    }
  }

  lemma {:induction false} WithoutDistinct(order: seq<nat>, n: nat)
    requires NoRepeats(order)
    ensures NoRepeats(Without(order, n))
    decreases |order|
  {
    if order != [] {
      var rest := Without(order[1..], n);
      WithoutDistinct(order[1..], n);
      forall i | 0 <= i < |rest| ensures rest[i] != order[0] { WithoutIn(order[1..], n, rest[i]); }
    }
  }

  lemma {:induction false} WithoutSorted(nodes: seq<Node>, order: seq<nat>, n: nat)
    requires IsSorted(nodes, order)
    ensures IsSorted(nodes, Without(order, n))
    decreases |order|
  {
    if order != [] {
      var rest := Without(order[1..], n);
      WithoutSorted(nodes, order[1..], n);
      forall i | 0 <= i < |rest| ensures rest[i] in order[1..] { WithoutIn(order[1..], n, rest[i]); }
      assert forall i :: 0 <= i < |rest| ==> nodes[order[0]].tag <= nodes[rest[i]].tag;
    }
  }

  lemma {:induction false} MatchingIn(nodes: seq<Node>, order: seq<nat>, tag: nat, x: nat)
    ensures x in Matching(nodes, order, tag) <==>
              x in order && x < |nodes| && nodes[x].tag == tag && !nodes[x].cancelled
    decreases |order|
  {
    if order != [] {
      assert order == [order[0]] + order[1..];
      MatchingIn(nodes, order[1..], tag, x);
    }
  }

  lemma {:induction false} MatchingDistinct(nodes: seq<Node>, order: seq<nat>, tag: nat)
    requires NoRepeats(order)
    ensures NoRepeats(Matching(nodes, order, tag))
    decreases |order|
  {
    if order != [] {
      var rest := Matching(nodes, order[1..], tag);
      MatchingDistinct(nodes, order[1..], tag);
      forall i | 0 <= i < |rest| ensures rest[i] != order[0] {
        MatchingIn(nodes, order[1..], tag, rest[i]);
        assert rest[i] in order[1..];
      }
    }
  }

  // ---- Steps ----

  lemma KeepRegister(st: State, tag: nat, k: nat)
    requires Inv(st) && Enabled(st, Register(tag, k))
    ensures Inv(Next(st, Register(tag, k)))
  {
    if tag != 0 {
      var st' := Next(st, Register(tag, k));
      InsertKeeps(st.nodes, st.order, k, NewNode(tag));
      forall n | 0 <= n < |st'.nodes| ensures HolderOk(st', n) {
        if n < |st.nodes| { assert HolderOk(st, n); }
      }
      forall c | 0 <= c < |st'.cancellers| ensures CancellerOk(st'.nodes, c, st'.cancellers[c]) {
        assert CancellerOk(st.nodes, c, st.cancellers[c]);
      }
    }
  }

  lemma InsertKeeps(nodes: seq<Node>, order: seq<nat>, k: nat, node: Node)
    requires OrderOk(nodes, order) && k <= |order| && node.guard.Registered?
    requires IsSorted(nodes + [node], Insert(order, k, |nodes|))
    ensures OrderOk(nodes + [node], Insert(order, k, |nodes|))
  {
    var order' := Insert(order, k, |nodes|);
    assert forall i :: 0 <= i < |order'| ==>
             order'[i] == if i < k then order[i] else if i == k then |nodes| else order[i - 1];
    forall n | 0 <= n < |nodes| ensures n in order' <==> n in order {
      assert order == order[..k] + order[k..];
    }
  }

  /** A step that changes one node, in what neither the tree nor other cancellers look at. */
  lemma OneNode(st: State, st': State, n: nat)
    requires Inv(st) && n < |st.nodes| && |st'.nodes| == |st.nodes| && st'.nodes == st.nodes[n := st'.nodes[n]]
    requires st'.cancellers == st.cancellers && NodeOk(st'.nodes[n]) && OrderOk(st'.nodes, st'.order)
    requires st'.nodes[n] == st.nodes[n].(guard := st'.nodes[n].guard, refcount := st'.nodes[n].refcount,
                                          destroyed := st'.nodes[n].destroyed)
    ensures Inv(st')
  {
    forall m | 0 <= m < |st'.nodes| ensures HolderOk(st', m) { assert HolderOk(st, m); }
    forall c | 0 <= c < |st'.cancellers| ensures CancellerOk(st'.nodes, c, st'.cancellers[c]) {
      assert CancellerOk(st.nodes, c, st.cancellers[c]);
    }
  }

  lemma KeepUnregister(st: State, n: nat)
    requires Inv(st) && Enabled(st, Unregister(n))
    ensures Inv(Next(st, Unregister(n)))
  {
    var st' := Next(st, Unregister(n));
    WithoutDistinct(st.order, n);
    WithoutSorted(st.nodes, st.order, n);
    forall m | 0 <= m < |st'.nodes| ensures m in st'.order <==> st'.nodes[m].guard.Registered? {
      WithoutIn(st.order, n, m);
    }
    OneNode(st, st', n);
  }

  lemma KeepDropGuard(st: State, n: nat)
    requires Inv(st) && Enabled(st, DropGuard(n))
    ensures Inv(Next(st, DropGuard(n)))
  {
    OneNode(st, Next(st, DropGuard(n)), n);
  }

  /** What the lock section of cancel() collects: registered nodes that nobody holds. */
  lemma CollectFacts(st: State, tag: nat, n: nat)
    requires Inv(st) && n in Matching(st.nodes, st.order, tag)
    ensures n < |st.nodes| && !st.nodes[n].cancelled && st.nodes[n].guard.Registered? && st.nodes[n].holder < 0
    ensures st.nodes[n].events == 0
  {
    MatchingIn(st.nodes, st.order, tag, n);
    assert NodeOk(st.nodes[n]);
  }

  ghost predicate Collectable(nodes: seq<Node>, list: seq<nat>) {
    forall k :: 0 <= k < |list| ==>
      && list[k] < |nodes| && nodes[list[k]].holder < 0 && !nodes[list[k]].cancelled
      && nodes[list[k]].events == 0 && nodes[list[k]].guard.Registered?
  }

  lemma CollectKeepsOther(nodes: seq<Node>, list: seq<nat>, c: nat, d: nat, canceller: Canceller)
    requires Collectable(nodes, list) && CancellerOk(nodes, d, canceller)
    ensures CancellerOk(Marked(nodes, list, c), d, canceller)
  {
    var nodes' := Marked(nodes, list, c);
    assert forall n :: 0 <= n < |nodes| && n in list ==> nodes[n].holder < 0 && !nodes[n].cancelled;
    assert forall n :: 0 <= n < |nodes| && (nodes[n].holder >= 0 || nodes[n].cancelled) ==> nodes'[n] == nodes[n];
  }

  lemma CollectOwn(nodes: seq<Node>, list: seq<nat>, c: nat)
    requires Collectable(nodes, list) && NoRepeats(list)
    ensures CancellerOk(Marked(nodes, list, c), c, Busy(list, -1, 0, list))
  {
    forall k | 0 <= k < |list| ensures list[k] in list {}
  }

  lemma CollectKeepsOrder(nodes: seq<Node>, order: seq<nat>, list: seq<nat>, c: nat)
    requires OrderOk(nodes, order)
    ensures OrderOk(Marked(nodes, list, c), order)
  {
  }

  lemma KeepCollect(st: State, c: nat, tag: nat)
    requires Inv(st) && Enabled(st, Collect(c, tag))
    ensures Inv(Next(st, Collect(c, tag)))
  {
    if tag != 0 {
      var st', list := Next(st, Collect(c, tag)), Matching(st.nodes, st.order, tag);
      MatchingDistinct(st.nodes, st.order, tag);
      CollectKeepsOrder(st.nodes, st.order, list, c);
      forall k | 0 <= k < |list| ensures list[k] < |st.nodes| && st.nodes[list[k]].holder < 0
          && !st.nodes[list[k]].cancelled && st.nodes[list[k]].events == 0 && st.nodes[list[k]].guard.Registered?
      {
        CollectFacts(st, tag, list[k]);
      }
      forall n | 0 <= n < |st'.nodes| ensures NodeOk(st'.nodes[n]) && HolderOk(st', n) {
        assert NodeOk(st.nodes[n]) && HolderOk(st, n);
      }
      forall d | 0 <= d < |st'.cancellers| ensures CancellerOk(st'.nodes, d, st'.cancellers[d]) {
        if d != c { CollectKeepsOther(st.nodes, list, c, d, st.cancellers[d]); } else { CollectOwn(st.nodes, list, c); }
      }
    }
  }

  lemma KeepCancelEvent(st: State, c: nat)
    requires Inv(st) && Enabled(st, CancelEvent(c))
    ensures Inv(Next(st, CancelEvent(c)))
  {
    var st' := Next(st, CancelEvent(c));
    assert CancellerOk(st.nodes, c, st.cancellers[c]);
    forall m | 0 <= m < |st'.nodes| ensures HolderOk(st', m) { assert HolderOk(st, m); }
    forall d | 0 <= d < |st'.cancellers| ensures CancellerOk(st'.nodes, d, st'.cancellers[d]) {
      assert CancellerOk(st.nodes, d, st.cancellers[d]);
    }
  }

  lemma KeepDropReference(st: State, c: nat)
    requires Inv(st) && Enabled(st, DropReference(c))
    ensures Inv(Next(st, DropReference(c)))
  {
    var st' := Next(st, DropReference(c));
    assert CancellerOk(st.nodes, c, st.cancellers[c]);
    forall m | 0 <= m < |st'.nodes| ensures HolderOk(st', m) { assert HolderOk(st, m); }
    forall d | 0 <= d < |st'.cancellers| ensures CancellerOk(st'.nodes, d, st'.cancellers[d]) {
      assert CancellerOk(st.nodes, d, st.cancellers[d]);
    }
  }

  lemma KeepReturn(st: State, c: nat)
    requires Inv(st) && Enabled(st, Return(c))
    ensures Inv(Next(st, Return(c)))
  {
    var st' := Next(st, Return(c));
    forall m | 0 <= m < |st'.nodes| ensures HolderOk(st', m) { assert HolderOk(st, m); }
  }

  lemma KeepStep(st: State, step: Step)
    requires Inv(st) && Enabled(st, step)
    ensures Inv(Next(st, step))
  {
    match step
    case Register(tag, k) => KeepRegister(st, tag, k);
    case Unregister(n) => KeepUnregister(st, n);
    case DropGuard(n) => KeepDropGuard(st, n);
    case Collect(c, tag) => KeepCollect(st, c, tag);
    case CancelEvent(c) => KeepCancelEvent(st, c);
    case DropReference(c) => KeepDropReference(st, c);
    case Return(c) => KeepReturn(st, c);
  }

  lemma {:induction false} RunKeepsInv(st: State, steps: seq<Step>)
    requires Inv(st) && IsRun(st, steps)
    ensures Inv(After(st, steps))
    decreases |steps|
  {
    if steps != [] {
      KeepStep(st, steps[0]);
      RunKeepsInv(Next(st, steps[0]), steps[1..]);
    }
  }

  // ---- What every run guarantees ----

  ghost predicate Reachable(st: State) {
    exists st0: State, steps: seq<Step> :: Initial(st0) && IsRun(st0, steps) && After(st0, steps) == st
  }

  lemma ReachableInv(st: State)
    requires Reachable(st)
    ensures Inv(st)
  {
    var st0: State, steps: seq<Step> :| Initial(st0) && IsRun(st0, steps) && After(st0, steps) == st;
    RunKeepsInv(st0, steps);
  }

  /**
   A node is destroyed once, exactly when neither a guard nor a canceller refers to it; its
   event fires at most once.
   */
  lemma DestroyedOnce(st: State, n: nat)
    requires Reachable(st) && n < |st.nodes|
    ensures var node := st.nodes[n];
            && node.destroyed <= 1 && node.events <= 1
            && (node.destroyed == 1 <==>
                  node.guard.Gone? && forall c :: 0 <= c < |st.cancellers| ==> !Holds(st.cancellers[c], n))
  {
    ReachableInv(st);
    assert NodeOk(st.nodes[n]) && HolderOk(st, n);
    forall c | 0 <= c < |st.cancellers| && Holds(st.cancellers[c], n) ensures st.nodes[n].holder == c {
      assert CancellerOk(st.nodes, c, st.cancellers[c]);
    }
  }

  /** The nodes that a step reads or writes. */
  ghost predicate Touches(st: State, step: Step, n: nat)
    requires Enabled(st, step)
  {
    match step
    case Register(_, _) => n in st.order
    case Unregister(m) => n == m || n in st.order
    case DropGuard(m) => n == m
    case Collect(_, _) => n in st.order
    case CancelEvent(c) => n == st.cancellers[c].pending[0]
    case DropReference(c) => n == st.cancellers[c].current
    case Return(_) => false
  }

  /** No step touches a node that was destroyed. */
  lemma NoUseAfterDestruction(st: State, step: Step, n: nat)
    requires Reachable(st) && Enabled(st, step) && Touches(st, step, n)
    ensures n < |st.nodes| && st.nodes[n].destroyed == 0
  {
    ReachableInv(st);
    if step.CancelEvent? || step.DropReference? { assert CancellerOk(st.nodes, step.c, st.cancellers[step.c]); }
    assert NodeOk(st.nodes[n]);
  }

  /**
   cancel() collects every registered node with the tag that was not cancelled before,
   duplicates included, each once.
   */
  lemma CollectsExactly(st: State, c: nat, tag: nat, n: nat)
    requires Reachable(st) && Enabled(st, Collect(c, tag)) && tag != 0 && n < |st.nodes|
    ensures IsBusy(Next(st, Collect(c, tag)), c)
    ensures var list := Next(st, Collect(c, tag)).cancellers[c].collected;
            && NoRepeats(list)
            && (n in list <==> st.nodes[n].guard.Registered? && st.nodes[n].tag == tag && !st.nodes[n].cancelled)
  {
    ReachableInv(st);
    MatchingIn(st.nodes, st.order, tag, n);
    MatchingDistinct(st.nodes, st.order, tag);
  }

  /** When cancel() returns it has cancelled the event of everything it collected, and its result is their number. */
  lemma CancelsAllItCollected(st: State, c: nat, n: nat)
    requires Reachable(st) && Enabled(st, Return(c))
    ensures st.cancellers[c].count == |st.cancellers[c].collected|
    ensures n in st.cancellers[c].collected ==> n < |st.nodes| && st.nodes[n].events == 1
  {
    ReachableInv(st);
    assert CancellerOk(st.nodes, c, st.cancellers[c]);
  }

  // ---- What the operations achieve ----

  /** A registered node carries the tag that was asked for, and the guard keeps it; tag 0 registers nothing. */
  lemma RegisterRegisters(st: State, tag: nat, k: nat)
    requires Enabled(st, Register(tag, k))
    ensures var st' := Next(st, Register(tag, k));
            if tag == 0 then st' == st
            else
              && |st'.nodes| == |st.nodes| + 1 && st'.nodes[..|st.nodes|] == st.nodes
              && |st.nodes| in st'.order && st'.cancellers == st.cancellers
              && var node := st'.nodes[|st.nodes|];
                 node.tag == tag && node.guard.Registered? && !node.cancelled && node.events == 0 && node.destroyed == 0
  {
    if tag != 0 { assert Insert(st.order, k, |st.nodes|)[k] == |st.nodes|; }
  }

  /** A guard that unregisters and gives up its reference is gone; then no cancel() finds the node. */
  lemma GuardGoes(st: State, n: nat)
    requires Reachable(st) && Enabled(st, Unregister(n))
    ensures Enabled(Next(st, Unregister(n)), DropGuard(n))
    ensures var st' := Next(Next(st, Unregister(n)), DropGuard(n));
            && |st'.nodes| == |st.nodes| && st'.nodes[n].guard.Gone? && n !in st'.order
            && (forall m :: 0 <= m < |st.nodes| && m != n ==> st'.nodes[m] == st.nodes[m])
            && (st'.nodes[n].destroyed == 1 <==> st.nodes[n].holder < 0)
  {
    ReachableInv(st);
    assert NodeOk(st.nodes[n]);
    WithoutIn(st.order, n, n);
  }

  /** A step of the call of cancel() that canceller c runs. */
  predicate IsOwn(step: Step, c: nat) {
    match step
    case CancelEvent(d) => d == c
    case DropReference(d) => d == c
    case Return(d) => d == c
    case _ => false
  }

  /** How many steps the call still takes. */
  function StepsLeft(canceller: Canceller): nat {
    if canceller.Idle? then 0 else 2 * |canceller.pending| + 1 + if canceller.current >= 0 then 1 else 0
  }

  function OwnStep(st: State, c: nat): Step
    requires IsBusy(st, c)
  {
    if st.cancellers[c].current >= 0 then DropReference(c)
    else if st.cancellers[c].pending != [] then CancelEvent(c)
    else Return(c)
  }

  /** What one step of the call does to the nodes: only those that the canceller holds change. */
  lemma OwnStepWorks(st: State, c: nat)
    requires Inv(st) && IsBusy(st, c)
    ensures IsOwn(OwnStep(st, c), c) && Enabled(st, OwnStep(st, c))
    ensures var st' := Next(st, OwnStep(st, c));
            && |st'.nodes| == |st.nodes| && |st'.cancellers| == |st.cancellers|
            && StepsLeft(st'.cancellers[c]) == StepsLeft(st.cancellers[c]) - 1
            && (st'.cancellers[c].Busy? ==> st'.cancellers[c].collected == st.cancellers[c].collected)
            && (st'.cancellers[c].Idle? ==> st'.nodes == st.nodes)
            && (forall n :: 0 <= n < |st.nodes| && st.nodes[n].holder != c ==> st'.nodes[n] == st.nodes[n])
            && (forall n :: 0 <= n < |st.nodes| ==>
                  st'.nodes[n].holder in {st.nodes[n].holder, -1} && st.nodes[n].events <= st'.nodes[n].events)
  {
    assert CancellerOk(st.nodes, c, st.cancellers[c]);
  }

  /** A call of cancel() that is under way returns, and has cancelled every event that it collected. */
  lemma {:induction false} CancelReturns(st: State, c: nat) returns (steps: seq<Step>)
    requires Inv(st) && IsBusy(st, c)
    ensures IsRun(st, steps) && |steps| == StepsLeft(st.cancellers[c])
    ensures forall i :: 0 <= i < |steps| ==> IsOwn(steps[i], c)
    ensures var st' := After(st, steps);
            && |st'.nodes| == |st.nodes| && |st'.cancellers| == |st.cancellers| && st'.cancellers[c].Idle?
            && (forall n :: n in st.cancellers[c].collected ==> n < |st.nodes| && st'.nodes[n].events == 1)
            && (forall n :: 0 <= n < |st.nodes| && st.nodes[n].holder != c ==> st'.nodes[n] == st.nodes[n])
    decreases StepsLeft(st.cancellers[c])
  {
    OwnStepWorks(st, c);
    var step := OwnStep(st, c);
    var st1 := Next(st, step);
    KeepStep(st, step);
    var rest := [];
    if st1.cancellers[c].Busy? {
      rest := CancelReturns(st1, c);
    } else {
      assert CancellerOk(st.nodes, c, st.cancellers[c]);
    }
    steps := [step] + rest;
    assert steps[1..] == rest;
  }

  /**
   cancel(): it returns, and then the events of exactly those nodes have been cancelled that were
   registered with the tag and not cancelled before; all other nodes are as they were.
   */
  lemma CancelIsExact(st: State, c: nat, tag: nat) returns (steps: seq<Step>)
    requires Reachable(st) && Enabled(st, Collect(c, tag)) && tag != 0
    ensures IsRun(st, [Collect(c, tag)] + steps) && (forall i :: 0 <= i < |steps| ==> IsOwn(steps[i], c))
    ensures var st' := After(st, [Collect(c, tag)] + steps);
            && |st'.nodes| == |st.nodes| && |st'.cancellers| == |st.cancellers| && st'.cancellers[c].Idle?
            && forall n :: 0 <= n < |st.nodes| ==>
                 if st.nodes[n].guard.Registered? && st.nodes[n].tag == tag && !st.nodes[n].cancelled
                 then st.nodes[n].events == 0 && st'.nodes[n].events == 1 else st'.nodes[n] == st.nodes[n]
  {
    ReachableInv(st);
    var st1 := Next(st, Collect(c, tag));
    KeepStep(st, Collect(c, tag));
    steps := CancelReturns(st1, c);
    assert ([Collect(c, tag)] + steps)[1..] == steps;
    forall n | 0 <= n < |st.nodes|
      ensures n in st1.cancellers[c].collected <==>
              st.nodes[n].guard.Registered? && st.nodes[n].tag == tag && !st.nodes[n].cancelled
      ensures n !in st1.cancellers[c].collected ==> st1.nodes[n] == st.nodes[n] && st.nodes[n].holder != c
      ensures !st.nodes[n].cancelled ==> st.nodes[n].events == 0
    {
      CollectsExactly(st, c, tag, n);
      assert NodeOk(st.nodes[n]) && HolderOk(st, n);
    }
  }
}

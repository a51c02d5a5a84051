/** The dependency graph of initgraph::Engine and what its bookkeeping means. */
module InitGraph {
  import opened Sequences

  /**
   The edges of node v: inList[v] lists the nodes it depends on, outList[v] those that
   depend on it, both with multiplicity.
   */
  ghost predicate GraphOk(inList: seq<seq<nat>>, outList: seq<seq<nat>>) {
    && |inList| == |outList|
    && (forall v, k :: 0 <= v < |inList| && 0 <= k < |inList[v]| ==> inList[v][k] < |inList|)
    && (forall v, k :: 0 <= v < |outList| && 0 <= k < |outList[v]| ==> outList[v][k] < |inList|)
    && (forall s, t :: 0 <= s < |inList| && 0 <= t < |inList| ==>
          multiset(outList[s])[t] == multiset(inList[t])[s])
  }

  lemma OneMore(list: seq<nat>, x: nat, y: nat)
    ensures multiset(list + [x])[y] == multiset(list)[y] + if x == y then 1 else 0
  {
  }

  /** realizeEdge() enters an edge on both sides. */
  lemma AddEdge(inList: seq<seq<nat>>, outList: seq<seq<nat>>, source: nat, target: nat)
    requires GraphOk(inList, outList) && source < |inList| && target < |inList|
    ensures GraphOk(inList[target := inList[target] + [source]], outList[source := outList[source] + [target]])
  {
    var inList', outList' := inList[target := inList[target] + [source]], outList[source := outList[source] + [target]];
    forall s, t | 0 <= s < |inList| && 0 <= t < |inList| ensures multiset(outList'[s])[t] == multiset(inList'[t])[s] {
      assert multiset(outList[s])[t] == multiset(inList[t])[s];
      OneMore(outList[s], target, t);
      OneMore(inList[t], source, s);
    }
  }

  // ---- Counting ----

  /** How many of the sources are not done. */
  function Undone(sources: seq<nat>, done: seq<bool>): (n: nat)
    ensures n == 0 ==> forall k :: 0 <= k < |sources| ==> sources[k] < |done| && done[sources[k]]
    ensures n > 0 ==> exists k :: 0 <= k < |sources| && !(sources[k] < |done| && done[sources[k]])
  {
    if sources == [] then 0
    else
      var front, last := sources[..|sources| - 1], sources[|sources| - 1];
      var n := Undone(front, done);
      assert n > 0 ==> exists k :: 0 <= k < |front| && !(front[k] < |done| && done[front[k]]) && front[k] == sources[k];
      assert forall k :: 0 <= k < |front| ==> front[k] == sources[k];
      n + if last < |done| && done[last] then 0 else 1
  }

  lemma {:induction false} UndoneAfter(sources: seq<nat>, done: seq<bool>, c: nat)
    requires c < |done| && !done[c]
    ensures Undone(sources, done) == Undone(sources, done[c := true]) + multiset(sources)[c]
    decreases |sources|
  {
    if sources != [] {
      var front, last := sources[..|sources| - 1], sources[|sources| - 1];
      assert sources == front + [last];
      UndoneAfter(front, done, c);
    }
  }

  lemma UndoneAppends(sources: seq<nat>, done: seq<bool>, s: nat)
    ensures Undone(sources + [s], done) == Undone(sources, done) + if s < |done| && done[s] then 0 else 1
  {
    assert (sources + [s])[..|sources|] == sources;
  }

  lemma {:induction false} UndoneExtends(sources: seq<nat>, done: seq<bool>)
    requires forall k :: 0 <= k < |sources| ==> sources[k] < |done|
    ensures Undone(sources, done + [false]) == Undone(sources, done)
    decreases |sources|
  {
    if sources != [] { UndoneExtends(sources[..|sources| - 1], done); }
  }

  /** How many flags are not set. */
  function Remaining(flags: seq<bool>): nat {
    if flags == [] then 0 else Remaining(flags[1..]) + if flags[0] then 0 else 1
  }

  lemma {:induction false} RemainingAfter(flags: seq<bool>, i: nat)
    requires i < |flags| && !flags[i]
    ensures Remaining(flags[i := true]) == Remaining(flags) - 1
    decreases i
  {
    if i > 0 {
      RemainingAfter(flags[1..], i - 1);
      assert flags[i := true][1..] == flags[1..][i - 1 := true];
    } else {
      assert flags[0 := true][1..] == flags[1..];
    }
  }

  // ---- Dependencies ----

  /** Every node of the chain depends on the next one. */
  ghost predicate IsChain(inList: seq<seq<nat>>, chain: seq<nat>) {
    && chain != [] && (forall k :: 0 <= k < |chain| ==> chain[k] < |inList|)
    && (forall k :: 0 <= k < |chain| - 1 ==> chain[k + 1] in inList[chain[k]])
  }

  /** Node v is the goal or one of its direct or indirect dependencies. */
  ghost predicate Needs(inList: seq<seq<nat>>, goal: nat, v: nat) {
    exists chain :: IsChain(inList, chain) && chain[0] == goal && chain[|chain| - 1] == v
  }

  lemma NeedsItself(inList: seq<seq<nat>>, goal: nat)
    requires goal < |inList|
    ensures Needs(inList, goal, goal)
  {
    assert IsChain(inList, [goal]) && [goal][0] == goal;
  }

  lemma NeedsSource(inList: seq<seq<nat>>, goal: nat, v: nat, s: nat)
    requires Needs(inList, goal, v) && v < |inList| && s in inList[v] && s < |inList|
    ensures Needs(inList, goal, s)
  {
    var chain :| IsChain(inList, chain) && chain[0] == goal && chain[|chain| - 1] == v;
    var longer := chain + [s];
    assert IsChain(inList, longer) && longer[0] == goal && longer[|longer| - 1] == s;
  }

  /** The wanted nodes include everything they depend on. */
  ghost predicate Closed(inList: seq<seq<nat>>, wanted: seq<bool>) {
    && |wanted| == |inList|
    && forall v: nat, s: nat {:trigger s in inList[v]} ::
         v < |inList| && wanted[v] && s in inList[v] ==> s < |wanted| && wanted[s]
  }

  lemma {:induction false} ClosedChain(inList: seq<seq<nat>>, wanted: seq<bool>, chain: seq<nat>, k: nat)
    requires Closed(inList, wanted) && IsChain(inList, chain) && wanted[chain[0]] && k < |chain|
    ensures wanted[chain[k]]
    decreases k
  {
    if k > 0 {
      ClosedChain(inList, wanted, chain, k - 1);
      assert chain[k - 1 + 1] in inList[chain[k - 1]];
    }
  }

  // ---- Runs ----

  /** Each node was activated at most once and after everything it depends on. */
  ghost predicate ActivatedInOrder(inList: seq<seq<nat>>, done: seq<bool>, activated: seq<nat>) {
    && |done| == |inList| && NoRepeats(activated)
    && (forall k :: 0 <= k < |activated| ==> activated[k] < |inList|)
    && (forall v :: 0 <= v < |done| ==> (done[v] <==> v in activated))
    && (forall k, s :: 0 <= k < |activated| && s in inList[activated[k]] ==> s in activated[..k])
  }

  /** nUnsatisfied counts the in-edges whose source is not done. */
  ghost predicate Counted(inList: seq<seq<nat>>, done: seq<bool>, nUnsatisfied: seq<nat>) {
    && |done| == |nUnsatisfied| == |inList|
    && forall v :: 0 <= v < |inList| ==> nUnsatisfied[v] == Undone(inList[v], done)
  }

  /** The pending nodes are exactly the wanted ones that can be activated, each once. */
  ghost predicate PendingOk(wanted: seq<bool>, done: seq<bool>, nUnsatisfied: seq<nat>, pending: seq<nat>) {
    && |wanted| == |done| == |nUnsatisfied| && NoRepeats(pending)
    && (forall k :: 0 <= k < |pending| ==> pending[k] < |done|)
    && (forall v :: 0 <= v < |done| ==> (v in pending <==> wanted[v] && !done[v] && nUnsatisfied[v] == 0))
  }

  /** While the out-edges of a node are walked: `rest` are the targets still to be decremented. */
  ghost predicate Counting(inList: seq<seq<nat>>, done: seq<bool>, nUnsatisfied: seq<nat>, rest: seq<nat>) {
    && |done| == |nUnsatisfied| == |inList|
    && forall v :: 0 <= v < |inList| ==> nUnsatisfied[v] == Undone(inList[v], done) + multiset(rest)[v]
  }

  lemma StartCounting(inList: seq<seq<nat>>, outList: seq<seq<nat>>, done: seq<bool>, nUnsatisfied: seq<nat>, c: nat)
    requires GraphOk(inList, outList) && Counted(inList, done, nUnsatisfied) && c < |done| && !done[c]
    ensures Counting(inList, done[c := true], nUnsatisfied, outList[c])
  {
    forall v | 0 <= v < |inList|
      ensures nUnsatisfied[v] == Undone(inList[v], done[c := true]) + multiset(outList[c])[v]
    {
      UndoneAfter(inList[v], done, c);
    }
  }

  /** The edge to the first of the remaining targets is accounted for. */
  lemma CountOne(inList: seq<seq<nat>>, done: seq<bool>, nUnsatisfied: seq<nat>, rest: seq<nat>)
    requires Counting(inList, done, nUnsatisfied, rest) && rest != [] && rest[0] < |inList|
    ensures nUnsatisfied[rest[0]] > 0
    ensures Counting(inList, done, nUnsatisfied[rest[0] := nUnsatisfied[rest[0]] - 1], rest[1..])
  {
    assert rest == [rest[0]] + rest[1..];
    assert multiset(rest) == multiset{rest[0]} + multiset(rest[1..]);
  }

  /** A node is activated once all its sources are done. */
  lemma ActivateOne(inList: seq<seq<nat>>, outList: seq<seq<nat>>, done: seq<bool>, activated: seq<nat>, c: nat)
    requires GraphOk(inList, outList) && ActivatedInOrder(inList, done, activated)
    requires c < |done| && !done[c] && Undone(inList[c], done) == 0
    ensures ActivatedInOrder(inList, done[c := true], activated + [c])
  {
    var activated' := activated + [c];
    forall k, s | 0 <= k < |activated'| && s in inList[activated'[k]] ensures s in activated'[..k] {
      if k < |activated| {
        assert s in activated[..k];
        assert activated'[..k] == activated[..k];
      } else {
        assert activated'[..k] == activated;
      }
    }
  }

  /** When nothing is pending, whoever waits has an unfinished dependency. */
  lemma NothingPending(inList: seq<seq<nat>>, wanted: seq<bool>, done: seq<bool>, nUnsatisfied: seq<nat>)
    requires Counted(inList, done, nUnsatisfied) && Closed(inList, wanted)
    requires PendingOk(wanted, done, nUnsatisfied, [])
    ensures Blocked(inList, wanted, done)
  {
    forall v: nat | Stuck(wanted, done, v) ensures IsBlocked(inList, wanted, done, v) {
      assert nUnsatisfied[v] > 0;
      var k :| 0 <= k < |inList[v]| && !(inList[v][k] < |done| && done[inList[v][k]]);
      var s := inList[v][k];
      assert wanted[v] && s in inList[v];
      assert s < |wanted| && wanted[s];
      assert Stuck(wanted, done, s);
    }
  }

  // ---- Cycles ----

  /** A chain of wanted nodes that leads back to its start. */
  ghost predicate IsCycle(inList: seq<seq<nat>>, wanted: seq<bool>, chain: seq<nat>) {
    && |wanted| == |inList| && IsChain(inList, chain) && |chain| >= 2 && chain[0] == chain[|chain| - 1]
    && forall k :: 0 <= k < |chain| ==> wanted[chain[k]]
  }

  ghost predicate Stuck(wanted: seq<bool>, done: seq<bool>, v: nat) {
    v < |wanted| == |done| && wanted[v] && !done[v]
  }

  /** After a run every unfinished wanted node has an unfinished wanted dependency. */
  ghost predicate Blocked(inList: seq<seq<nat>>, wanted: seq<bool>, done: seq<bool>) {
    forall v: nat {:trigger IsBlocked(inList, wanted, done, v)} ::
      Stuck(wanted, done, v) ==> IsBlocked(inList, wanted, done, v)
  }

  ghost predicate IsBlocked(inList: seq<seq<nat>>, wanted: seq<bool>, done: seq<bool>, v: nat) {
    v < |inList| && exists s :: s in inList[v] && Stuck(wanted, done, s)
  }

  // ---- Growing the graph between runs ----

  lemma NodeKeepsBlocked(inList: seq<seq<nat>>, wanted: seq<bool>, done: seq<bool>)
    requires Blocked(inList, wanted, done) && |inList| == |wanted| == |done|
    ensures Blocked(inList + [[]], wanted + [false], done + [false])
  {
    forall v: nat | Stuck(wanted + [false], done + [false], v)
      ensures IsBlocked(inList + [[]], wanted + [false], done + [false], v)
    {
      assert IsBlocked(inList, wanted, done, v);
      var s :| s in inList[v] && Stuck(wanted, done, s);
      assert s in (inList + [[]])[v] && Stuck(wanted + [false], done + [false], s);
    }
  }

  lemma EdgeKeeps(inList: seq<seq<nat>>, wanted: seq<bool>, done: seq<bool>, activated: seq<nat>,
                  source: nat, target: nat)
    requires ActivatedInOrder(inList, done, activated) && Closed(inList, wanted) && Blocked(inList, wanted, done)
    requires source < |inList| && target < |inList| && !done[source] && !done[target]
    requires wanted[target] ==> wanted[source]
    ensures var inList' := inList[target := inList[target] + [source]];
            ActivatedInOrder(inList', done, activated) && Closed(inList', wanted) && Blocked(inList', wanted, done)
  {
    var inList' := inList[target := inList[target] + [source]];
    forall v: nat | Stuck(wanted, done, v) ensures IsBlocked(inList', wanted, done, v) {
      assert IsBlocked(inList, wanted, done, v);
      var s :| s in inList[v] && Stuck(wanted, done, s);
      assert s in inList'[v];
    }
    forall k, s | 0 <= k < |activated| && s in inList'[activated[k]] ensures s in activated[..k] {
      assert done[activated[k]] && activated[k] != target;
    }
  }

  lemma EdgeBreaks(inList: seq<seq<nat>>, wanted: seq<bool>, done: seq<bool>, activated: seq<nat>,
                   source: nat, target: nat)
    requires ActivatedInOrder(inList, done, activated) && |wanted| == |inList|
    requires source < |inList| && target < |inList| && !done[source]
    requires done[target] || (wanted[target] && !wanted[source])
    ensures var inList' := inList[target := inList[target] + [source]];
            !ActivatedInOrder(inList', done, activated) || !Closed(inList', wanted)
  {
    var inList' := inList[target := inList[target] + [source]];
    assert inList'[target][|inList[target]|] == source && source in inList'[target];
    if done[target] {
      var k :| 0 <= k < |activated| && activated[k] == target;
      assert source !in activated[..k];
    }
  }

  lemma {:induction false} WalkBack(inList: seq<seq<nat>>, wanted: seq<bool>, done: seq<bool>, v: nat, length: nat)
    returns (chain: seq<nat>)
    requires Blocked(inList, wanted, done) && Stuck(wanted, done, v) && length > 0
    ensures IsChain(inList, chain) && |chain| == length && chain[0] == v
    ensures forall k :: 0 <= k < |chain| ==> Stuck(wanted, done, chain[k])
    decreases length
  {
    if length == 1 {
      chain := [v];
    } else {
      assert IsBlocked(inList, wanted, done, v);
      var s :| s in inList[v] && Stuck(wanted, done, s);
      var rest := WalkBack(inList, wanted, done, s, length - 1);
      chain := [v] + rest;
      assert forall k :: 0 < k < |chain| ==> chain[k] == rest[k - 1];
    }
  }

  /** A stuck node lies behind a cycle. */
  lemma StuckMeansCycle(inList: seq<seq<nat>>, wanted: seq<bool>, done: seq<bool>, v: nat) returns (cycle: seq<nat>)
    requires Blocked(inList, wanted, done) && Stuck(wanted, done, v) && |wanted| == |inList|
    ensures IsCycle(inList, wanted, cycle)
  {
    var chain := WalkBack(inList, wanted, done, v, |inList| + 1);
    if NoRepeats(chain) { DistinctBelow(chain, |inList|); }
    var i, j :| 0 <= i < j < |chain| && chain[i] == chain[j];
    cycle := chain[i..j + 1];
    assert forall k :: 0 <= k < |cycle| ==> cycle[k] == chain[i + k];
  }

  /** No node of a cycle is ever activated. */
  lemma {:induction false} CycleIsNotDone(inList: seq<seq<nat>>, wanted: seq<bool>, done: seq<bool>,
                                          activated: seq<nat>, cycle: seq<nat>, k: nat)
    requires ActivatedInOrder(inList, done, activated) && IsCycle(inList, wanted, cycle)
    requires k < |activated|
    ensures activated[k] !in cycle
    decreases k
  {
    if activated[k] in cycle {
      var i := DependsInCycle(inList, wanted, cycle, activated[k]);
      assert cycle[i] in activated[..k];
      var m :| 0 <= m < k && activated[m] == cycle[i];
      CycleIsNotDone(inList, wanted, done, activated, cycle, m);
    }
  }

  /** Every node of a cycle depends on a node of the cycle. */
  lemma DependsInCycle(inList: seq<seq<nat>>, wanted: seq<bool>, cycle: seq<nat>, v: nat) returns (i: nat)
    requires IsCycle(inList, wanted, cycle) && v in cycle
    ensures i < |cycle| && v < |inList| && cycle[i] in inList[v]
  {
    var k :| 0 <= k < |cycle| && cycle[k] == v;
    i := if k + 1 < |cycle| then k + 1 else 1;
    if k + 1 == |cycle| { assert cycle[0 + 1] in inList[cycle[0]]; }
  }

  /** onUnreached() fires exactly if the wanted nodes contain a cycle. */
  lemma UnreachedIffCycle(inList: seq<seq<nat>>, wanted: seq<bool>, done: seq<bool>, activated: seq<nat>)
    requires ActivatedInOrder(inList, done, activated) && Blocked(inList, wanted, done) && |wanted| == |inList|
    ensures (exists v: nat :: Stuck(wanted, done, v)) <==> (exists cycle :: IsCycle(inList, wanted, cycle))
  {
    if v: nat :| Stuck(wanted, done, v) {
      var cycle := StuckMeansCycle(inList, wanted, done, v);
    }
    if cycle :| IsCycle(inList, wanted, cycle) {
      if done[cycle[0]] {
        var k :| 0 <= k < |activated| && activated[k] == cycle[0];
        CycleIsNotDone(inList, wanted, done, activated, cycle, k);
      }
      assert Stuck(wanted, done, cycle[0]);
    }
  }
}

/** Engine of kernel/common/initgraph.hpp: goal-directed activation over any series of runs. */
module InitGraphEngine {
  import opened Common
  import opened Sequences
  import opened InitGraph

  class Engine {
    var inList: seq<seq<nat>>
    var outList: seq<seq<nat>>
    var done: seq<bool>
    var wanted: seq<bool>
    var nUnsatisfied: seq<nat>
    var pending: seq<nat>
    /** The nodes in the order of their activation, over all runs. */
    ghost var activated: seq<nat>

    /** What holds at every point of run() outside the loops over edges. */
    ghost predicate Consistent()
      reads this
    {
      && GraphOk(inList, outList) && Counted(inList, done, nUnsatisfied)
      && ActivatedInOrder(inList, done, activated) && |wanted| == |inList|
      && (forall v :: 0 <= v < |done| && done[v] ==> wanted[v])
    }

    /** What holds between two calls of run(). */
    ghost predicate Valid()
      reads this
    {
      Consistent() && Closed(inList, wanted) && pending == [] && Blocked(inList, wanted, done)
    }

    constructor ()
      ensures Valid() && inList == []
    {
      inList, outList, done, wanted, nUnsatisfied, pending, activated := [], [], [], [], [], [], [];
    }

    // ---- Building the graph ----

    /** realizeNode(), also between two runs: the new node is neither wanted nor done. */
    method RealizeNode() returns (node: nat)
      requires Valid()
      modifies `inList, `outList, `done, `wanted, `nUnsatisfied
      ensures Valid() && node == |old(inList)|
      ensures inList == old(inList) + [[]] && outList == old(outList) + [[]]
      ensures done == old(done) + [false] && wanted == old(wanted) + [false]
    {
      node := |inList|;
      inList, outList := inList + [[]], outList + [[]];
      done, wanted, nUnsatisfied := done + [false], wanted + [false], nUnsatisfied + [0];
      forall v | 0 <= v < node ensures nUnsatisfied[v] == Undone(inList[v], done) {
        UndoneExtends(inList[v], old(done));
      }
      NodeKeepsBlocked(old(inList), old(wanted), old(done));
    }

    /**
     realizeEdge(): the target now also waits for the source. Between two runs that is right
     exactly if neither has run and the source is wanted if the target is.
     */
    method RealizeEdge(source: nat, target: nat)
      requires Valid() && source < |inList| && target < |inList|
      modifies `inList, `outList, `nUnsatisfied
      ensures inList == old(inList)[target := old(inList[target]) + [source]]
      ensures outList == old(outList)[source := old(outList[source]) + [target]]
      ensures nUnsatisfied == old(nUnsatisfied)[target := old(nUnsatisfied[target]) + 1]
      ensures Valid() <==> !done[source] && !done[target] && (wanted[target] ==> wanted[source])
    {
      AddEdge(inList, outList, source, target);
      UndoneAppends(inList[target], done, source);
      outList := outList[source := outList[source] + [target]];
      inList := inList[target := inList[target] + [source]];
      nUnsatisfied := nUnsatisfied[target := nUnsatisfied[target] + 1];
      if !done[source] && !done[target] && (wanted[target] ==> wanted[source]) {
        EdgeKeeps(old(inList), wanted, done, activated, source, target);
      } else if !done[source] {
        EdgeBreaks(old(inList), wanted, done, activated, source, target);
      } else {
        assert nUnsatisfied[target] != Undone(inList[target], done);
      }
    }

    // ---- run() ----

    /** The loop over the in-edges of a node that takes its sources into the queue. */
    method MarkSources(node: nat, q: seq<nat>, goal: nat) returns (q': seq<nat>)
      requires GraphOk(inList, outList) && |wanted| == |inList| && node < |inList| && Needs(inList, goal, node)
      modifies `wanted
      ensures |wanted| == |inList| && q <= q'
      ensures forall v: nat :: v < |wanted| && old(wanted)[v] ==> wanted[v]
      ensures forall v: nat :: v < |wanted| && wanted[v] && !old(wanted)[v] ==> v in q'
      ensures forall k :: |q| <= k < |q'| ==> q'[k] < |wanted| && wanted[q'[k]] && Needs(inList, goal, q'[k])
      ensures forall s :: s in inList[node] ==> wanted[s]
      ensures (wanted == old(wanted) && q' == q) || Remaining(wanted) < Remaining(old(wanted))
    {
      q' := q;
      var k := 0;
      while k < |inList[node]|
        invariant k <= |inList[node]| && |wanted| == |inList| && q <= q'
        invariant forall v: nat :: v < |wanted| && old(wanted)[v] ==> wanted[v]
        invariant forall v: nat :: v < |wanted| && wanted[v] && !old(wanted)[v] ==> v in q'
        invariant forall i :: |q| <= i < |q'| ==> q'[i] < |wanted| && wanted[q'[i]] && Needs(inList, goal, q'[i])
        invariant forall i :: 0 <= i < k ==> wanted[inList[node][i]]
        invariant (wanted == old(wanted) && q' == q) || Remaining(wanted) < Remaining(old(wanted))
      {
        var source := inList[node][k];
        if !wanted[source] {
          NeedsSource(inList, goal, node, source);
          RemainingAfter(wanted, source);
          q' := q' + [source];
          wanted := wanted[source := true];
        }
        k := k + 1;
      }
    }

    /** The goal and everything it depends on become wanted, and nothing else. */
    method MarkGoal(goal: nat)
      requires GraphOk(inList, outList) && Closed(inList, wanted) && goal < |inList|
      modifies `wanted
      ensures Closed(inList, wanted)
      ensures forall v: nat :: v < |wanted| ==> (wanted[v] <==> old(wanted)[v] || Needs(inList, goal, v))
    {
      var q: seq<nat> := [];
      NeedsItself(inList, goal);
      if !wanted[goal] {
        q, wanted := [goal], wanted[goal := true];
      }
      while q != []
        invariant |wanted| == |inList| && wanted[goal]
        invariant forall k :: 0 <= k < |q| ==> q[k] < |wanted| && wanted[q[k]] && Needs(inList, goal, q[k])
        invariant forall v: nat :: v < |wanted| && old(wanted)[v] ==> wanted[v]
        invariant forall v: nat :: v < |wanted| && wanted[v] ==> old(wanted)[v] || Needs(inList, goal, v)
        invariant forall v: nat, s :: v < |wanted| && wanted[v] && v !in q && s in inList[v] ==> wanted[s]
        decreases Remaining(wanted), |q|
      {
        q := MarkSources(q[0], q[1..], goal);
      }
      forall v: nat | v < |wanted| && Needs(inList, goal, v) ensures wanted[v] {
        var chain :| IsChain(inList, chain) && chain[0] == goal && chain[|chain| - 1] == v;
        ClosedChain(inList, wanted, chain, |chain| - 1);
      }
    }

    /** The loop that finds the nodes that can run right away. */
    method CollectPending()
      requires Consistent() && pending == []
      modifies `pending
      ensures PendingOk(wanted, done, nUnsatisfied, pending)
    {
      var v := 0;
      while v < |inList|
        invariant v <= |inList| && NoRepeats(pending) && forall k :: 0 <= k < |pending| ==> pending[k] < v
        invariant forall u :: 0 <= u < v ==> (u in pending <==> wanted[u] && !done[u] && nUnsatisfied[u] == 0)
      {
        if wanted[v] && !done[v] && nUnsatisfied[v] == 0 { pending := pending + [v]; }
        v := v + 1;
      }
    }

    /** The loop over the out-edges of a node that has become done. */
    method Satisfy(current: nat)
      requires GraphOk(inList, outList) && current < |outList|
      requires Counting(inList, done, nUnsatisfied, outList[current])
      requires PendingOk(wanted, done, nUnsatisfied, pending)
      modifies `nUnsatisfied, `pending
      ensures Counted(inList, done, nUnsatisfied) && PendingOk(wanted, done, nUnsatisfied, pending)
    {
      var k := 0;
      ghost var rest := outList[current];
      while k < |outList[current]|
        invariant k <= |outList[current]| && rest == outList[current][k..]
        invariant Counting(inList, done, nUnsatisfied, rest) && PendingOk(wanted, done, nUnsatisfied, pending)
      {
        var successor := outList[current][k];
        CountOne(inList, done, nUnsatisfied, rest);
        nUnsatisfied := nUnsatisfied[successor := nUnsatisfied[successor] - 1];
        if wanted[successor] && !done[successor] && nUnsatisfied[successor] == 0 {
          pending := pending + [successor];
        }
        k, rest := k + 1, rest[1..];
      }
    }

    /** The loop that activates pending nodes until none is left. */
    method RunPending()
      requires Consistent() && Closed(inList, wanted) && PendingOk(wanted, done, nUnsatisfied, pending)
      modifies `done, `nUnsatisfied, `pending, `activated
      ensures Valid() && old(activated) <= activated
    {
      while pending != []
        invariant Consistent() && PendingOk(wanted, done, nUnsatisfied, pending) && old(activated) <= activated
        decreases Remaining(done)
      {
        var current := pending[0];
        assert current in pending;
        RemainingAfter(done, current);
        StartCounting(inList, outList, done, nUnsatisfied, current);
        ActivateOne(inList, outList, done, activated, current);
        pending := pending[1..];
        done := done[current := true];
        activated := activated + [current];
        Satisfy(current);
      }
      NothingPending(inList, wanted, done, nUnsatisfied);
    }

    method CountUnreached() returns (nUnreached: nat)
      requires |wanted| == |done|
      ensures nUnreached > 0 <==> exists v: nat :: Stuck(wanted, done, v)
    {
      nUnreached := 0;
      var v := 0;
      while v < |wanted|
        invariant v <= |wanted| && (nUnreached > 0 <==> exists u: nat :: u < v && Stuck(wanted, done, u))
      {
        if wanted[v] && !done[v] {
          assert Stuck(wanted, done, v);
          nUnreached := nUnreached + 1;
        }
        v := v + 1;
      }
    }

    /**
     run(): exactly what the goal needs becomes wanted (everything, without a goal);
     activations only go on from where the last run stopped, each node at most once and
     after its dependencies; onUnreached() fires exactly if the wanted nodes contain a cycle.
     */
    method Run(goal: Option<nat>) returns (unreached: bool)
      requires Valid() && (goal.Some? ==> goal.value < |inList|)
      modifies `done, `wanted, `nUnsatisfied, `pending, `activated
      ensures Valid() && old(activated) <= activated
      ensures forall v: nat :: v < |wanted| ==>
                (wanted[v] <==> goal == None || old(wanted)[v] || Needs(inList, goal.value, v))
      ensures unreached <==> exists cycle :: IsCycle(inList, wanted, cycle)
      ensures !unreached ==> forall v :: 0 <= v < |wanted| && wanted[v] ==> done[v]
    {
      if goal.Some? {
        MarkGoal(goal.value);
      } else {
        wanted := seq(|inList|, _ => true);
      }
      CollectPending();
      RunPending();
      var nUnreached := CountUnreached();
      UnreachedIffCycle(inList, wanted, done, activated);
      unreached := nUnreached > 0;
      assert forall v: nat :: v < |wanted| && wanted[v] && !done[v] ==> Stuck(wanted, done, v);
    }
  }
}

/** The walk of CancelRegistry::cancel() over a search tree that may hold a tag many times. */
module CancelTree {
  import opened Cancel
  import opened Sequences

  /** A search tree of node numbers, ordered by tag. */
  datatype Tree = Leaf | Branch(left: Tree, n: nat, right: Tree)

  function InOrder(t: Tree): seq<nat> {
    match t
    case Leaf => []
    case Branch(left, n, right) => InOrder(left) + [n] + InOrder(right)
  }

  /** `first` is the position of the first node with the tag, or the length if there is none. */
  ghost predicate IsFirst(nodes: seq<Node>, order: seq<nat>, tag: nat, first: nat) {
    && first <= |order| && IsSorted(nodes, order)
    && (forall i :: 0 <= i < first ==> nodes[order[i]].tag < tag)
    && (first < |order| ==> nodes[order[first]].tag == tag)
  }

  /** The search range: positions below lo are smaller; hi is the best match so far, or all from hi on are larger. */
  ghost predicate Bracket(nodes: seq<Node>, order: seq<nat>, tag: nat, lo: nat, hi: nat, found: bool) {
    && IsSorted(nodes, order) && lo <= hi <= |order| && (forall i :: 0 <= i < lo ==> nodes[order[i]].tag < tag)
    && (if found then hi < |order| && nodes[order[hi]].tag == tag
        else forall i :: hi <= i < |order| ==> nodes[order[i]].tag > tag)
  }

  lemma Narrow(nodes: seq<Node>, order: seq<nat>, tag: nat, lo: nat, mid: nat, hi: nat, found: bool)
    requires Bracket(nodes, order, tag, lo, hi, found) && lo <= mid < hi
    ensures tag < nodes[order[mid]].tag ==> !found && Bracket(nodes, order, tag, lo, mid, false)
    ensures tag > nodes[order[mid]].tag ==> Bracket(nodes, order, tag, mid + 1, hi, found)
    ensures tag == nodes[order[mid]].tag ==> Bracket(nodes, order, tag, lo, mid, true)
  {
  }

  /** The descent to the leftmost node with the tag; its position in the order, if there is one. */
  method FindLeftmost(nodes: seq<Node>, root: Tree, tag: nat) returns (first: nat, found: bool)
    requires IsSorted(nodes, InOrder(root))
    ensures found ==> first < |InOrder(root)| && IsFirst(nodes, InOrder(root), tag, first)
    ensures !found ==> forall n :: n in InOrder(root) ==> nodes[n].tag != tag
  {
    var order := InOrder(root);
    var current, lo: nat := root, 0;
    first, found := |order|, false;
    while current.Branch?
      invariant Bracket(nodes, order, tag, lo, first, found)
      invariant first == lo + |InOrder(current)| && order[lo..first] == InOrder(current)
      decreases current
    {
      var mid := lo + |InOrder(current.left)|;
      SplitRange(order, lo, first, InOrder(current.left), current.n, InOrder(current.right));
      Narrow(nodes, order, tag, lo, mid, first, found);
      if tag < nodes[current.n].tag {
        first, current := mid, current.left;
      } else if tag > nodes[current.n].tag {
        lo, current := mid + 1, current.right;
      } else {
        first, found, current := mid, true, current.left;
      }
    }
  }

  lemma {:induction false} MatchingSplit(nodes: seq<Node>, order: seq<nat>, k: nat, tag: nat)
    requires k <= |order|
    ensures Matching(nodes, order, tag) == Matching(nodes, order[..k], tag) + Matching(nodes, order[k..], tag)
    decreases k
  {
    if k == 0 {
      assert order[..0] == [] && order[0..] == order;
    } else {
      assert order[1..][..k - 1] == order[..k][1..] && order[1..][k - 1..] == order[k..];
      MatchingSplit(nodes, order[1..], k - 1, tag);
    }
  }

  lemma {:induction false} NothingMatches(nodes: seq<Node>, order: seq<nat>, tag: nat)
    requires forall i :: 0 <= i < |order| ==> order[i] < |nodes| && nodes[order[i]].tag != tag
    ensures Matching(nodes, order, tag) == []
    decreases |order|
  {
    if order != [] { NothingMatches(nodes, order[1..], tag); }
  }

  /** The walk takes exactly the uncancelled nodes with the tag into the list. */
  method Walk(nodes: seq<Node>, root: Tree, tag: nat) returns (pending: seq<nat>)
    requires IsSorted(nodes, InOrder(root))
    ensures pending == Matching(nodes, InOrder(root), tag)
  {
    var order := InOrder(root);
    pending := [];
    var first, found := FindLeftmost(nodes, root, tag);
    if !found {
      forall i | 0 <= i < |order| ensures nodes[order[i]].tag != tag { assert order[i] in order; }
      NothingMatches(nodes, order, tag);
      return;
    }
    MatchingSplit(nodes, order, first, tag);
    NothingMatches(nodes, order[..first], tag);
    pending := TakeMatching(nodes, order, tag, first);
  }

  /** The nodes from the first one with the tag on, as long as they have it. */
  method TakeMatching(nodes: seq<Node>, order: seq<nat>, tag: nat, first: nat) returns (pending: seq<nat>)
    requires IsFirst(nodes, order, tag, first)
    ensures pending == Matching(nodes, order[first..], tag)
  {
    pending := [];
    var it := first;
    while it < |order| && nodes[order[it]].tag == tag
      invariant first <= it <= |order| && (forall i :: first <= i < it ==> nodes[order[i]].tag == tag)
      invariant Matching(nodes, order[first..], tag) == pending + Matching(nodes, order[it..], tag)
    {
      OneMatch(nodes, order, tag, it);
      if !nodes[order[it]].cancelled {
        Associative(pending, [order[it]], Matching(nodes, order[it + 1..], tag));
        pending := pending + [order[it]];
      }
      it := it + 1;
    }
    NothingAfter(nodes, order, tag, first, it);
  }

  lemma OneMatch(nodes: seq<Node>, order: seq<nat>, tag: nat, it: nat)
    requires it < |order| && order[it] < |nodes| && nodes[order[it]].tag == tag
    ensures Matching(nodes, order[it..], tag) ==
            if nodes[order[it]].cancelled then Matching(nodes, order[it + 1..], tag)
            else [order[it]] + Matching(nodes, order[it + 1..], tag)
  {
    assert order[it..][1..] == order[it + 1..];
  }

  lemma NothingAfter(nodes: seq<Node>, order: seq<nat>, tag: nat, first: nat, it: nat)
    requires IsFirst(nodes, order, tag, first) && first <= it <= |order|
    requires it < |order| ==> nodes[order[it]].tag != tag
    ensures Matching(nodes, order[it..], tag) == []
  {
    NothingMatches(nodes, order[it..], tag);
  }
}

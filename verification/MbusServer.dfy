/**
 The mbus server over a search tree ordered by sequence. The balancing of the tree is
 not part of the model; all results are stated through its in-order contents.
 */
module MbusServer {
  import opened Common
  import opened Mbus

  datatype Tree = Leaf | Node(left: Tree, entity: Entity, right: Tree)

  function InOrder(t: Tree): seq<Entity> {
    match t
    case Leaf => []
    case Node(left, entity, right) => InOrder(left) + [entity] + InOrder(right)
  }

  // ---- The smallest sequence at or above a bound ----

  function FirstFrom(entities: seq<Entity>, from: nat): Option<Entity> {
    if entities == [] then None
    else if entities[0].sequence >= from then Some(entities[0])
    else FirstFrom(entities[1..], from)
  }

  lemma {:induction false} FirstFromIn(entities: seq<Entity>, from: nat)
    requires FirstFrom(entities, from).Some?
    ensures FirstFrom(entities, from).value in entities && FirstFrom(entities, from).value.sequence >= from
    decreases |entities|
  {
    if entities[0].sequence < from { FirstFromIn(entities[1..], from); }
  }

  lemma {:induction false} FirstFromIsSmallest(entities: seq<Entity>, from: nat, e: Entity)
    requires Ascending(entities) && e in entities && e.sequence >= from
    ensures var first := FirstFrom(entities, from);
            first.Some? && first.value in entities && from <= first.value.sequence <= e.sequence
    decreases |entities|
  {
    if entities[0].sequence < from { FirstFromIsSmallest(entities[1..], from, e); }
  }

  function OrElse<T>(a: Option<T>, b: Option<T>): Option<T> { if a.Some? then a else b }

  lemma {:induction false} FirstFromConcat(a: seq<Entity>, b: seq<Entity>, from: nat)
    ensures FirstFrom(a + b, from) == OrElse(FirstFrom(a, from), FirstFrom(b, from))
    decreases |a|
  {
    if a == [] {
      assert a + b == b;
    } else {
      assert (a + b)[1..] == a[1..] + b;
      FirstFromConcat(a[1..], b, from);
    }
  }

  /** The parts of an ascending sequence around one element. */
  lemma AscendingParts(a: seq<Entity>, e: Entity, b: seq<Entity>)
    requires Ascending(a + [e] + b)
    ensures Ascending(a) && Ascending(b)
    ensures forall i :: 0 <= i < |a| ==> a[i].sequence < e.sequence
    ensures forall i :: 0 <= i < |b| ==> e.sequence < b[i].sequence
  {
    var all := a + [e] + b;
    assert forall i :: 0 <= i < |a| ==> a[i] == all[i];
    assert forall i :: 0 <= i < |b| ==> b[i] == all[|a| + 1 + i];
    assert all[|a|] == e;
  }

  lemma {:induction false} NoneBelow(entities: seq<Entity>, from: nat)
    requires forall i :: 0 <= i < |entities| ==> entities[i].sequence < from
    ensures FirstFrom(entities, from) == None
    decreases |entities|
  {
    if entities != [] { NoneBelow(entities[1..], from); }
  }

  lemma FirstFromNode(t: Tree, from: nat)
    requires t.Node? && Ascending(InOrder(t))
    ensures Ascending(InOrder(t.left)) && Ascending(InOrder(t.right))
    ensures t.entity.sequence > from ==>
              FirstFrom(InOrder(t), from) == OrElse(FirstFrom(InOrder(t.left), from), Some(t.entity))
    ensures t.entity.sequence < from ==> FirstFrom(InOrder(t), from) == FirstFrom(InOrder(t.right), from)
    ensures t.entity.sequence == from ==> FirstFrom(InOrder(t), from) == Some(t.entity)
  {
    var a, b := InOrder(t.left), InOrder(t.right);
    AscendingParts(a, t.entity, b);
    FirstFromConcat(a + [t.entity], b, from);
    FirstFromConcat(a, [t.entity], from);
    if t.entity.sequence <= from { NoneBelow(a, from); }
  }

  /** seqLowerBound() */
  method SeqLowerBound(root: Tree, inSeq: nat) returns (r: Option<Entity>)
    requires Ascending(InOrder(root))
    ensures r == FirstFrom(InOrder(root), inSeq)
  {
    var cur := root;
    r := None;
    while cur.Node?
      invariant Ascending(InOrder(cur))
      invariant FirstFrom(InOrder(root), inSeq) == OrElse(FirstFrom(InOrder(cur), inSeq), r)
      decreases cur
    {
      FirstFromNode(cur, inSeq);
      if cur.entity.sequence > inSeq {
        r := Some(cur.entity);
        cur := cur.left;
      } else if cur.entity.sequence < inSeq {
        cur := cur.right;
      } else {
        return Some(cur.entity);
      }
    }
  }

  /** The entity at position k, if there is one. */
  function EntityAt(entities: seq<Entity>, k: nat): Option<Entity> {
    if k < |entities| then Some(entities[k]) else None
  }

  lemma {:induction false} NextInOrder(entities: seq<Entity>, k: nat)
    requires Ascending(entities) && k < |entities|
    ensures FirstFrom(entities, entities[k].sequence + 1) == EntityAt(entities, k + 1)
    decreases |entities|
  {
    if k > 0 {
      NextInOrder(entities[1..], k - 1);
    } else if |entities| > 1 {
      assert entities[1..][0] == entities[1];
    }
  }

  method Leftmost(t: Tree) returns (e: Entity)
    requires t.Node?
    ensures InOrder(t) != [] && e == InOrder(t)[0]
  {
    var cur := t;
    while cur.left.Node?
      invariant cur.Node? && InOrder(cur)[0] == InOrder(t)[0]
      decreases cur
    {
      cur := cur.left;
    }
    e := cur.entity;
  }

  /** On which side of the root position k lies. */
  lemma Side(t: Tree, k: nat)
    requires t.Node? && Ascending(InOrder(t)) && k < |InOrder(t)|
    ensures Ascending(InOrder(t.left)) && Ascending(InOrder(t.right))
    ensures InOrder(t)[k].sequence < t.entity.sequence <==> k < |InOrder(t.left)|
    ensures InOrder(t)[k].sequence == t.entity.sequence <==> k == |InOrder(t.left)|
  {
    AscendingParts(InOrder(t.left), t.entity, InOrder(t.right));
  }

  /** The successor of e in a subtree; `up` comes after the subtree. */
  method SuccessorBelow(t: Tree, e: Entity, up: Option<Entity>, ghost k: nat) returns (r: Option<Entity>)
    requires Ascending(InOrder(t)) && k < |InOrder(t)| && e == InOrder(t)[k]
    ensures r == OrElse(EntityAt(InOrder(t), k + 1), up)
    decreases t
  {
    Side(t, k);
    if e.sequence < t.entity.sequence {
      r := SuccessorBelow(t.left, e, Some(t.entity), k);
    } else if e.sequence > t.entity.sequence {
      r := SuccessorBelow(t.right, e, up, k - |InOrder(t.left)| - 1);
    } else if t.right.Node? {
      var next := Leftmost(t.right);
      r := Some(next);
    } else {
      r := up;
    }
  }

  /**
   EntitySeqTree::successor(): the leftmost entity to the right below, or else the nearest one
   above from which the path to e turns left. This is the next entity in the order of the tree.
   */
  method Successor(root: Tree, e: Entity, ghost k: nat) returns (r: Option<Entity>)
    requires Ascending(InOrder(root)) && k < |InOrder(root)| && e == InOrder(root)[k]
    ensures r == EntityAt(InOrder(root), k + 1) == FirstFrom(InOrder(root), e.sequence + 1)
  {
    NextInOrder(InOrder(root), k);
    r := SuccessorBelow(root, e, None, k);
  }

  // ---- Pages ----

  lemma {:induction false} NoneFrom(entities: seq<Entity>, from: nat, filter: Filter)
    requires FirstFrom(entities, from) == None
    ensures MatchesFrom(entities, from, filter) == []
    decreases |entities|
  {
    if entities != [] { NoneFrom(entities[1..], from, filter); }
  }

  /** Matches above a later bound are the same if nothing lies in between. */
  lemma {:induction false} SameFrom(entities: seq<Entity>, from: nat, to: nat, filter: Filter)
    requires from <= to && forall i :: 0 <= i < |entities| ==> entities[i].sequence < from || entities[i].sequence >= to
    ensures MatchesFrom(entities, from, filter) == MatchesFrom(entities, to, filter)
    decreases |entities|
  {
    if entities != [] { SameFrom(entities[1..], from, to, filter); }
  }

  lemma {:induction false} NextFrom(entities: seq<Entity>, from: nat, filter: Filter)
    requires Ascending(entities) && FirstFrom(entities, from).Some?
    ensures var e := FirstFrom(entities, from).value;
            MatchesFrom(entities, from, filter) ==
            (if Matches(e.properties, filter) then [e] else []) + MatchesFrom(entities, e.sequence + 1, filter)
    decreases |entities|
  {
    if entities[0].sequence >= from {
      SameFrom(entities[1..], from, entities[0].sequence + 1, filter);
    } else {
      NextFrom(entities[1..], from, filter);
      FirstFromIn(entities[1..], from);
    }
  }

  /** The response so far holds the matches from inSeq up to `from`. */
  ghost predicate Collected(bus: Bus, inSeq: nat, filter: Filter, response: seq<Entity>, from: nat) {
    MatchesFrom(bus.entities, inSeq, filter) == response + MatchesFrom(bus.entities, from, filter)
  }

  /** One entity is dealt with: it joins the response if it matches. */
  lemma CollectOne(bus: Bus, inSeq: nat, filter: Filter, response: seq<Entity>, from: nat)
    requires BusOk(bus) && Collected(bus, inSeq, filter, response, from) && FirstFrom(bus.entities, from).Some?
    ensures var e := FirstFrom(bus.entities, from).value;
            && from <= e.sequence < bus.current && e in bus.entities
            && Collected(bus, inSeq, filter,
                         if Matches(e.properties, filter) then response + [e] else response, e.sequence + 1)
  {
    NextFrom(bus.entities, from, filter);
    FirstFromIn(bus.entities, from);
  }

  lemma FullPage(bus: Bus, inSeq: nat, filter: Filter, response: seq<Entity>, from: nat)
    requires Collected(bus, inSeq, filter, response, from) && |response| == MAX_ENTITIES
    ensures Page(bus, inSeq, filter) == (response, response[MAX_ENTITIES - 1].sequence + 1)
  {
    assert (response + MatchesFrom(bus.entities, from, filter))[..MAX_ENTITIES] == response;
  }

  lemma LastPage(bus: Bus, inSeq: nat, filter: Filter, response: seq<Entity>, from: nat)
    requires Collected(bus, inSeq, filter, response, from) && |response| < MAX_ENTITIES
    requires FirstFrom(bus.entities, from) == None
    ensures Page(bus, inSeq, filter) == (response, bus.current)
  {
    NoneFrom(bus.entities, from, filter);
    assert MatchesFrom(bus.entities, inSeq, filter) == response;
  }

  /** tryEnumerate() once the sequence has moved past inSeq. */
  method TryEnumerate(bus: Bus, root: Tree, inSeq: nat, filter: Filter) returns (response: seq<Entity>, outSeq: nat)
    requires BusOk(bus) && InOrder(root) == bus.entities
    ensures (response, outSeq) == Page(bus, inSeq, filter)
  {
    outSeq := bus.current;
    response := [];
    var cur := SeqLowerBound(root, inSeq);
    ghost var from: nat := inSeq;
    assert Collected(bus, inSeq, filter, response, from);
    while cur.Some?
      invariant cur == FirstFrom(bus.entities, from) && |response| < MAX_ENTITIES && outSeq == bus.current
      invariant Collected(bus, inSeq, filter, response, from)
      decreases bus.current - from
    {
      CollectOne(bus, inSeq, filter, response, from);
      from := cur.value.sequence + 1;
      if Matches(cur.value.properties, filter) {
        response := response + [cur.value];
        if |response| >= MAX_ENTITIES {
          FullPage(bus, inSeq, filter, response, from);
          outSeq := cur.value.sequence + 1;
          return;
        }
      }
      ghost var k :| 0 <= k < |bus.entities| && bus.entities[k] == cur.value;
      cur := Successor(root, cur.value, k);
    }
    LastPage(bus, inSeq, filter, response, from);
  }

  // ---- The server ----

  function Insert(t: Tree, e: Entity): Tree {
    match t
    case Leaf => Node(Leaf, e, Leaf)
    case Node(left, entity, right) =>
      if e.sequence < entity.sequence then Node(Insert(left, e), entity, right)
      else Node(left, entity, Insert(right, e))
  }

  lemma {:induction false} InsertLast(t: Tree, e: Entity)
    requires forall x :: x in InOrder(t) ==> x.sequence < e.sequence
    ensures InOrder(Insert(t, e)) == InOrder(t) + [e]
  {
    if t.Node? {
      assert t.entity in InOrder(t);
      InsertLast(t.right, e);
    }
  }

  function Join(left: Tree, right: Tree): Tree {
    match left
    case Leaf => right
    case Node(l, entity, r) => Node(l, entity, Join(r, right))
  }

  lemma {:induction false} JoinConcat(left: Tree, right: Tree)
    ensures InOrder(Join(left, right)) == InOrder(left) + InOrder(right)
  {
    if left.Node? { JoinConcat(left.right, right); }
  }

  function Remove(t: Tree, e: Entity): Tree {
    match t
    case Leaf => Leaf
    case Node(left, entity, right) =>
      if e.sequence < entity.sequence then Node(Remove(left, e), entity, right)
      else if e.sequence > entity.sequence then Node(left, entity, Remove(right, e))
      else Join(left, right)
  }

  /** Dropping element k from either side of the middle. */
  lemma DropLeft(a: seq<Entity>, e: Entity, b: seq<Entity>, k: nat)
    requires k < |a|
    ensures (a[..k] + a[k + 1..]) + [e] + b == (a + [e] + b)[..k] + (a + [e] + b)[k + 1..]
  {
    assert a == a[..k] + a[k..];
  }

  lemma DropRight(a: seq<Entity>, e: Entity, b: seq<Entity>, k: nat)
    requires k < |b|
    ensures a + [e] + (b[..k] + b[k + 1..]) == (a + [e] + b)[..|a| + 1 + k] + (a + [e] + b)[|a| + 1 + k + 1..]
  {
  }

  lemma DropMiddle(a: seq<Entity>, e: Entity, b: seq<Entity>)
    ensures a + b == (a + [e] + b)[..|a|] + (a + [e] + b)[|a| + 1..]
  {
  }

  lemma {:induction false} RemoveAt(t: Tree, k: nat)
    requires Ascending(InOrder(t)) && k < |InOrder(t)|
    ensures InOrder(Remove(t, InOrder(t)[k])) == InOrder(t)[..k] + InOrder(t)[k + 1..]
  {
    var a, b := InOrder(t.left), InOrder(t.right);
    AscendingParts(a, t.entity, b);
    if k < |a| {
      assert InOrder(t)[k] == a[k];
      RemoveAt(t.left, k);
      DropLeft(a, t.entity, b, k);
    } else if k > |a| {
      assert InOrder(t)[k] == b[k - |a| - 1];
      RemoveAt(t.right, k - |a| - 1);
      DropRight(a, t.entity, b, k - |a| - 1);
    } else {
      assert InOrder(t)[k] == t.entity;
      JoinConcat(t.left, t.right);
      DropMiddle(a, t.entity, b);
    }
  }

  class Server {
    var current: nat
    var nextId: nat
    var tree: Tree

    ghost function Abstract(): Bus
      reads this
    {
      Bus(current, nextId, InOrder(tree))
    }

    constructor (initial: nat)
      ensures Abstract() == Bus(initial, 1, []) && BusOk(Abstract())
    {
      current, nextId, tree := initial, 1, Leaf;
    }

    method CreateObject(name: string, properties: map<string, Item>) returns (id: nat)
      requires BusOk(Abstract())
      modifies this
      ensures BusOk(Abstract()) && Abstract() == Create(old(Abstract()), name, properties) && id == old(nextId)
    {
      CreateKeeps(Abstract(), name, properties);
      id := nextId;
      var child := Entity(id, current, name, properties);
      InsertLast(tree, child);
      nextId := nextId + 1;
      tree := Insert(tree, child);
      current := current + 1;
    }

    /** UpdatePropertiesRequest for an entity in the tree; k is its position in the order of sequences. */
    method UpdateProperties(entity: Entity, updates: map<string, Item>, ghost k: nat)
      requires BusOk(Abstract()) && k < |InOrder(tree)| && entity == InOrder(tree)[k]
      modifies this
      ensures BusOk(Abstract()) && Abstract() == Update(old(Abstract()), k, updates)
    {
      UpdateKeeps(Abstract(), k, updates);
      RemoveAt(tree, k);
      tree := Remove(tree, entity);
      var updated := entity.(sequence := current, properties := Emplace(entity.properties, updates));
      assert forall x :: x in InOrder(tree) ==> x in old(InOrder(tree));
      InsertLast(tree, updated);
      tree := Insert(tree, updated);
      current := current + 1;
    }

    method Enumerate(inSeq: nat, filter: Filter) returns (entities: seq<Entity>, outSeq: nat)
      requires BusOk(Abstract())
      ensures (entities, outSeq) == Page(Abstract(), inSeq, filter)
    {
      entities, outSeq := TryEnumerate(Bus(current, nextId, InOrder(tree)), tree, inSeq, filter);
    }
  }
}

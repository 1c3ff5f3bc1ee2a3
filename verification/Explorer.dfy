/** Subtree totals of a session and its descendants (src/api/explorer.rs). */
module Explorer {
  import opened Prelude
  import opened Types
  import opened Sums
  import opened Sorting

  type Id = string

  datatype Node = Node(id: Id, parent: Option<Id>, depth: nat)

  datatype Own = Own(usage: TokenUsage, events: u64)

  type Tree = map<Id, Node>

  /** The node is the child of another node of the tree. */
  predicate HasParent(tree: Tree, id: Id) {
    id in tree && tree[id].parent.Some? && tree[id].parent.value in tree
  }

  /**
   * What the descendants query returns for a catalog without cycles: each thread once,
   * one deeper than its parent, where the parent is a descendant too.
   */
  ghost predicate IsTree(tree: Tree) {
    && (forall id :: id in tree ==> tree[id].id == id)
    && (forall id :: HasParent(tree, id) ==> tree[id].depth == tree[tree[id].parent.value].depth + 1)
  }

  // ----- the specification: a sum over all descendants -----

  /** `n` is `a` or one of its descendants. */
  ghost predicate Under(tree: Tree, a: Id, n: Id)
    requires IsTree(tree)
    decreases if n in tree then tree[n].depth else 0
  {
    n == a || (HasParent(tree, n) && Under(tree, a, tree[n].parent.value))
  }

  ghost function Subtree(tree: Tree, a: Id): set<Id>
    requires IsTree(tree)
  {
    set n | n in tree && Under(tree, a, n)
  }

  ghost function UsageIn(own: map<Id, Own>, d: Dimension): Id -> nat {
    (id: Id) => if id in own then own[id].usage.Get(d) else 0
  }

  ghost function EventsIn(own: map<Id, Own>): Id -> nat {
    (id: Id) => if id in own then own[id].events else 0
  }

  /** `usage` is the saturated sum over `s`. */
  ghost predicate ShowsUsage(usage: TokenUsage, s: set<Id>, own: map<Id, Own>) {
    forall d: Dimension :: usage.Get(d) == Sat(SumOver(s, UsageIn(own, d)))
  }

  ghost predicate ShowsEvents(events: u64, s: set<Id>, own: map<Id, Own>) {
    events == Sat(SumOver(s, EventsIn(own)))
  }

  // ----- trees -----

  lemma {:induction false} UnderIsDeeper(tree: Tree, a: Id, n: Id)
    requires IsTree(tree) && n in tree && Under(tree, a, n)
    ensures a in tree && tree[a].depth <= tree[n].depth && (a != n ==> tree[a].depth < tree[n].depth)
    decreases tree[n].depth
  {
    if n != a {
      UnderIsDeeper(tree, a, tree[n].parent.value);
    }
  }

  /** A node has at most one ancestor at each depth. */
  lemma {:induction false} AncestorIsUnique(tree: Tree, a: Id, b: Id, n: Id)
    requires IsTree(tree) && n in tree && Under(tree, a, n) && Under(tree, b, n)
    requires a in tree && b in tree && tree[a].depth == tree[b].depth
    ensures a == b
    decreases tree[n].depth
  {
    UnderIsDeeper(tree, a, n);
    UnderIsDeeper(tree, b, n);
    if a != n && b != n {
      AncestorIsUnique(tree, a, b, tree[n].parent.value);
    }
  }

  ghost predicate IsChild(tree: Tree, a: Id, c: Id) {
    c in tree && tree[c].parent == Some(a)
  }

  /** Below a node, everything is below one of its children. */
  lemma {:induction false} UnderThroughChild(tree: Tree, a: Id, n: Id) returns (c: Id)
    requires IsTree(tree) && n in tree && a in tree && Under(tree, a, n) && n != a
    ensures IsChild(tree, a, c) && Under(tree, c, n)
    decreases tree[n].depth
  {
    var p := tree[n].parent.value;
    if p == a {
      c := n;
    } else {
      c := UnderThroughChild(tree, a, p);
    }
  }

  lemma {:induction false} ChildIsUnder(tree: Tree, a: Id, c: Id, n: Id)
    requires IsTree(tree) && a in tree && IsChild(tree, a, c) && n in tree && Under(tree, c, n)
    ensures Under(tree, a, n)
    decreases tree[n].depth
  {
    if n != c {
      ChildIsUnder(tree, a, c, tree[n].parent.value);
    }
  }

  // ----- what has been gathered when the children in `done` were handed up -----

  ghost predicate Gathered(tree: Tree, done: set<Id>, a: Id, n: Id)
    requires IsTree(tree)
  {
    n == a || exists c :: c in done && IsChild(tree, a, c) && Under(tree, c, n)
  }

  ghost function GatheredSet(tree: Tree, done: set<Id>, a: Id): set<Id>
    requires IsTree(tree)
  {
    set n | n in tree && Gathered(tree, done, a, n)
  }

  /** With all children handed up, the whole subtree is gathered. */
  lemma CompleteWhenChildrenDone(tree: Tree, done: set<Id>, a: Id)
    requires IsTree(tree) && a in tree && forall c :: IsChild(tree, a, c) ==> c in done
    ensures GatheredSet(tree, done, a) == Subtree(tree, a)
  {
    forall n | n in tree
      ensures Gathered(tree, done, a, n) <==> Under(tree, a, n)
    {
      if Under(tree, a, n) && n != a {
        var c := UnderThroughChild(tree, a, n);
      }
      if n != a && Gathered(tree, done, a, n) {
        var c :| c in done && IsChild(tree, a, c) && Under(tree, c, n);
        ChildIsUnder(tree, a, c, n);
      }
    }
  }

  /** Handing up a child adds its subtree, none of which was there before. */
  lemma HandUpAddsSubtree(tree: Tree, done: set<Id>, a: Id, c: Id)
    requires IsTree(tree) && a in tree && IsChild(tree, a, c) && c !in done
    ensures GatheredSet(tree, done + {c}, a) == GatheredSet(tree, done, a) + Subtree(tree, c)
    ensures GatheredSet(tree, done, a) !! Subtree(tree, c)
  {
    forall n | n in Subtree(tree, c)
      ensures !Gathered(tree, done, a, n) && Gathered(tree, done + {c}, a, n)
    {
      UnderIsDeeper(tree, c, n);
      if n != a && Gathered(tree, done, a, n) {
        var other :| other in done && IsChild(tree, a, other) && Under(tree, other, n);
        AncestorIsUnique(tree, c, other, n);
      }
    }
  }

  lemma OthersKeepTheirs(tree: Tree, done: set<Id>, a: Id, c: Id)
    requires IsTree(tree) && !IsChild(tree, a, c)
    ensures GatheredSet(tree, done + {c}, a) == GatheredSet(tree, done, a)
  {
  }

  lemma UsageAdds(x: TokenUsage, s: set<Id>, y: TokenUsage, t: set<Id>, sum: TokenUsage, own: map<Id, Own>)
    requires ShowsUsage(x, s, own) && ShowsUsage(y, t, own) && s !! t
    requires forall d: Dimension :: sum.Get(d) == Sat(x.Get(d) + y.Get(d))
    ensures ShowsUsage(sum, s + t, own)
  {
    forall d: Dimension
      ensures sum.Get(d) == Sat(SumOver(s + t, UsageIn(own, d)))
    {
      SumOverUnion(s, t, UsageIn(own, d));
      SatOfSats(SumOver(s, UsageIn(own, d)), SumOver(t, UsageIn(own, d)));
    }
  }

  lemma EventsAdd(x: u64, s: set<Id>, y: u64, t: set<Id>, sum: u64, own: map<Id, Own>)
    requires ShowsEvents(x, s, own) && ShowsEvents(y, t, own) && s !! t && sum == Sat(x + y)
    ensures ShowsEvents(sum, s + t, own)
  {
    SumOverUnion(s, t, EventsIn(own));
    SatOfSats(SumOver(s, EventsIn(own)), SumOver(t, EventsIn(own)));
  }

  lemma OneNode(own: map<Id, Own>, id: Id)
    ensures ShowsUsage(if id in own then own[id].usage else ZERO, {id}, own)
    ensures ShowsEvents(if id in own then own[id].events else 0, {id}, own)
  {
    forall d: Dimension
      ensures SumOver({id}, UsageIn(own, d)) == UsageIn(own, d)(id)
    {
      SumOverRemove({id}, UsageIn(own, d), id);
    }
    SumOverRemove({id}, EventsIn(own), id);
    ZeroUsage(ZERO);
  }

  // ----- the computation -----

  ghost predicate Lists(nodes: seq<Node>, tree: Tree) {
    && Distinct(nodes)
    && (forall n :: n in nodes <==> n.id in tree && tree[n.id] == n)
  }

  function DeeperFirst(): (Node, Node) -> bool {
    (a: Node, b: Node) => a.depth >= b.depth
  }

  ghost predicate UsageSoFar(tree: Tree, done: set<Id>, usage: map<Id, TokenUsage>, own: map<Id, Own>)
    requires IsTree(tree)
  {
    usage.Keys == tree.Keys && forall a :: a in usage ==> ShowsUsage(usage[a], GatheredSet(tree, done, a), own)
  }

  ghost predicate EventsSoFar(tree: Tree, done: set<Id>, events: map<Id, u64>, own: map<Id, Own>)
    requires IsTree(tree)
  {
    events.Keys == tree.Keys && forall a :: a in events ==> ShowsEvents(events[a], GatheredSet(tree, done, a), own)
  }

  /** Every node ends with the total of its subtree, whatever the order of nodes of the same depth. */
  method SubtreeTotals(nodes: seq<Node>, own: map<Id, Own>, ghost tree: Tree)
    returns (usage: map<Id, TokenUsage>, events: map<Id, u64>)
    requires IsTree(tree) && Lists(nodes, tree)
    ensures usage.Keys == tree.Keys && events.Keys == tree.Keys
    ensures forall a :: a in usage ==> ShowsUsage(usage[a], Subtree(tree, a), own)
    ensures forall a :: a in events ==> ShowsEvents(events[a], Subtree(tree, a), own)
  {
    var ordered := Sort(DeeperFirst(), nodes, |nodes|);
    OrderedByDepth(nodes, ordered);
    usage, events := OwnTotals(nodes, own, tree);
    for k := 0 to |ordered|
      invariant UsageSoFar(tree, Handed(ordered, k), usage, own)
      invariant EventsSoFar(tree, Handed(ordered, k), events, own)
    {
      ChildrenComeFirst(tree, nodes, ordered, k);
      usage, events := HandUp(ordered[k], own, tree, Handed(ordered, k), usage, events);
    }
    AllHanded(tree, nodes, ordered);
    forall a | a in tree
      ensures GatheredSet(tree, Handed(ordered, |ordered|), a) == Subtree(tree, a)
    {
      CompleteWhenChildrenDone(tree, Handed(ordered, |ordered|), a);
    }
  }

  method OwnTotals(nodes: seq<Node>, own: map<Id, Own>, ghost tree: Tree)
    returns (usage: map<Id, TokenUsage>, events: map<Id, u64>)
    requires IsTree(tree) && Lists(nodes, tree)
    ensures UsageSoFar(tree, {}, usage, own) && EventsSoFar(tree, {}, events, own)
  {
    var ids := set n | n in nodes :: n.id;
    assert ids == tree.Keys by {
      assert forall a :: a in tree ==> tree[a] in nodes;
    }
    usage := map id | id in ids :: if id in own then own[id].usage else ZERO;
    events := map id | id in ids :: if id in own then own[id].events else 0;
    forall a | a in tree
      ensures GatheredSet(tree, {}, a) == {a}
      ensures ShowsUsage(if a in own then own[a].usage else ZERO, {a}, own)
      ensures ShowsEvents(if a in own then own[a].events else 0, {a}, own)
    {
      OneNode(own, a);
    }
  }

  /** One step: a node adds its total to its parent's. */
  method HandUp(node: Node, own: map<Id, Own>, ghost tree: Tree, ghost done: set<Id>,
                before: map<Id, TokenUsage>, beforeEvents: map<Id, u64>)
    returns (usage: map<Id, TokenUsage>, events: map<Id, u64>)
    requires IsTree(tree) && node.id in tree && tree[node.id] == node && node.id !in done
    requires forall c :: IsChild(tree, node.id, c) ==> c in done
    requires UsageSoFar(tree, done, before, own) && EventsSoFar(tree, done, beforeEvents, own)
    ensures UsageSoFar(tree, done + {node.id}, usage, own) && EventsSoFar(tree, done + {node.id}, events, own)
  {
    HandUpGathers(tree, done, node);
    usage := AddToParent(node, own, tree, done, before);
    events := AddEventsToParent(node, own, tree, done, beforeEvents);
  }

  method AddToParent(node: Node, own: map<Id, Own>, ghost tree: Tree, ghost done: set<Id>, before: map<Id, TokenUsage>)
    returns (usage: map<Id, TokenUsage>)
    requires IsTree(tree) && node.id in tree && tree[node.id] == node
    requires GathersAt(tree, done, node) && UsageSoFar(tree, done, before, own)
    ensures UsageSoFar(tree, done + {node.id}, usage, own)
  {
    usage := before;
    if node.parent.Some? && node.id in usage && node.parent.value in usage {
      var p := node.parent.value;
      var sum := AddSaturating(usage[p], usage[node.id]);
      UsageAdds(usage[p], GatheredSet(tree, done, p), usage[node.id], Subtree(tree, node.id), sum, own);
      usage := usage[p := sum];
    }
  }

  method AddEventsToParent(node: Node, own: map<Id, Own>, ghost tree: Tree, ghost done: set<Id>, before: map<Id, u64>)
    returns (events: map<Id, u64>)
    requires IsTree(tree) && node.id in tree && tree[node.id] == node
    requires GathersAt(tree, done, node) && EventsSoFar(tree, done, before, own)
    ensures EventsSoFar(tree, done + {node.id}, events, own)
  {
    events := before;
    if node.parent.Some? && node.id in events && node.parent.value in events {
      var p := node.parent.value;
      var sum := SatAdd(events[p], events[node.id]);
      EventsAdd(events[p], GatheredSet(tree, done, p), events[node.id], Subtree(tree, node.id), sum, own);
      events := events[p := sum];
    }
  }

  /** Handing up `node` completes it, adds its subtree to its parent, and concerns nobody else. */
  ghost predicate GathersAt(tree: Tree, done: set<Id>, node: Node)
    requires IsTree(tree)
  {
    && GatheredSet(tree, done, node.id) == Subtree(tree, node.id)
    && (forall a :: a in tree && node.parent != Some(a) ==>
          GatheredSet(tree, done + {node.id}, a) == GatheredSet(tree, done, a))
    && (HasParent(tree, node.id) && tree[node.id] == node ==>
          && GatheredSet(tree, done, node.parent.value) !! Subtree(tree, node.id)
          && GatheredSet(tree, done + {node.id}, node.parent.value)
             == GatheredSet(tree, done, node.parent.value) + Subtree(tree, node.id))
  }

  lemma HandUpGathers(tree: Tree, done: set<Id>, node: Node)
    requires IsTree(tree) && node.id in tree && tree[node.id] == node && node.id !in done
    requires forall c :: IsChild(tree, node.id, c) ==> c in done
    ensures GathersAt(tree, done, node)
  {
    CompleteWhenChildrenDone(tree, done, node.id);
    forall a | a in tree && node.parent != Some(a)
      ensures GatheredSet(tree, done + {node.id}, a) == GatheredSet(tree, done, a)
    {
      OthersKeepTheirs(tree, done, a, node.id);
    }
    if HasParent(tree, node.id) {
      HandUpAddsSubtree(tree, done, node.parent.value, node.id);
    }
  }

  ghost function Handed(ordered: seq<Node>, k: nat): set<Id>
    requires k <= |ordered|
  {
    if k == 0 then {} else Handed(ordered, k - 1) + {ordered[k - 1].id}
  }

  lemma {:induction false} HandedBefore(ordered: seq<Node>, k: nat, j: nat)
    requires j < k <= |ordered|
    ensures ordered[j].id in Handed(ordered, k)
  {
    if j < k - 1 {
      HandedBefore(ordered, k - 1, j);
    }
  }

  lemma {:induction false} NotHandedYet(ordered: seq<Node>, k: nat, id: Id)
    requires k <= |ordered| && forall j :: 0 <= j < k ==> ordered[j].id != id
    ensures id !in Handed(ordered, k)
  {
    if k > 0 {
      NotHandedYet(ordered, k - 1, id);
    }
  }

  lemma OrderedByDepth(nodes: seq<Node>, ordered: seq<Node>)
    requires Distinct(nodes) && ordered == Sort(DeeperFirst(), nodes, |nodes|)
    ensures SortedBy(DeeperFirst(), ordered) && Distinct(ordered)
    ensures forall n :: n in ordered <==> n in nodes
  {
    var dom := set n | n in nodes;
    SortIsRight(DeeperFirst(), nodes, |nodes|, dom);
    SortDistinct(DeeperFirst(), nodes, |nodes|);
    assert nodes[..|nodes|] == nodes;
  }

  lemma DepthsFall(ordered: seq<Node>, i: nat, j: nat)
    requires SortedBy(DeeperFirst(), ordered) && i <= j < |ordered|
    ensures ordered[i].depth >= ordered[j].depth
  {
    assert i < j ==> DeeperFirst()(ordered[i], ordered[j]);
  }

  lemma ChildrenComeFirst(tree: Tree, nodes: seq<Node>, ordered: seq<Node>, k: nat)
    requires IsTree(tree) && Lists(nodes, tree) && k < |ordered|
    requires SortedBy(DeeperFirst(), ordered) && Distinct(ordered) && forall n :: n in ordered <==> n in nodes
    ensures forall c :: IsChild(tree, ordered[k].id, c) ==> c in Handed(ordered, k)
    ensures ordered[k].id !in Handed(ordered, k) && ordered[k].id in tree && tree[ordered[k].id] == ordered[k]
  {
    assert ordered[k] in ordered;
    forall c | IsChild(tree, ordered[k].id, c)
      ensures c in Handed(ordered, k)
    {
      assert tree[c] in nodes && tree[c] in ordered && HasParent(tree, c);
      var j :| 0 <= j < |ordered| && ordered[j] == tree[c];
      if j >= k {
        DepthsFall(ordered, k, j);
        assert false;
      }
      HandedBefore(ordered, k, j);
    }
    forall j | 0 <= j < k
      ensures ordered[j].id != ordered[k].id
    {
      assert ordered[j] in ordered;
    }
    NotHandedYet(ordered, k, ordered[k].id);
  }

  lemma AllHanded(tree: Tree, nodes: seq<Node>, ordered: seq<Node>)
    requires IsTree(tree) && Lists(nodes, tree) && forall n :: n in ordered <==> n in nodes
    ensures forall id :: id in tree ==> id in Handed(ordered, |ordered|)
  {
    forall id | id in tree
      ensures id in Handed(ordered, |ordered|)
    {
      assert tree[id] in nodes && tree[id] in ordered;
      var j :| 0 <= j < |ordered| && ordered[j] == tree[id];
      HandedBefore(ordered, |ordered|, j);
    }
  }

  /** The root, which every node descends from, holds the total of the whole tree. */
  lemma RootHoldsTreeTotal(tree: Tree, root: Id)
    requires IsTree(tree) && root in tree && forall id :: id in tree ==> id == root || HasParent(tree, id)
    ensures Subtree(tree, root) == tree.Keys
  {
    forall id | id in tree
      ensures Under(tree, root, id)
    {
      EveryoneIsUnderRoot(tree, root, id);
    }
  }

  lemma {:induction false} EveryoneIsUnderRoot(tree: Tree, root: Id, id: Id)
    requires IsTree(tree) && root in tree && id in tree
    requires forall id :: id in tree ==> id == root || HasParent(tree, id)
    ensures Under(tree, root, id)
    decreases tree[id].depth
  {
    if id != root {
      EveryoneIsUnderRoot(tree, root, tree[id].parent.value);
    }
  }
}

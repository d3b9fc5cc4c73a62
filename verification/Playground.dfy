/**
  The workflow canvas (core/playground.py): graphs of nodes and wires, their validation,
  and Kahn's algorithm with a sorted ready list.
*/
module Playground {
  import opened Wrappers
  import opened Ordering

  datatype Edge = Edge(src: string, srcPort: string, dst: string, dstPort: string)

  // ----- reachability ---------------------------------------------------------------

  ghost predicate IsEdge(edges: seq<Edge>, a: string, b: string) {
    exists e :: e in edges && e.src == a && e.dst == b
  }

  /** The direct predecessors of a node. */
  ghost function Preds(edges: seq<Edge>, n: string): set<string> {
    set e | e in edges && e.dst == n :: e.src
  }

  ghost predicate IsWalk(edges: seq<Edge>, p: seq<string>) {
    p != [] && forall i :: 0 <= i < |p| - 1 ==> IsEdge(edges, p[i], p[i + 1])
  }

  /** A walk from `a` to `b` along at least `least` wires. */
  ghost predicate Reaches(edges: seq<Edge>, a: string, b: string, least: nat) {
    exists p :: IsWalk(edges, p) && p[0] == a && p[|p| - 1] == b && |p| > least
  }

  ghost predicate OnCycle(edges: seq<Edge>, n: string) {
    Reaches(edges, n, n, 1)
  }

  /** On a cycle, or downstream of one. */
  ghost predicate FromCycle(edges: seq<Edge>, n: string) {
    exists c :: OnCycle(edges, c) && Reaches(edges, c, n, 0)
  }

  ghost predicate Acyclic(nodes: seq<string>, edges: seq<Edge>) {
    forall n :: n in nodes ==> !OnCycle(edges, n)
  }

  ghost predicate EndsKnown(nodes: seq<string>, edges: seq<Edge>) {
    forall e :: e in edges ==> e.src in nodes && e.dst in nodes
  }

  // ----- run orders -----------------------------------------------------------------

  /** Every node once, every wire pointing forward. */
  ghost predicate IsRunOrder(nodes: seq<string>, edges: seq<Edge>, order: seq<string>) {
    && NoDup(order) && Elems(order) == Elems(nodes)
    && forall i, j :: 0 <= i < |order| && 0 <= j < |order| && IsEdge(edges, order[i], order[j]) ==> i < j
  }

  /** Lists of strings in dictionary order. */
  ghost predicate AtMost(a: seq<string>, b: seq<string>) {
    a == b || exists k :: 0 <= k < |a| && k < |b| && a[..k] == b[..k] && Less(a[k], b[k])
  }

  /** The nodes whose predecessors have all been placed. */
  ghost function Ready(nodes: seq<string>, edges: seq<Edge>, placed: seq<string>): set<string> {
    set n | n in nodes && n !in placed && Preds(edges, n) <= Elems(placed)
  }

  /** Each node placed is the least one ready at its turn. */
  ghost predicate IsGreedy(nodes: seq<string>, edges: seq<Edge>, order: seq<string>) {
    forall k :: 0 <= k < |order| ==> IsLeast(order[k], Ready(nodes, edges, order[..k]))
  }

  lemma GreedyPlacesPredsFirst(nodes: seq<string>, edges: seq<Edge>, order: seq<string>, j: nat)
    requires IsGreedy(nodes, edges, order) && j < |order|
    ensures forall a :: IsEdge(edges, a, order[j]) ==> a in order[..j]
  {
    assert order[j] in Ready(nodes, edges, order[..j]);
    forall a | IsEdge(edges, a, order[j]) ensures a in order[..j] {
      assert a in Preds(edges, order[j]);
    }
  }

  lemma GreedyHasNoDup(nodes: seq<string>, edges: seq<Edge>, order: seq<string>)
    requires IsGreedy(nodes, edges, order)
    ensures NoDup(order) && Elems(order) <= Elems(nodes)
  {
    forall i, j | 0 <= i < j < |order| ensures order[i] != order[j] {
      assert order[j] in Ready(nodes, edges, order[..j]);
      assert order[i] in order[..j];
    }
    forall k | 0 <= k < |order| ensures order[k] in nodes {
      assert order[k] in Ready(nodes, edges, order[..k]);
    }
  }

  /** A greedy order of all nodes is a run order, and the first of them all. */
  lemma GreedyIsRunOrder(nodes: seq<string>, edges: seq<Edge>, order: seq<string>)
    requires IsGreedy(nodes, edges, order) && Elems(order) == Elems(nodes)
    ensures IsRunOrder(nodes, edges, order)
  {
    GreedyHasNoDup(nodes, edges, order);
    forall i, j | 0 <= i < |order| && 0 <= j < |order| && IsEdge(edges, order[i], order[j])
      ensures i < j
    {
      GreedyPlacesPredsFirst(nodes, edges, order, j);
      var i' :| 0 <= i' < j && order[..j][i'] == order[i];
      assert order[i'] == order[i];
    }
  }

  lemma GreedyIsFirst(nodes: seq<string>, edges: seq<Edge>, order: seq<string>, other: seq<string>)
    requires IsGreedy(nodes, edges, order) && Elems(order) == Elems(nodes)
    requires EndsKnown(nodes, edges) && IsRunOrder(nodes, edges, other)
    ensures AtMost(order, other)
  {
    GreedyHasNoDup(nodes, edges, order);
    SameLength(order, other);
    if order != other {
      var k := FirstDifference(order, other);
      assert other[k] !in other[..k];
      forall a | a in Preds(edges, other[k]) ensures a in order[..k] {
        var e :| e in edges && e.dst == other[k] && e.src == a;
        assert a in Elems(other);
        var i :| 0 <= i < |other| && other[i] == a;
        assert IsEdge(edges, other[i], other[k]);
        assert a == other[..k][i];
      }
      assert other[k] in Elems(other);
      assert other[k] in Ready(nodes, edges, order[..k]);
      assert IsLeast(order[k], Ready(nodes, edges, order[..k]));
    }
  }

  lemma SameLength(a: seq<string>, b: seq<string>)
    requires NoDup(a) && NoDup(b) && Elems(a) == Elems(b)
    ensures |a| == |b|
  {
    SizeOfElems(a);
    SizeOfElems(b);
  }

  lemma {:induction false} SizeOfElems(a: seq<string>)
    ensures NoDup(a) ==> |Elems(a)| == |a|
    ensures |Elems(a)| <= |a|
  {
    if a != [] {
      var n := |a| - 1;
      SizeOfElems(a[..n]);
      assert Elems(a) == Elems(a[..n]) + {a[n]};
    } else {
      assert Elems(a) == {};
    }
  }

  lemma FirstDifference(a: seq<string>, b: seq<string>) returns (k: nat)
    requires |a| == |b| && a != b
    ensures k < |a| && a[..k] == b[..k] && a[k] != b[k]
  {
    k := 0;
    while a[k] == b[k]
      invariant k < |a| && a[..k] == b[..k]
      invariant exists i :: k <= i < |a| && a[i] != b[i]
      decreases |a| - k
    {
      k := k + 1;
    }
  }

  // ----- what is left when nothing is ready -----------------------------------------

  /** Along a walk that ends in the order, each node stands before its successor. */
  lemma {:induction false} WalkStaysInOrder(nodes: seq<string>, edges: seq<Edge>, order: seq<string>, p: seq<string>,
                                            j: nat)
    returns (i: nat)
    requires IsGreedy(nodes, edges, order) && IsWalk(edges, p)
    requires j < |order| && order[j] == p[|p| - 1]
    ensures i + |p| <= j + 1 && order[i] == p[0]
  {
    if |p| == 1 {
      i := j;
    } else {
      var n := |p| - 1;
      assert IsEdge(edges, p[n - 1], p[n - 1 + 1]);
      GreedyPlacesPredsFirst(nodes, edges, order, j);
      var j' :| 0 <= j' < j && order[..j][j'] == p[n - 1];
      i := WalkStaysInOrder(nodes, edges, order, p[..n], j');
    }
  }

  lemma PlacedIsNotFromCycle(nodes: seq<string>, edges: seq<Edge>, order: seq<string>, n: string)
    requires IsGreedy(nodes, edges, order) && n in order
    ensures !FromCycle(edges, n)
  {
    if FromCycle(edges, n) {
      var c :| OnCycle(edges, c) && Reaches(edges, c, n, 0);
      var p :| IsWalk(edges, p) && p[0] == c && p[|p| - 1] == n;
      var q :| IsWalk(edges, q) && q[0] == c && q[|q| - 1] == c && |q| > 1;
      var j :| 0 <= j < |order| && order[j] == n;
      var i := WalkStaysInOrder(nodes, edges, order, p, j);
      var h := WalkStaysInOrder(nodes, edges, order, q, i);
      GreedyHasNoDup(nodes, edges, order);
    }
  }

  ghost predicate HasPredIn(edges: seq<Edge>, s: set<string>, n: string) {
    exists a :: a in s && IsEdge(edges, a, n)
  }

  ghost predicate NeverStarts(edges: seq<Edge>, s: set<string>) {
    forall n {:trigger HasPredIn(edges, s, n)} :: n in s ==> HasPredIn(edges, s, n)
  }

  /** Where every node of a set has a predecessor in the set, walks go back forever. */
  lemma {:induction false} WalkBack(edges: seq<Edge>, s: set<string>, n: string, length: nat) returns (p: seq<string>)
    requires n in s && NeverStarts(edges, s)
    ensures |p| == length + 1 && IsWalk(edges, p) && p[length] == n
    ensures forall k :: 0 <= k < |p| ==> p[k] in s
    decreases length
  {
    hide IsEdge;
    if length == 0 {
      p := [n];
    } else {
      assert HasPredIn(edges, s, n);
      var a :| a in s && IsEdge(edges, a, n);
      var q := WalkBack(edges, s, a, length - 1);
      p := q + [n];
    }
  }

  lemma StuckIsFromCycle(edges: seq<Edge>, s: set<string>, n: string)
    requires n in s && NeverStarts(edges, s)
    ensures FromCycle(edges, n)
  {
    hide IsEdge;
    var p := WalkBack(edges, s, n, |s|);
    var i, j := Pigeonhole(p, s);
    var loop, rest := p[i..j + 1], p[i..];
    assert IsWalk(edges, loop) && IsWalk(edges, rest);
    assert OnCycle(edges, p[i]);
    assert Reaches(edges, p[i], n, 0);
  }

  // ----- Kahn's algorithm -----------------------------------------------------------

  datatype GraphError =
    | UnknownType(node: string)
    | UnknownEnd(node: string)
    | NoOutput(node: string, port: string)
    | NoInput(node: string, port: string)
    | CannotWire(node: string, port: string)
    | AlreadyWired(node: string, port: string)
    | NotWired(node: string, port: string)
    | MissingParam(node: string, param: string)
    | Loops(node: string)

  /** The predecessors not placed yet, for every node. */
  ghost predicate Pending(deps: map<string, set<string>>, nodes: seq<string>, edges: seq<Edge>, placed: set<string>) {
    deps.Keys == Elems(nodes) && forall n :: n in nodes ==> deps[n] == Preds(edges, n) - placed
  }

  /** What the ready list holds: the free nodes not placed yet, each once. */
  ghost predicate ReadyList(ready: seq<string>, deps: map<string, set<string>>, order: seq<string>) {
    NoDup(ready) && forall n :: n in ready <==> n in deps && n !in order && deps[n] == {}
  }

  method Dependencies(nodes: seq<string>, edges: seq<Edge>) returns (deps: map<string, set<string>>)
    requires EndsKnown(nodes, edges)
    ensures Pending(deps, nodes, edges, {})
  {
    deps := map n | n in nodes :: {};
    for i := 0 to |edges|
      invariant Pending(deps, nodes, edges[..i], {})
    {
      assert edges[..i + 1] == edges[..i] + [edges[i]];
      deps := deps[edges[i].dst := deps[edges[i].dst] + {edges[i].src}];
    }
    assert edges[..|edges|] == edges;
  }

  /** Strikes `node` off every pending set, appending the nodes this frees. */
  method Release(nodes: seq<string>, edges: seq<Edge>, order: seq<string>, node: string,
                 deps0: map<string, set<string>>, ready0: seq<string>)
    returns (deps: map<string, set<string>>, ready: seq<string>)
    requires NoDup(nodes) && node in order && node in nodes
    requires Pending(deps0, nodes, edges, Elems(order) - {node}) && deps0[node] == {}
    requires ReadyList(ready0, deps0, order)
    ensures Pending(deps, nodes, edges, Elems(order)) && ReadyList(ready, deps, order)
  {
    deps, ready := deps0, ready0;
    for i := 0 to |nodes|
      invariant deps.Keys == Elems(nodes) && ReadyList(ready, deps, order)
      invariant forall k :: 0 <= k < i ==> deps[nodes[k]] == Preds(edges, nodes[k]) - Elems(order)
      invariant forall k :: i <= k < |nodes| ==> deps[nodes[k]] == Preds(edges, nodes[k]) - (Elems(order) - {node})
    {
      var other := nodes[i];
      if node in deps[other] {
        assert other !in ready;
        deps := deps[other := deps[other] - {node}];
        if deps[other] == {} && other !in order && other !in ready {
          ready := ready + [other];
        }
      }
    }
  }

  lemma ReadyListHolds(nodes: seq<string>, edges: seq<Edge>, ready: seq<string>, deps: map<string, set<string>>,
                       order: seq<string>)
    requires Pending(deps, nodes, edges, Elems(order)) && ReadyList(ready, deps, order)
    ensures Elems(ready) == Ready(nodes, edges, order)
  {
    forall n | n in nodes ensures n in ready <==> n in Ready(nodes, edges, order) {
      assert Preds(edges, n) <= (Preds(edges, n) - Elems(order)) + Elems(order);
    }
  }

  lemma SortKeepsReadyList(ready: seq<string>, deps: map<string, set<string>>, order: seq<string>)
    requires ReadyList(ready, deps, order)
    ensures ReadyList(Sort(ready), deps, order) && Sorted(Sort(ready))
  {
    SortIsSorted(ready);
    SameMultisetSameElems(ready, Sort(ready));
    PermutationKeepsNoDup(ready, Sort(ready));
  }

  method FreeNodes(nodes: seq<string>, deps: map<string, set<string>>) returns (free: seq<string>)
    requires NoDup(nodes) && deps.Keys == Elems(nodes)
    ensures ReadyList(free, deps, [])
  {
    free := [];
    for i := 0 to |nodes|
      invariant NoDup(free)
      invariant forall n :: n in free <==> n in nodes[..i] && deps[n] == {}
    {
      if deps[nodes[i]] == {} { free := free + [nodes[i]]; }
    }
  }

  /** A run order is returned if and only if nothing depends on its own output; it is then
      the first run order there is.  Otherwise the node named is the first of those that
      are on a cycle or downstream of one. */
  method Toposort(nodes: seq<string>, edges: seq<Edge>) returns (r: Result<seq<string>, GraphError>)
    requires NoDup(nodes) && EndsKnown(nodes, edges)
    ensures r.Ok? <==> Acyclic(nodes, edges)
    ensures r.Ok? ==> IsRunOrder(nodes, edges, r.value)
    ensures r.Ok? ==> forall other :: IsRunOrder(nodes, edges, other) ==> AtMost(r.value, other)
    ensures r.Err? ==> r.error.Loops? && IsLeast(r.error.node, FromCycles(nodes, edges))
  {
    hide *;
    var deps := Dependencies(nodes, edges);
    var order: seq<string> := [];
    NothingPlaced(nodes, edges);
    var free := FreeNodes(nodes, deps);
    SortKeepsReadyList(free, deps, order);
    var ready := Sort(free);
    while ready != []
      invariant IsGreedy(nodes, edges, order)
      invariant |order| <= |nodes|
      invariant Pending(deps, nodes, edges, Elems(order))
      invariant ReadyList(ready, deps, order) && Sorted(ready)
      decreases |nodes| - |order|
    {
      var node := ready[0];
      PlaceNext(nodes, edges, ready, deps, order);
      ready := ready[1..];
      order := order + [node];
      deps, ready := Release(nodes, edges, order, node, deps, ready);
      SortKeepsReadyList(ready, deps, order);
      ready := Sort(ready);
    }
    NothingReady(nodes, edges, deps, order);
    Verdict(nodes, edges, order);
    if |order| != |nodes| {
      var stuck := Sort(Remaining(nodes, order));
      HeadOfSorted(Remaining(nodes, order));
      r := Err(Loops(stuck[0]));
    } else {
      r := Ok(order);
    }
  }

  /** Popping the head of the ready list places the least ready node. */
  lemma PlaceNext(nodes: seq<string>, edges: seq<Edge>, ready: seq<string>, deps: map<string, set<string>>,
                  order: seq<string>)
    requires NoDup(nodes) && IsGreedy(nodes, edges, order) && Pending(deps, nodes, edges, Elems(order))
    requires ReadyList(ready, deps, order) && Sorted(ready) && ready != []
    ensures var node, placed := ready[0], order + [ready[0]];
            && node in nodes && node in placed
            && node in deps && deps[node] == {}
            && Pending(deps, nodes, edges, Elems(placed) - {node})
            && ReadyList(ready[1..], deps, placed)
            && IsGreedy(nodes, edges, placed) && |placed| <= |nodes|
  {
    hide IsGreedy;
    HeadIsLeast(ready);
    ReadyListHolds(nodes, edges, ready, deps, order);
    OneMorePlaced(nodes, edges, order, ready[0]);
    assert Elems(order + [ready[0]]) - {ready[0]} == Elems(order);
  }

  lemma NothingReady(nodes: seq<string>, edges: seq<Edge>, deps: map<string, set<string>>, order: seq<string>)
    requires Pending(deps, nodes, edges, Elems(order)) && ReadyList([], deps, order)
    ensures Ready(nodes, edges, order) == {}
  {
    ReadyListHolds(nodes, edges, [], deps, order);
  }

  lemma HeadOfSorted(s: seq<string>)
    ensures Elems(s) != {} ==> Sort(s) != [] && IsLeast(Sort(s)[0], Elems(s))
  {
    SortIsSorted(s);
    SameMultisetSameElems(s, Sort(s));
    if Elems(s) != {} {
      assert Elems(Sort(s)) == Elems(s);
      HeadIsLeast(Sort(s));
    }
  }

  lemma NothingPlaced(nodes: seq<string>, edges: seq<Edge>)
    ensures IsGreedy(nodes, edges, []) && Elems<string>([]) == {}
  {}

  ghost function FromCycles(nodes: seq<string>, edges: seq<Edge>): set<string> {
    set n | n in nodes && FromCycle(edges, n)
  }

  /** What it means that the algorithm stops with all, or not all, of the nodes placed. */
  lemma Verdict(nodes: seq<string>, edges: seq<Edge>, order: seq<string>)
    requires NoDup(nodes) && EndsKnown(nodes, edges)
    requires IsGreedy(nodes, edges, order) && Ready(nodes, edges, order) == {}
    ensures |order| == |nodes| <==> Acyclic(nodes, edges)
    ensures |order| == |nodes| ==> IsRunOrder(nodes, edges, order)
    ensures |order| == |nodes| ==> forall other :: IsRunOrder(nodes, edges, other) ==> AtMost(order, other)
    ensures Elems(Remaining(nodes, order)) == FromCycles(nodes, edges)
    ensures |order| != |nodes| ==> FromCycles(nodes, edges) != {}
  {
    hide IsGreedy, FromCycle, OnCycle, AtMost, IsRunOrder, Ready;
    GreedyHasNoDup(nodes, edges, order);
    StuckExactly(nodes, edges, order);
    SizeOfElems(order);
    SizeOfElems(nodes);
    if |order| == |nodes| {
      SameSizeSubset(Elems(order), Elems(nodes));
      GreedyIsRunOrder(nodes, edges, order);
      forall other | IsRunOrder(nodes, edges, other) ensures AtMost(order, other) {
        GreedyIsFirst(nodes, edges, order, other);
      }
      forall n | n in nodes ensures !OnCycle(edges, n) {
        assert n in Elems(order);
        if OnCycle(edges, n) { OnCycleIsFromCycle(edges, n); }
      }
    } else {
      assert Elems(nodes) != Elems(order);
      var n :| n in nodes && n !in order;
      SomeCycle(nodes, edges, n);
      assert n in FromCycles(nodes, edges);
    }
  }

  function Remaining(nodes: seq<string>, order: seq<string>): (rest: seq<string>)
    ensures forall n :: n in rest <==> n in nodes && n !in order
  {
    if nodes == [] then []
    else (if nodes[0] in order then [] else [nodes[0]]) + Remaining(nodes[1..], order)
  }

  lemma SameSizeSubset(a: set<string>, b: set<string>)
    requires a <= b && |a| == |b|
    ensures a == b
  {
    if x :| x in b && x !in a {
      assert a <= b - {x};
      SubsetSize(a, b - {x});
    }
  }

  lemma OneMorePlaced(nodes: seq<string>, edges: seq<Edge>, order: seq<string>, node: string)
    requires IsGreedy(nodes, edges, order) && IsLeast(node, Ready(nodes, edges, order))
    ensures IsGreedy(nodes, edges, order + [node]) && |order| < |nodes|
  {
    var more := order + [node];
    forall k | 0 <= k < |more| ensures IsLeast(more[k], Ready(nodes, edges, more[..k])) {
      if k < |order| {
        assert more[..k] == order[..k];
      } else {
        assert more[..k] == order;
      }
    }
    GreedyHasNoDup(nodes, edges, more);
    SizeOfElems(more);
    SizeOfElems(nodes);
    SubsetSize(Elems(more), Elems(nodes));
  }

  /** When nothing is ready, the nodes not placed are those on or downstream of a cycle. */
  lemma StuckExactly(nodes: seq<string>, edges: seq<Edge>, order: seq<string>)
    requires EndsKnown(nodes, edges)
    requires IsGreedy(nodes, edges, order) && Ready(nodes, edges, order) == {}
    ensures forall n :: n in nodes ==> (n !in order <==> FromCycle(edges, n))
  {
    var s := set n | n in nodes && n !in order;
    forall m | m in s ensures HasPredIn(edges, s, m) {
      assert m !in Ready(nodes, edges, order);
      var a :| a in Preds(edges, m) && a !in Elems(order);
      assert IsEdge(edges, a, m);
      assert a in s;
    }
    forall n | n in nodes ensures n !in order <==> FromCycle(edges, n) {
      if n in order {
        PlacedIsNotFromCycle(nodes, edges, order, n);
      } else {
        StuckIsFromCycle(edges, s, n);
      }
    }
  }

  lemma OnCycleIsFromCycle(edges: seq<Edge>, n: string)
    requires OnCycle(edges, n)
    ensures FromCycle(edges, n)
  {
    assert IsWalk(edges, [n]) && [n][0] == n && [n][|[n]| - 1] == n;
    assert Reaches(edges, n, n, 0);
  }

  /** Being downstream of a cycle means that some node of the graph is on one. */
  lemma SomeCycle(nodes: seq<string>, edges: seq<Edge>, n: string)
    requires EndsKnown(nodes, edges) && FromCycle(edges, n)
    ensures !Acyclic(nodes, edges)
  {
    var c :| OnCycle(edges, c) && Reaches(edges, c, n, 0);
    var q :| IsWalk(edges, q) && q[0] == c && q[|q| - 1] == c && |q| > 1;
    assert IsEdge(edges, q[0], q[0 + 1]);
    assert c in nodes;
  }

  /** The documentation promises a node of the cycle.  The node named is on a cycle exactly
      when every node merely downstream of one sorts after some node that is on one. */
  lemma NamedNodeIsOnCycleIff(nodes: seq<string>, edges: seq<Edge>, node: string)
    requires IsLeast(node, FromCycles(nodes, edges))
    ensures OnCycle(edges, node)
            <==> forall n :: n in nodes && FromCycle(edges, n) && !OnCycle(edges, n) ==>
                   exists c :: c in nodes && OnCycle(edges, c) && Less(c, n)
  {
    if !OnCycle(edges, node) && exists c :: c in nodes && OnCycle(edges, c) && Less(c, node) {
      var c :| c in nodes && OnCycle(edges, c) && Less(c, node);
      OnCycleIsFromCycle(edges, c);
      assert c in FromCycles(nodes, edges) && c != node;
      LessTransitive(c, node, c);
      LessIrreflexive(c);
    }
  }

  /** With wires b -> c -> b and b -> a, node a is named although it is on no cycle. */
  lemma NamedNodeMayBeDownstream()
    ensures var nodes := ["a", "b", "c"];
            var edges := Fork("b", "c", "a");
            && EndsKnown(nodes, edges)
            && IsLeast("a", FromCycles(nodes, edges)) && !OnCycle(edges, "a")
  {
    hide Fork, OnCycle, FromCycle;
    assert Less("a", "b") && Less("a", "c") && "a" != "b" && "a" != "c";
    ForkLeavesTheCycle("b", "c", "a");
    assert "a" in FromCycles(["a", "b", "c"], Fork("b", "c", "a"));
  }

  /** A cycle through `x` and `y`, with a wire from it to `z`. */
  ghost function Fork(x: string, y: string, z: string): seq<Edge> {
    [Edge(x, "o", y, "i"), Edge(y, "o", x, "i"), Edge(x, "o", z, "i")]
  }

  lemma ForkLeavesTheCycle(x: string, y: string, z: string)
    requires z != x && z != y
    ensures EndsKnown([z, x, y], Fork(x, y, z)) && FromCycle(Fork(x, y, z), z) && !OnCycle(Fork(x, y, z), z)
  {
    var edges := Fork(x, y, z);
    assert edges[0] in edges && edges[1] in edges && edges[2] in edges;
    assert IsEdge(edges, x, y) && IsEdge(edges, y, x) && IsEdge(edges, x, z);
    TwoCycle(edges, x, y, z);
    NoWayOut(edges, z);
  }

  lemma TwoCycle(edges: seq<Edge>, x: string, y: string, z: string)
    requires IsEdge(edges, x, y) && IsEdge(edges, y, x) && IsEdge(edges, x, z)
    ensures FromCycle(edges, z)
  {
    hide IsEdge;
    assert IsWalk(edges, [x, y, x]) && [x, y, x][0] == x;
    assert OnCycle(edges, x);
    assert IsWalk(edges, [x, z]) && [x, z][0] == x;
    assert Reaches(edges, x, z, 0);
  }

  lemma NoWayOut(edges: seq<Edge>, n: string)
    requires forall m :: !IsEdge(edges, n, m)
    ensures !OnCycle(edges, n)
  {
    hide IsEdge;
    forall p | IsWalk(edges, p) && |p| > 1 ensures p[0] != n {
      assert IsEdge(edges, p[0], p[0 + 1]);
    }
  }

  // ----- nodes, ports and validation ------------------------------------------------

  datatype PortType = Hosts | Urls | Records | Text | Json | Any

  datatype NodePort = NodePort(name: string, typ: PortType, required: bool)

  datatype NodeParam = NodeParam(name: string, required: bool)

  datatype Tier = PipelineTier | UtilityTier | SourceTier | OutputTier

  datatype NodeSpec = NodeSpec(tier: Tier, inputs: seq<NodePort>, outputs: seq<NodePort>, params: seq<NodeParam>)

  /** A node of the canvas: its type, if any, and the parameters that hold a truthy value. */
  datatype Node = Node(typ: Option<string>, given: set<string>)

  /** `ids` are the keys of the node dictionary, in its order. */
  datatype Graph = Graph(ids: seq<string>, node: map<string, Node>, edges: seq<Edge>)

  type Specs = map<string, NodeSpec>

  ghost predicate IsGraph(g: Graph) {
    NoDup(g.ids) && g.node.Keys == Elems(g.ids)
  }

  /** The first port of that name. */
  function FindPort(ports: seq<NodePort>, name: string): (port: Option<NodePort>)
    ensures port.None? <==> forall p :: p in ports ==> p.name != name
    ensures port.Some? ==> exists i :: 0 <= i < |ports| && ports[i] == port.value && port.value.name == name
                                       && forall j :: 0 <= j < i ==> ports[j].name != name
  {
    if ports == [] then None
    else if ports[0].name == name then Some(ports[0])
    else FindPort(ports[1..], name)
  }

  predicate KnownType(g: Graph, specs: Specs, n: string) {
    n in g.node && g.node[n].typ.Some? && g.node[n].typ.value in specs
  }

  function SpecOf(g: Graph, specs: Specs, n: string): NodeSpec
    requires KnownType(g, specs, n)
  {
    specs[g.node[n].typ.value]
  }

  predicate Compatible(out: PortType, inp: PortType) {
    out == inp || out == Any || inp == Any
  }

  /** A wire joins two sockets that exist and whose types fit. */
  ghost predicate Fits(g: Graph, specs: Specs, e: Edge) {
    && KnownType(g, specs, e.src) && KnownType(g, specs, e.dst)
    && var out := FindPort(SpecOf(g, specs, e.src).outputs, e.srcPort);
       var inp := FindPort(SpecOf(g, specs, e.dst).inputs, e.dstPort);
       out.Some? && inp.Some? && Compatible(out.value.typ, inp.value.typ)
  }

  /** Port `i` is the first of that name. */
  ghost predicate IsFirstNamed(ports: seq<NodePort>, name: string, i: int) {
    0 <= i < |ports| && ports[i].name == name && forall j :: 0 <= j < i ==> ports[j].name != name
  }

  /** A wire fits if and only if both ends have a known type, the source's type has an output
      of the one name and the target's an input of the other, and the kinds of data are the
      same or one of them takes anything. */
  lemma FitsIff(g: Graph, specs: Specs, e: Edge)
    ensures Fits(g, specs, e)
            <==> && e.src in g.node && g.node[e.src].typ.Some? && g.node[e.src].typ.value in specs
                 && e.dst in g.node && g.node[e.dst].typ.Some? && g.node[e.dst].typ.value in specs
                 && var outs := specs[g.node[e.src].typ.value].outputs;
                    var ins := specs[g.node[e.dst].typ.value].inputs;
                    exists i, j :: IsFirstNamed(outs, e.srcPort, i) && IsFirstNamed(ins, e.dstPort, j)
                                   && (outs[i].typ == ins[j].typ || Any in {outs[i].typ, ins[j].typ})
  {
    if KnownType(g, specs, e.src) && KnownType(g, specs, e.dst) {
      FirstNamed(SpecOf(g, specs, e.src).outputs, e.srcPort);
      FirstNamed(SpecOf(g, specs, e.dst).inputs, e.dstPort);
    }
  }

  lemma FirstNamed(ports: seq<NodePort>, name: string)
    ensures FindPort(ports, name).None? ==> forall i :: !IsFirstNamed(ports, name, i)
    ensures FindPort(ports, name).Some? ==>
              exists i :: IsFirstNamed(ports, name, i) && ports[i] == FindPort(ports, name).value
    ensures forall i, j :: IsFirstNamed(ports, name, i) && IsFirstNamed(ports, name, j) ==> i == j
  {
    var port := FindPort(ports, name);
    if port.Some? {
      var i :| 0 <= i < |ports| && ports[i] == port.value && port.value.name == name
               && forall j :: 0 <= j < i ==> ports[j].name != name;
      assert IsFirstNamed(ports, name, i);
    } else {
      forall i ensures !IsFirstNamed(ports, name, i) {
        assert 0 <= i < |ports| ==> ports[i] in ports;
      }
    }
  }

  ghost predicate Joins(g: Graph, specs: Specs, e: Edge) {
    e.src in g.ids && e.dst in g.ids && Fits(g, specs, e)
  }

  ghost predicate IsWired(edges: seq<Edge>, n: string, port: string) {
    exists e :: e in edges && e.dst == n && e.dstPort == port
  }

  ghost predicate SingleWires(edges: seq<Edge>) {
    forall i, j :: 0 <= i < j < |edges| ==> (edges[i].dst, edges[i].dstPort) != (edges[j].dst, edges[j].dstPort)
  }

  /** Nothing that the node needs is missing. */
  ghost predicate Supplied(g: Graph, specs: Specs, n: string)
    requires KnownType(g, specs, n)
  {
    && (forall p :: p in SpecOf(g, specs, n).inputs && p.required ==> IsWired(g.edges, n, p.name))
    && (forall p :: p in SpecOf(g, specs, n).params && p.required ==> p.name in g.node[n].given)
  }

  ghost predicate WellWired(g: Graph, specs: Specs) {
    && (forall n :: n in g.ids ==> KnownType(g, specs, n))
    && (forall e :: e in g.edges ==> Joins(g, specs, e))
    && SingleWires(g.edges)
    && (forall n :: n in g.ids ==> Supplied(g, specs, n))
  }

  /** The defect that an error reports is really there. */
  ghost predicate Blames(g: Graph, specs: Specs, error: GraphError) {
    match error
    case UnknownType(n) => n in g.ids && !KnownType(g, specs, n)
    case UnknownEnd(n) => n !in g.ids && exists e :: e in g.edges && (e.src == n || e.dst == n)
    case NoOutput(n, port) =>
      KnownType(g, specs, n) && FindPort(SpecOf(g, specs, n).outputs, port).None?
      && exists e :: e in g.edges && e.src == n && e.srcPort == port
    case NoInput(n, port) =>
      KnownType(g, specs, n) && FindPort(SpecOf(g, specs, n).inputs, port).None?
      && exists e :: e in g.edges && e.dst == n && e.dstPort == port
    case CannotWire(n, port) => exists e :: e in g.edges && e.dst == n && e.dstPort == port && !Fits(g, specs, e)
    case AlreadyWired(n, port) =>
      exists i, j :: 0 <= i < j < |g.edges| && g.edges[i].dst == n == g.edges[j].dst
                     && g.edges[i].dstPort == port == g.edges[j].dstPort
    case NotWired(n, port) => n in g.ids && !IsWired(g.edges, n, port)
    case MissingParam(n, param) => n in g.node && param !in g.node[n].given
    case Loops(n) => WellWired(g, specs) && IsLeast(n, FromCycles(g.ids, g.edges))
  }

  /** Checks one wire; `taken` says that its socket is already wired. */
  method CheckEdge(g: Graph, specs: Specs, e: Edge, taken: bool) returns (r: Option<GraphError>)
    requires IsGraph(g) && (forall n :: n in g.ids ==> KnownType(g, specs, n)) && e in g.edges
    ensures r.None? ==> Joins(g, specs, e) && !taken
    ensures r.Some? && !Joins(g, specs, e) ==> Blames(g, specs, r.value)
    ensures r.Some? && Joins(g, specs, e) ==> taken && r.value == AlreadyWired(e.dst, e.dstPort)
  {
    if e.src !in g.node { return Some(UnknownEnd(e.src)); }
    if e.dst !in g.node { return Some(UnknownEnd(e.dst)); }
    var out := FindPort(SpecOf(g, specs, e.src).outputs, e.srcPort);
    var inp := FindPort(SpecOf(g, specs, e.dst).inputs, e.dstPort);
    if out.None? { return Some(NoOutput(e.src, e.srcPort)); }
    if inp.None? { return Some(NoInput(e.dst, e.dstPort)); }
    if !Compatible(out.value.typ, inp.value.typ) { return Some(CannotWire(e.dst, e.dstPort)); }
    if taken { return Some(AlreadyWired(e.dst, e.dstPort)); }
    return None;
  }

  /** Checks the wires in order, recording which sockets are taken. */
  method CheckEdges(g: Graph, specs: Specs) returns (r: Result<map<(string, string), (string, string)>, GraphError>)
    requires IsGraph(g) && forall n :: n in g.ids ==> KnownType(g, specs, n)
    ensures r.Err? ==>
              Blames(g, specs, r.error)
              && !((forall e :: e in g.edges ==> Joins(g, specs, e)) && SingleWires(g.edges))
    ensures r.Ok? ==> && (forall e :: e in g.edges ==> Joins(g, specs, e)) && SingleWires(g.edges)
                      && forall n, port :: (n, port) in r.value <==> IsWired(g.edges, n, port)
  {
    hide Joins, KnownType, Fits;
    var incoming: map<(string, string), (string, string)> := map[];
    for i := 0 to |g.edges|
      invariant forall k :: 0 <= k < i ==> Joins(g, specs, g.edges[k])
      invariant SingleWires(g.edges[..i])
      invariant forall k :: 0 <= k < i ==> (g.edges[k].dst, g.edges[k].dstPort) in incoming
      invariant forall n, port :: (n, port) in incoming ==>
                  exists k :: 0 <= k < i && g.edges[k].dst == n && g.edges[k].dstPort == port
    {
      var e := g.edges[i];
      var bad := CheckEdge(g, specs, e, (e.dst, e.dstPort) in incoming);
      if bad.Some? { return Err(bad.value); }
      incoming := incoming[(e.dst, e.dstPort) := (e.src, e.srcPort)];
    }
    assert g.edges[..|g.edges|] == g.edges;
    return Ok(incoming);
  }

  /** Checks that one node has the inputs and parameters it needs. */
  method CheckNode(g: Graph, specs: Specs, n: string, incoming: map<(string, string), (string, string)>)
    returns (r: Option<GraphError>)
    requires n in g.ids && KnownType(g, specs, n)
    requires forall port :: (n, port) in incoming <==> IsWired(g.edges, n, port)
    ensures r.None? <==> Supplied(g, specs, n)
    ensures r.Some? ==> Blames(g, specs, r.value)
  {
    var spec := SpecOf(g, specs, n);
    for i := 0 to |spec.inputs|
      invariant forall k :: 0 <= k < i && spec.inputs[k].required ==> IsWired(g.edges, n, spec.inputs[k].name)
    {
      var port := spec.inputs[i];
      if port.required && (n, port.name) !in incoming {
        assert port in spec.inputs;
        return Some(NotWired(n, port.name));
      }
    }
    for i := 0 to |spec.params|
      invariant forall k :: 0 <= k < i && spec.params[k].required ==> spec.params[k].name in g.node[n].given
    {
      var param := spec.params[i];
      if param.required && param.name !in g.node[n].given {
        assert param in spec.params;
        return Some(MissingParam(n, param.name));
      }
    }
    return None;
  }

  /** A graph passes if and only if it is well wired and acyclic; a refusal names a real defect. */
  method Validate(g: Graph, specs: Specs) returns (r: Result<seq<string>, GraphError>)
    requires IsGraph(g)
    ensures r.Ok? <==> WellWired(g, specs) && Acyclic(g.ids, g.edges)
    ensures r.Ok? ==> IsRunOrder(g.ids, g.edges, r.value)
    ensures r.Ok? ==> forall other :: IsRunOrder(g.ids, g.edges, other) ==> AtMost(r.value, other)
    ensures r.Err? ==> Blames(g, specs, r.error)
  {
    hide Acyclic, IsRunOrder, AtMost, Fits, Supplied, FromCycles, SingleWires, IsLeast;
    for i := 0 to |g.ids|
      invariant forall k :: 0 <= k < i ==> KnownType(g, specs, g.ids[k])
    {
      if !KnownType(g, specs, g.ids[i]) { return Err(UnknownType(g.ids[i])); }
    }
    var wires := CheckEdges(g, specs);
    if wires.Err? { return Err(wires.error); }
    for i := 0 to |g.ids|
      invariant forall k :: 0 <= k < i ==> Supplied(g, specs, g.ids[k])
    {
      var bad := CheckNode(g, specs, g.ids[i], wires.value);
      if bad.Some? { return Err(bad.value); }
    }
    r := Toposort(g.ids, g.edges);
  }
}

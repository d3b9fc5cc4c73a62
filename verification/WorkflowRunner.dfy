/**
  The workflow runner (pipelines/playground.py): nodes run in the validated order, a
  failure skips everything downstream of it, and independent branches still run.
*/
module WorkflowRunner {
  import opened Wrappers
  import opened Ordering
  import opened Playground

  /** What running one node came to; a timeout, a refusal and an error all count as raised. */
  datatype Outcome<V> = Produced(ports: map<string, V>) | Raised

  datatype Status = Success | Failed | Skipped

  datatype Report<V> = Report(order: seq<string>, status: map<string, Status>, outputs: map<string, map<string, V>>)

  datatype Refusal = Invalid(error: GraphError) | Denied

  type Wires = map<string, map<string, (string, string)>>

  const TARGET := "source:target"

  /** `wired[n][port]` is the source of the wire into that socket. */
  ghost predicate IsWiring(g: Graph, edges: seq<Edge>, wired: Wires) {
    && wired.Keys == Elems(g.ids)
    && (forall e :: e in edges ==>
          e.dst in wired && e.dstPort in wired[e.dst] && wired[e.dst][e.dstPort] == (e.src, e.srcPort))
    && (forall n, port :: n in wired && port in wired[n] ==>
          exists e :: e in edges && e.dst == n && e.dstPort == port)
  }

  method Incoming(g: Graph) returns (wired: Wires)
    requires EndsKnown(g.ids, g.edges) && SingleWires(g.edges)
    ensures IsWiring(g, g.edges, wired)
  {
    wired := map n | n in g.ids :: map[];
    for i := 0 to |g.edges|
      invariant IsWiring(g, g.edges[..i], wired)
    {
      var e := g.edges[i];
      assert g.edges[..i + 1] == g.edges[..i] + [e];
      wired := wired[e.dst := wired[e.dst][e.dstPort := (e.src, e.srcPort)]];
    }
    assert g.edges[..|g.edges|] == g.edges;
  }

  /** What the wires carry into a node; a port its source did not produce carries nothing. */
  function InputsOf<V>(upstream: map<string, (string, string)>, outputs: map<string, map<string, V>>)
    : map<string, Option<V>>
    requires forall port :: port in upstream ==> upstream[port].0 in outputs
  {
    map port | port in upstream ::
      var (src, srcPort) := upstream[port];
      if srcPort in outputs[src] then Some(outputs[src][srcPort]) else None
  }

  ghost predicate AllFed<V>(upstream: map<string, (string, string)>, outputs: map<string, map<string, V>>) {
    forall port :: port in upstream ==> upstream[port].0 in outputs
  }

  /** A node is skipped when a direct predecessor did not succeed. */
  ghost predicate LocalRule(edges: seq<Edge>, status: map<string, Status>) {
    forall n :: n in status ==>
      && (forall a :: IsEdge(edges, a, n) ==> a in status)
      && (status[n] == Skipped <==> exists a :: IsEdge(edges, a, n) && status[a] != Success)
  }

  /** A node that ran has the status of its own run on what the outputs feed it. */
  ghost predicate Flows<V>(upstream: map<string, (string, string)>,
                           exec: (string, map<string, Option<V>>) -> Outcome<V>,
                           n: string, st: Status, outputs: map<string, map<string, V>>) {
    && (st == Success <==> n in outputs)
    && (st != Skipped ==>
          && AllFed(upstream, outputs)
          && exec(n, InputsOf(upstream, outputs)) == if n in outputs then Produced(outputs[n]) else Raised)
  }

  ghost predicate IsDataflow<V>(wired: Wires, exec: (string, map<string, Option<V>>) -> Outcome<V>,
                                status: map<string, Status>, outputs: map<string, map<string, V>>) {
    && status.Keys <= wired.Keys && outputs.Keys <= status.Keys
    && forall n :: n in status ==> Flows(wired[n], exec, n, status[n], outputs)
  }

  /** The sockets of `n` that are wired. */
  ghost function Sockets(edges: seq<Edge>, n: string): set<string> {
    set e | e in edges && e.dst == n :: e.dstPort
  }

  /** Node by node, `ins` is what the nodes that ran were handed: for each wired socket what
      the wire's source produced under the wire's source port, or nothing; and what they made
      of it are the outputs. */
  ghost predicate RanOn<V>(edges: seq<Edge>, exec: (string, map<string, Option<V>>) -> Outcome<V>,
                           status: map<string, Status>, outputs: map<string, map<string, V>>,
                           ins: map<string, map<string, Option<V>>>) {
    && (forall n :: n in ins <==> n in status && status[n] != Skipped)
    && (forall n :: n in outputs <==> n in status && status[n] == Success)
    && (forall n :: n in ins ==> ins[n].Keys == Sockets(edges, n))
    && (forall n :: n in ins ==> exec(n, ins[n]) == if n in outputs then Produced(outputs[n]) else Raised)
    && (forall e :: e in edges && e.dst in ins && e.dstPort in ins[e.dst] ==>
          e.src in outputs
          && ins[e.dst][e.dstPort] == if e.srcPort in outputs[e.src] then Some(outputs[e.src][e.srcPort]) else None)
  }

  lemma DataflowRan<V>(g: Graph, wired: Wires, exec: (string, map<string, Option<V>>) -> Outcome<V>,
                       status: map<string, Status>, outputs: map<string, map<string, V>>)
    requires IsWiring(g, g.edges, wired) && IsDataflow(wired, exec, status, outputs)
    ensures exists ins :: RanOn(g.edges, exec, status, outputs, ins)
  {
    forall n | n in status && status[n] != Skipped ensures AllFed(wired[n], outputs) {
      assert Flows(wired[n], exec, n, status[n], outputs);
    }
    var ins := map n | n in status && status[n] != Skipped :: InputsOf(wired[n], outputs);
    forall n | n in ins
      ensures ins[n].Keys == Sockets(g.edges, n)
      ensures exec(n, ins[n]) == if n in outputs then Produced(outputs[n]) else Raised
    {
      assert Flows(wired[n], exec, n, status[n], outputs);
    }
    forall n ensures n in outputs <==> n in status && status[n] == Success {
      if n in status { assert Flows(wired[n], exec, n, status[n], outputs); }
    }
    assert RanOn(g.edges, exec, status, outputs, ins);
  }

  lemma FlowsKeeps<V>(upstream: map<string, (string, string)>, exec: (string, map<string, Option<V>>) -> Outcome<V>,
                      n: string, st: Status, outputs: map<string, map<string, V>>, m: string, ports: map<string, V>)
    requires Flows(upstream, exec, n, st, outputs) && m !in outputs && n != m
    ensures Flows(upstream, exec, n, st, outputs[m := ports])
  {
    if st != Skipped {
      assert InputsOf(upstream, outputs[m := ports]) == InputsOf(upstream, outputs);
    }
  }

  lemma DataflowKeeps<V>(wired: Wires, exec: (string, map<string, Option<V>>) -> Outcome<V>,
                         status: map<string, Status>, outputs: map<string, map<string, V>>, n: string,
                         ports: map<string, V>)
    requires IsDataflow(wired, exec, status, outputs) && n in wired && n !in status
    requires Flows(wired[n], exec, n, Success, outputs[n := ports])
    ensures IsDataflow(wired, exec, status[n := Success], outputs[n := ports])
  {
    hide Flows;
    forall m | m in status ensures Flows(wired[m], exec, m, status[m], outputs[n := ports]) {
      FlowsKeeps(wired[m], exec, m, status[m], outputs, n, ports);
    }
  }

  lemma DataflowKeepsUnproduced<V>(wired: Wires, exec: (string, map<string, Option<V>>) -> Outcome<V>,
                                   status: map<string, Status>, outputs: map<string, map<string, V>>, n: string,
                                   st: Status)
    requires IsDataflow(wired, exec, status, outputs) && n in wired && n !in status
    requires Flows(wired[n], exec, n, st, outputs)
    ensures IsDataflow(wired, exec, status[n := st], outputs)
  {
    hide Flows;
  }

  lemma FlowsNow<V>(upstream: map<string, (string, string)>, exec: (string, map<string, Option<V>>) -> Outcome<V>,
                    n: string, outputs: map<string, map<string, V>>)
    requires n !in outputs
    ensures Flows(upstream, exec, n, Skipped, outputs)
    ensures AllFed(upstream, outputs) && exec(n, InputsOf(upstream, outputs)).Raised? ==>
              Flows(upstream, exec, n, Failed, outputs)
    ensures AllFed(upstream, outputs) && exec(n, InputsOf(upstream, outputs)).Produced?
            && (forall port :: port in upstream ==> upstream[port].0 != n) ==>
              Flows(upstream, exec, n, Success, outputs[n := exec(n, InputsOf(upstream, outputs)).ports])
  {
    if AllFed(upstream, outputs) && exec(n, InputsOf(upstream, outputs)).Produced? {
      var ports := exec(n, InputsOf(upstream, outputs)).ports;
      assert InputsOf(upstream, outputs[n := ports]) == InputsOf(upstream, outputs);
    }
  }

  lemma RuleKeeps(edges: seq<Edge>, status: map<string, Status>, n: string, st: Status)
    requires LocalRule(edges, status) && n !in status
    requires forall a :: IsEdge(edges, a, n) ==> a in status
    requires st == Skipped <==> exists a :: IsEdge(edges, a, n) && status[a] != Success
    ensures LocalRule(edges, status[n := st])
  {
    hide IsEdge;
    forall m | m in status ensures !IsEdge(edges, n, m) {}
  }

  /** Along a walk, what starts at a failure ends at a skipped node. */
  lemma {:induction false} FailureSkips(edges: seq<Edge>, status: map<string, Status>, p: seq<string>)
    requires LocalRule(edges, status) && IsWalk(edges, p) && |p| > 1
    requires p[0] in status && status[p[0]] == Failed && p[|p| - 1] in status
    ensures status[p[|p| - 1]] == Skipped
  {
    hide IsEdge;
    var n := |p| - 1;
    assert IsEdge(edges, p[n - 1], p[n - 1 + 1]);
    if |p| > 2 {
      FailureSkips(edges, status, p[..n]);
    }
  }

  /** A skipped node has a failed one among its ancestors. */
  lemma {:induction false} SkippedFrom(edges: seq<Edge>, nodes: seq<string>, order: seq<string>,
                                       status: map<string, Status>, j: nat)
    requires LocalRule(edges, status) && IsRunOrder(nodes, edges, order) && status.Keys == Elems(order)
    requires j < |order| && status[order[j]] == Skipped
    ensures exists a :: a in status && status[a] == Failed && Reaches(edges, a, order[j], 1)
    decreases j
  {
    hide IsEdge;
    var a :| IsEdge(edges, a, order[j]) && status[a] != Success;
    assert a in Elems(order);
    var i :| 0 <= i < |order| && order[i] == a;
    if status[a] == Failed {
      var p := [a, order[j]];
      assert IsWalk(edges, p) && p[0] == a;
      assert Reaches(edges, a, order[j], 1);
    } else {
      SkippedFrom(edges, nodes, order, status, i);
      var c :| c in status && status[c] == Failed && Reaches(edges, c, a, 1);
      OneWireMore(edges, c, a, order[j]);
    }
  }

  lemma OneWireMore(edges: seq<Edge>, c: string, a: string, n: string)
    requires Reaches(edges, c, a, 1) && IsEdge(edges, a, n)
    ensures Reaches(edges, c, n, 1)
  {
    hide IsEdge;
    var p :| IsWalk(edges, p) && p[0] == c && p[|p| - 1] == a && |p| > 1;
    var q := p + [n];
    forall i | 0 <= i < |q| - 1 ensures IsEdge(edges, q[i], q[i + 1]) {
      if i + 1 < |p| { assert IsEdge(edges, p[i], p[i + 1]); }
    }
    assert IsWalk(edges, q);
  }

  lemma StatusByAncestors(nodes: seq<string>, edges: seq<Edge>, order: seq<string>, status: map<string, Status>,
                          n: string)
    requires LocalRule(edges, status) && IsRunOrder(nodes, edges, order) && status.Keys == Elems(order)
    requires EndsKnown(nodes, edges) && n in status
    ensures status[n] == Skipped <==> exists a :: a in status && status[a] == Failed && Reaches(edges, a, n, 1)
    ensures status[n] != Skipped <==> forall a :: a in status && Reaches(edges, a, n, 1) ==> status[a] == Success
  {
    hide LocalRule, IsRunOrder, EndsKnown;
    if status[n] == Skipped {
      var j :| 0 <= j < |order| && order[j] == n;
      SkippedFrom(edges, nodes, order, status, j);
    } else {
      forall a | a in status && Reaches(edges, a, n, 1) ensures status[a] == Success {
        if status[a] == Failed {
          ReachedIsSkipped(edges, status, a, n);
        } else if status[a] == Skipped {
          var j :| 0 <= j < |order| && order[j] == a;
          SkippedFrom(edges, nodes, order, status, j);
          var c :| c in status && status[c] == Failed && Reaches(edges, c, a, 1);
          ReachesThrough(edges, c, a, n);
          ReachedIsSkipped(edges, status, c, n);
        }
      }
    }
  }

  lemma ReachedIsSkipped(edges: seq<Edge>, status: map<string, Status>, a: string, n: string)
    requires LocalRule(edges, status) && a in status && n in status && status[a] == Failed && Reaches(edges, a, n, 1)
    ensures status[n] == Skipped
  {
    var p :| IsWalk(edges, p) && p[0] == a && p[|p| - 1] == n && |p| > 1;
    FailureSkips(edges, status, p);
  }

  lemma ReachesThrough(edges: seq<Edge>, c: string, a: string, n: string)
    requires Reaches(edges, c, a, 1) && Reaches(edges, a, n, 1)
    ensures Reaches(edges, c, n, 1)
  {
    hide IsEdge;
    var p :| IsWalk(edges, p) && p[0] == c && p[|p| - 1] == a && |p| > 1;
    var q :| IsWalk(edges, q) && q[0] == a && q[|q| - 1] == n && |q| > 1;
    var w := p + q[1..];
    forall i | 0 <= i < |w| - 1 ensures IsEdge(edges, w[i], w[i + 1]) {
      if i + 1 < |p| {
        assert IsEdge(edges, p[i], p[i + 1]);
      } else {
        var k := i - |p| + 1;
        assert IsEdge(edges, q[k], q[k + 1]);
      }
    }
    assert IsWalk(edges, w);
  }

  /** The wires into `n` and the edges into `n` say the same about its predecessors. */
  lemma WiresAreEdges(g: Graph, wired: Wires, n: string)
    requires IsWiring(g, g.edges, wired) && n in wired
    ensures forall port :: port in wired[n] ==> IsEdge(g.edges, wired[n][port].0, n)
    ensures forall a :: IsEdge(g.edges, a, n) ==> exists port :: port in wired[n] && wired[n][port].0 == a
  {
    forall a | IsEdge(g.edges, a, n) ensures exists port :: port in wired[n] && wired[n][port].0 == a {
      var e :| e in g.edges && e.src == a && e.dst == n;
      assert wired[n][e.dstPort].0 == a;
    }
  }

  /** Every node of a graph that passes validation ends as a success, a failure or skipped:
      skipped exactly when some proper ancestor failed, run exactly when all of them
      succeeded, and then on the outputs of its sources. */
  method RunWorkflow<V>(g: Graph, specs: Specs, isOwner: bool, exec: (string, map<string, Option<V>>) -> Outcome<V>)
    returns (r: Result<Report<V>, Refusal>)
    requires IsGraph(g)
    ensures r.Err? <==> !(WellWired(g, specs) && Acyclic(g.ids, g.edges))
                        || (!isOwner && exists n :: n in g.ids && g.node[n].typ == Some(TARGET))
    ensures r.Ok? ==> IsRunOrder(g.ids, g.edges, r.value.order) && r.value.status.Keys == Elems(g.ids)
    ensures r.Ok? ==> forall n :: n in g.ids ==>
              (r.value.status[n] == Skipped <==>
               exists a :: a in r.value.status && r.value.status[a] == Failed && Reaches(g.edges, a, n, 1))
    ensures r.Ok? ==> forall n :: n in g.ids ==>
              (r.value.status[n] != Skipped <==>
               forall a :: a in r.value.status && Reaches(g.edges, a, n, 1) ==> r.value.status[a] == Success)
    ensures r.Ok? ==>
              exists wired :: IsWiring(g, g.edges, wired) && IsDataflow(wired, exec, r.value.status, r.value.outputs)
    ensures r.Ok? ==> exists ins :: RanOn(g.edges, exec, r.value.status, r.value.outputs, ins)
  {
    hide Acyclic, AtMost, Fits, Supplied, RanOn;
    var valid := Validate(g, specs);
    if valid.Err? { return Err(Invalid(valid.error)); }
    var order := valid.value;
    var wired := Incoming(g);
    var freeform := false;
    for i := 0 to |g.ids|
      invariant freeform <==> exists k :: 0 <= k < i && g.node[g.ids[k]].typ == Some(TARGET)
    {
      freeform := freeform || g.node[g.ids[i]].typ == Some(TARGET);
    }
    if freeform && !isOwner { return Err(Denied); }
    var status, outputs := RunNodes(g, order, wired, exec);
    forall n | n in g.ids
      ensures status[n] == Skipped <==> exists a :: a in status && status[a] == Failed && Reaches(g.edges, a, n, 1)
      ensures status[n] != Skipped <==> forall a :: a in status && Reaches(g.edges, a, n, 1) ==> status[a] == Success
    {
      StatusByAncestors(g.ids, g.edges, order, status, n);
    }
    DataflowRan(g, wired, exec, status, outputs);
    r := Ok(Report(order, status, outputs));
  }

  method RunNodes<V>(g: Graph, order: seq<string>, wired: Wires, exec: (string, map<string, Option<V>>) -> Outcome<V>)
    returns (status: map<string, Status>, outputs: map<string, map<string, V>>)
    requires IsGraph(g) && EndsKnown(g.ids, g.edges)
    requires IsRunOrder(g.ids, g.edges, order) && IsWiring(g, g.edges, wired)
    ensures status.Keys == Elems(g.ids) && LocalRule(g.edges, status)
    ensures IsDataflow(wired, exec, status, outputs)
  {
    hide IsEdge, Flows, IsDataflow, IsRunOrder, IsWiring, EndsKnown, LocalRule, InputsOf;
    status, outputs := map[], map[];
    NoStatus(g, order, wired, exec);
    for i := 0 to |order|
      invariant status.Keys == Elems(order[..i])
      invariant LocalRule(g.edges, status)
      invariant IsDataflow(wired, exec, status, outputs)
    {
      var node := order[i];
      assert order[..i + 1] == order[..i] + [node];
      SourcesRanBefore(g, order, wired, i);
      SuccessesProduced(wired, exec, status, outputs);
      var upstream := wired[node];
      WiresAreEdges(g, wired, node);
      FlowsNow(upstream, exec, node, outputs);
      if exists port :: port in upstream && status[upstream[port].0] != Success {
        RuleKeeps(g.edges, status, node, Skipped);
        DataflowKeepsUnproduced(wired, exec, status, outputs, node, Skipped);
        status := status[node := Skipped];
      } else {
        var out := exec(node, InputsOf(upstream, outputs));
        match out {
          case Produced(ports) =>
            RuleKeeps(g.edges, status, node, Success);
            DataflowKeeps(wired, exec, status, outputs, node, ports);
            status, outputs := status[node := Success], outputs[node := ports];
          case Raised =>
            RuleKeeps(g.edges, status, node, Failed);
            DataflowKeepsUnproduced(wired, exec, status, outputs, node, Failed);
            status := status[node := Failed];
        }
      }
    }
    assert order[..|order|] == order;
  }

  lemma NoStatus<V>(g: Graph, order: seq<string>, wired: Wires, exec: (string, map<string, Option<V>>) -> Outcome<V>)
    requires IsRunOrder(g.ids, g.edges, order)
    ensures Elems(order) == Elems(g.ids)
    ensures LocalRule(g.edges, map[]) && IsDataflow(wired, exec, map[], map[])
  {}

  lemma SuccessesProduced<V>(wired: Wires, exec: (string, map<string, Option<V>>) -> Outcome<V>,
                             status: map<string, Status>, outputs: map<string, map<string, V>>)
    requires IsDataflow(wired, exec, status, outputs)
    ensures outputs.Keys <= status.Keys
    ensures forall n :: n in status ==> (status[n] == Success <==> n in outputs)
  {}

  lemma SourcesRanBefore(g: Graph, order: seq<string>, wired: Wires, i: nat)
    requires IsWiring(g, g.edges, wired)
    requires EndsKnown(g.ids, g.edges) && IsRunOrder(g.ids, g.edges, order) && i < |order|
    ensures forall a :: IsEdge(g.edges, a, order[i]) ==> a in order[..i]
    ensures order[i] !in order[..i] && order[i] in wired
  {
    assert order[i] in Elems(order);
    forall a | IsEdge(g.edges, a, order[i]) ensures a in order[..i] {
      assert a in Elems(order);
      var k :| 0 <= k < |order| && order[k] == a;
      assert IsEdge(g.edges, order[k], order[i]);
      assert order[..i][k] == a;
    }
  }

  // ----- who runs under the ephemeral scope -----------------------------------------

  /** Repetitions dropped, first occurrences kept in place. */
  function Dedup(s: seq<string>): seq<string> {
    if s == [] then []
    else
      var d, x := Dedup(s[..|s| - 1]), s[|s| - 1];
      if x in d then d else d + [x]
  }

  lemma {:induction false} DedupKeepsMembers(s: seq<string>)
    ensures NoDup(Dedup(s)) && forall x :: x in Dedup(s) <==> x in s
  {
    if s != [] {
      DedupKeepsMembers(s[..|s| - 1]);
    }
  }

  /** The hosts one wire brings straight from a Target node; none from any other node. */
  function HostsOver<V>(g: Graph, outputs: map<string, map<string, V>>, hostsOf: V -> seq<string>,
                        e: Edge): seq<string> {
    if e.src in g.node && g.node[e.src].typ == Some(TARGET) && e.src in outputs && e.srcPort in outputs[e.src]
    then hostsOf(outputs[e.src][e.srcPort])
    else []
  }

  /** What the wires into `n` bring, in the order in which they were drawn. */
  function Brought<V>(g: Graph, edges: seq<Edge>, n: string, outputs: map<string, map<string, V>>,
                      hostsOf: V -> seq<string>): seq<string> {
    if edges == [] then []
    else
      var front, e := Brought(g, edges[..|edges| - 1], n, outputs, hostsOf), edges[|edges| - 1];
      if e.dst == n then front + HostsOver(g, outputs, hostsOf, e) else front
  }

  method FreeformHosts<V>(g: Graph, n: string, outputs: map<string, map<string, V>>, hostsOf: V -> seq<string>)
    returns (hosts: seq<string>)
    ensures hosts == Dedup(Brought(g, g.edges, n, outputs, hostsOf))
  {
    hosts := [];
    for i := 0 to |g.edges|
      invariant hosts == Brought(g, g.edges[..i], n, outputs, hostsOf)
    {
      assert g.edges[..i + 1][..i] == g.edges[..i];
      if g.edges[i].dst == n {
        hosts := hosts + HostsOver(g, outputs, hostsOf, g.edges[i]);
      }
    }
    assert g.edges[..|g.edges|] == g.edges;
    hosts := Dedup(hosts);
  }

  lemma {:induction false} BroughtMembers<V>(g: Graph, edges: seq<Edge>, n: string,
                                             outputs: map<string, map<string, V>>, hostsOf: V -> seq<string>, h: string)
    ensures h in Brought(g, edges, n, outputs, hostsOf)
            <==> exists e :: e in edges && e.dst == n && h in HostsOver(g, outputs, hostsOf, e)
  {
    hide HostsOver;
    if edges != [] {
      var front, e := edges[..|edges| - 1], edges[|edges| - 1];
      BroughtMembers(g, front, n, outputs, hostsOf, h);
      assert edges == front + [e];
    }
  }

  /** The waiver does not spread: a host reaches a node this way exactly when a wire drawn
      straight from a Target node brings it, and each host once, where first brought. */
  lemma OnlyDirectWiresWaive<V>(g: Graph, n: string, outputs: map<string, map<string, V>>, hostsOf: V -> seq<string>)
    ensures var hosts := Dedup(Brought(g, g.edges, n, outputs, hostsOf));
            && NoDup(hosts)
            && forall h :: h in hosts <==>
                 exists e :: e in g.edges && e.dst == n && e.src in g.node && g.node[e.src].typ == Some("source:target")
                             && e.src in outputs && e.srcPort in outputs[e.src]
                             && h in hostsOf(outputs[e.src][e.srcPort])
  {
    DedupKeepsMembers(Brought(g, g.edges, n, outputs, hostsOf));
    forall h ensures h in Brought(g, g.edges, n, outputs, hostsOf)
                     <==> exists e :: e in g.edges && e.dst == n && h in HostsOver(g, outputs, hostsOf, e)
    {
      BroughtMembers(g, g.edges, n, outputs, hostsOf, h);
    }
  }

  /** What comes later never moves what came first. */
  lemma {:induction false} DedupKeepsOrder(s: seq<string>, t: seq<string>)
    ensures Dedup(s) <= Dedup(s + t)
  {
    if t == [] {
      assert s + t == s;
    } else {
      DedupKeepsOrder(s, t[..|t| - 1]);
      assert (s + t)[..|s + t| - 1] == s + t[..|t| - 1];
    }
  }
}

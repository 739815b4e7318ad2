/** The memory graph and its writers (cryptoswarms/memory_dag.py, agents/orchestration/dag_memory_bridge.py,
    cryptoswarms/dag_summarizer.py).

    Node ids are digests; they enter as arbitrary non-empty strings, so that collisions are covered. */
module MemoryDag {
  import opened Common
  import opened StableSort

  /** An aware datetime: comparisons and sorts look at the instant only. */
  datatype Stamp = Stamp(instant: real, offset: int)

  datatype Node = Node(
    id: string, nodeType: string, topic: string, content: string, createdAt: Stamp, metadata: map<string, string>)

  datatype Edge = Edge(from: string, to: string)

  /** `order` is the insertion order of the dict `nodes`; overwriting a key keeps its place. */
  datatype Graph = Graph(order: seq<string>, nodes: map<string, Node>, edges: seq<Edge>)

  const EMPTY_GRAPH := Graph([], map[], [])

  // ---------------------------------------------------------------- paths

  ghost predicate IsPath(edges: seq<Edge>, p: seq<string>) {
    |p| > 0 && forall i :: 0 <= i < |p| - 1 ==> Edge(p[i], p[i + 1]) in edges
  }

  ghost predicate PathFromTo(edges: seq<Edge>, p: seq<string>, a: string, b: string) {
    IsPath(edges, p) && p[0] == a && p[|p| - 1] == b
  }

  ghost predicate Reaches(edges: seq<Edge>, a: string, b: string) {
    exists p :: PathFromTo(edges, p, a, b)
  }

  ghost predicate Acyclic(edges: seq<Edge>) {
    forall p :: IsPath(edges, p) && |p| > 1 ==> p[0] != p[|p| - 1]
  }

  /** The first step of a path that is the edge `e`. */
  lemma {:induction false} FirstUse(edges: seq<Edge>, e: Edge, p: seq<string>, n: nat) returns (j: nat)
    requires IsPath(edges + [e], p) && n < |p|
    requires exists i :: 0 <= i < n && Edge(p[i], p[i + 1]) == e
    ensures j < n && Edge(p[j], p[j + 1]) == e
    ensures forall i :: 0 <= i < j ==> Edge(p[i], p[i + 1]) in edges
  {
    if i :| 0 <= i < n - 1 && Edge(p[i], p[i + 1]) == e {
      j := FirstUse(edges, e, p, n - 1);
    } else {
      j := n - 1;
    }
  }

  /** The last step of a path that is the edge `e`, searching from step n on. */
  lemma {:induction false} LastUse(edges: seq<Edge>, e: Edge, p: seq<string>, n: nat) returns (j: nat)
    requires IsPath(edges + [e], p) && n < |p|
    requires exists i :: n <= i < |p| - 1 && Edge(p[i], p[i + 1]) == e
    ensures n <= j < |p| - 1 && Edge(p[j], p[j + 1]) == e
    ensures forall i :: j < i < |p| - 1 ==> Edge(p[i], p[i + 1]) in edges
    decreases |p| - n
  {
    if i :| n + 1 <= i < |p| - 1 && Edge(p[i], p[i + 1]) == e {
      j := LastUse(edges, e, p, n + 1);
    } else {
      j := n;
    }
  }

  /** Around a cycle from after its last use of e to before its first one. */
  lemma Detour(edges: seq<Edge>, e: Edge, p: seq<string>, first: nat, last: nat)
    requires |p| > 1 && p[0] == p[|p| - 1] && first < |p| - 1 && last < |p| - 1
    requires Edge(p[first], p[first + 1]) == e && Edge(p[last], p[last + 1]) == e
    requires forall i :: 0 <= i < first ==> Edge(p[i], p[i + 1]) in edges
    requires forall i :: last < i < |p| - 1 ==> Edge(p[i], p[i + 1]) in edges
    ensures Reaches(edges, e.to, e.from)
  {
    var q := p[last + 1..] + p[1..first + 1];
    var k := |p| - (last + 1);
    forall i | 0 <= i < |q| - 1 ensures Edge(q[i], q[i + 1]) in edges {
      if i < k - 1 {
        assert q[i] == p[last + 1 + i] && q[i + 1] == p[last + 2 + i];
      } else if i == k - 1 {
        assert q[i] == p[|p| - 1] && q[i + 1] == p[1];
      } else {
        assert q[i] == p[1 + i - k] && q[i + 1] == p[2 + i - k];
      }
    }
    assert q[|q| - 1] == e.from;
    assert PathFromTo(edges, q, e.to, e.from);
  }

  /** An edge whose target does not already reach its source closes no cycle. */
  lemma LinkStaysAcyclic(edges: seq<Edge>, e: Edge)
    requires Acyclic(edges) && !Reaches(edges, e.to, e.from)
    ensures Acyclic(edges + [e])
  {
    forall p | IsPath(edges + [e], p) && |p| > 1 ensures p[0] != p[|p| - 1] {
      if p[0] == p[|p| - 1] {
        if exists i :: 0 <= i < |p| - 1 && Edge(p[i], p[i + 1]) == e {
          var first := FirstUse(edges, e, p, |p| - 1);
          var last := LastUse(edges, e, p, 0);
          Detour(edges, e, p, first, last);
        }
      }
    }
  }

  lemma AcyclicPrefix(edges: seq<Edge>, e: Edge)
    requires Acyclic(edges + [e])
    ensures Acyclic(edges)
  {
    forall p | IsPath(edges, p) && |p| > 1 ensures p[0] != p[|p| - 1] {
      assert IsPath(edges + [e], p);
    }
  }

  /** `add_edge` refuses exactly the edges that would close a cycle, on every graph: one more edge keeps a graph
      acyclic if and only if the graph was, and its target did not reach its source. */
  lemma RefusedExactlyWhenCyclic(edges: seq<Edge>, e: Edge)
    ensures Acyclic(edges + [e]) <==> Acyclic(edges) && !Reaches(edges, e.to, e.from)
  {
    if Reaches(edges, e.to, e.from) {
      var p :| PathFromTo(edges, p, e.to, e.from);
      assert IsPath(edges + [e], [e.from] + p);
    } else if Acyclic(edges) {
      LinkStaysAcyclic(edges, e);
    } else if Acyclic(edges + [e]) {
      AcyclicPrefix(edges, e);
    }
  }

  // ---------------------------------------------------------------- operations on the graph

  /** The dict is consistent. */
  ghost predicate Consistent(g: Graph) {
    && (forall i, j :: 0 <= i < j < |g.order| ==> g.order[i] != g.order[j])
    && (forall k :: k in g.order <==> k in g.nodes)
    && (forall k :: k in g.nodes ==> g.nodes[k].id == k && k != "")
  }

  ghost predicate EndpointsPresent(g: Graph) {
    forall e :: e in g.edges ==> e.from in g.nodes && e.to in g.nodes
  }

  /** What every graph satisfies, a loaded one with cycles included. */
  ghost predicate WellLinked(g: Graph) {
    Consistent(g) && EndpointsPresent(g)
  }

  ghost predicate Sound(g: Graph) {
    WellLinked(g) && Acyclic(g.edges)
  }

  /** h is well linked, and acyclic exactly when g is. */
  ghost predicate Preserves(g: Graph, h: Graph) {
    WellLinked(h) && (Acyclic(h.edges) <==> Acyclic(g.edges))
  }

  function WithNode(g: Graph, n: Node): Graph {
    g.(order := if n.id in g.nodes then g.order else g.order + [n.id], nodes := g.nodes[n.id := n])
  }

  ghost predicate CanLink(g: Graph, from: string, to: string) {
    from in g.nodes && to in g.nodes && !Reaches(g.edges, to, from)
  }

  /** `add_edge` with its refusals swallowed. */
  ghost function Linked(g: Graph, from: string, to: string): Graph {
    if CanLink(g, from, to) then g.(edges := g.edges + [Edge(from, to)]) else g
  }

  function ByTime(n: Node): real {
    n.createdAt.instant
  }

  function ByTimeReversed(n: Node): real {
    -n.createdAt.instant
  }

  function OnTopic(topic: string): Node -> bool {
    (n: Node) => n.topic == topic
  }

  function Collect(order: seq<string>, nodes: map<string, Node>): (r: seq<Node>)
    requires forall k :: k in order ==> k in nodes
    ensures |r| == |order| && forall i :: 0 <= i < |r| ==> r[i] == nodes[order[i]]
  {
    seq(|order|, i requires 0 <= i < |order| => nodes[order[i]])
  }

  /** The values of the dict, in its order. */
  function Values(g: Graph): seq<Node>
    requires Consistent(g)
  {
    Collect(g.order, g.nodes)
  }

  function NodesOf(g: Graph): seq<Node>
    requires Consistent(g)
  {
    Sort(ByTime, Values(g))
  }

  function Latest(g: Graph, topic: string, limit: int): seq<Node>
    requires Consistent(g)
  {
    var rows := Sort(ByTimeReversed, Keep(OnTopic(topic), Values(g)));
    rows[..Min(|rows|, Max(1, limit))]
  }

  ghost function LinkedFrom(g: Graph, priors: seq<Node>, target: string): Graph
    decreases |priors|
  {
    if priors == [] then g
    else LinkedFrom(if priors[0].id != target then Linked(g, priors[0].id, target) else g, priors[1..], target)
  }

  /** `write_decision_checkpoint`: add the node, then link up to two latest nodes of its topic to it. */
  ghost function Checkpointed(g: Graph, n: Node): Graph
    requires Consistent(g) && n.id != ""
  {
    var h := WithNode(g, n);
    LinkedFrom(h, Latest(h, n.topic, 2), n.id)
  }

  function Tokens(rows: seq<Node>): int {
    if rows == [] then 0 else Max(1, |rows[0].content| / 4) + Tokens(rows[1..])
  }

  /** The estimate of a row is a quarter of its length, rounded down, but at least one; rows add up. */
  lemma {:induction false} TokensOneMore(rows: seq<Node>, n: Node)
    ensures Tokens(rows + [n]) == Tokens(rows) + if |n.content| < 8 then 1 else (|n.content| - |n.content| % 4) / 4
  {
    if rows == [] {
      assert rows + [n] == [n] && [n][1..] == [];
    } else {
      ConsSnoc(rows, n);
      TokensOneMore(rows[1..], n);
    }
  }

  datatype SummaryConfig = SummaryConfig(maxNodesPerTopic: int, triggerTokenBudget: int)

  predicate NeedsSummary(g: Graph, topic: string, config: SummaryConfig)
    requires Consistent(g)
  {
    var rows := Latest(g, topic, 300);
    |rows| > config.maxNodesPerTopic || Tokens(rows) > config.triggerTokenBudget
  }

  /** `maybe_summarize_topic`: when the topic is large, add a summary node and link up to eight of the
      latest earlier nodes to it. */
  ghost function Summarized(g: Graph, summary: Node, config: SummaryConfig): Graph
    requires Consistent(g)
  {
    if !NeedsSummary(g, summary.topic, config) then g
    else
      var rows := Latest(g, summary.topic, 300);
      LinkedFrom(WithNode(g, summary), rows[..Min(|rows|, 8)], summary.id)
  }

  // ---------------------------------------------------------------- every run stays sound

  datatype Write =
    | AddNode(node: Node)
    | AddEdge(from: string, to: string)
    | Checkpoint(node: Node)
    | Summarize(node: Node, config: SummaryConfig)

  predicate Named(w: Write) {
    w.AddEdge? || w.node.id != ""
  }

  ghost function Apply(g: Graph, w: Write): Graph
    requires Consistent(g) && Named(w)
  {
    match w
    case AddNode(n) => WithNode(g, n)
    case AddEdge(from, to) => Linked(g, from, to)
    case Checkpoint(n) => Checkpointed(g, n)
    case Summarize(n, config) => Summarized(g, n, config)
  }

  lemma EmptyIsSound()
    ensures Sound(EMPTY_GRAPH)
  {
    forall p | |p| > 1 ensures !IsPath(EMPTY_GRAPH.edges, p) {
      assert Edge(p[0], p[0 + 1]) !in EMPTY_GRAPH.edges;
    }
  }

  lemma WithNodePreserves(g: Graph, n: Node)
    requires WellLinked(g) && n.id != ""
    ensures Preserves(g, WithNode(g, n))
  {
    var h := WithNode(g, n);
    assert forall k :: k in h.order <==> k in g.order || k == n.id;
  }

  lemma LinkedPreserves(g: Graph, from: string, to: string)
    requires WellLinked(g)
    ensures Preserves(g, Linked(g, from, to))
  {
    RefusedExactlyWhenCyclic(g.edges, Edge(from, to));
  }

  lemma {:induction false} LinkedFromPreserves(g: Graph, priors: seq<Node>, target: string)
    requires WellLinked(g)
    ensures Preserves(g, LinkedFrom(g, priors, target))
    decreases |priors|
  {
    if priors != [] {
      LinkedPreserves(g, priors[0].id, target);
      LinkedFromPreserves(if priors[0].id != target then Linked(g, priors[0].id, target) else g, priors[1..], target);
    }
  }

  /** What both writers do: add a node, and link some to it. */
  lemma WriterPreserves(g: Graph, n: Node, priors: seq<Node>)
    requires WellLinked(g) && n.id != ""
    ensures Preserves(g, LinkedFrom(WithNode(g, n), priors, n.id))
  {
    WithNodePreserves(g, n);
    LinkedFromPreserves(WithNode(g, n), priors, n.id);
  }

  lemma ApplyPreserves(g: Graph, w: Write)
    requires WellLinked(g) && Named(w)
    ensures Preserves(g, Apply(g, w))
  {
    match w
    case AddNode(n) => WithNodePreserves(g, n);
    case AddEdge(from, to) => LinkedPreserves(g, from, to);
    case Checkpoint(n) =>
      WithNodePreserves(g, n);
      WriterPreserves(g, n, Latest(WithNode(g, n), n.topic, 2));
    case Summarize(n, config) =>
      var rows := Latest(g, n.topic, 300);
      WriterPreserves(g, n, rows[..Min(|rows|, 8)]);
  }

  lemma PreservesOnce(g: Graph, h: Graph, w: Write)
    requires Preserves(g, h) && Named(w)
    ensures Preserves(g, Apply(h, w))
  {
    ApplyPreserves(h, w);
  }

  ghost predicate RunFrom(writes: seq<Write>, states: seq<Graph>) {
    && |states| == |writes| + 1 && WellLinked(states[0])
    && forall i :: 0 <= i < |writes| ==>
         Named(writes[i]) && Consistent(states[i]) && states[i + 1] == Apply(states[i], writes[i])
  }

  /** Every run of direct, checkpoint and summary writes, id collisions included, keeps all edge endpoints present
      and neither closes a cycle nor removes one, whatever graph it starts from. */
  lemma {:induction false} EveryRunPreserves(writes: seq<Write>, states: seq<Graph>, i: nat)
    requires RunFrom(writes, states) && i < |states|
    ensures Preserves(states[0], states[i])
  {
    if i > 0 {
      EveryRunPreserves(writes, states, i - 1);
      assert states[i - 1 + 1] == Apply(states[i - 1], writes[i - 1]);
      PreservesOnce(states[0], states[i - 1], writes[i - 1]);
    }
  }

  /** In particular every run from the empty graph stays acyclic with all edge endpoints present. */
  lemma EveryRunSound(writes: seq<Write>, states: seq<Graph>, i: nat)
    requires RunFrom(writes, states) && i < |states| && states[0] == EMPTY_GRAPH
    ensures Sound(states[i])
  {
    EmptyIsSound();
    EveryRunPreserves(writes, states, i);
  }

  /** The edges a writer would like to add. */
  function Wanted(priors: seq<Node>, target: string): seq<Edge> {
    if priors == [] then []
    else (if priors[0].id != target then [Edge(priors[0].id, target)] else []) + Wanted(priors[1..], target)
  }

  ghost predicate Sink(edges: seq<Edge>, id: string) {
    forall e :: e in edges ==> e.from != id
  }

  lemma SinkReachesNothing(edges: seq<Edge>, id: string, other: string)
    requires Sink(edges, id) && other != id
    ensures !Reaches(edges, id, other)
  {
    forall p ensures !PathFromTo(edges, p, id, other) {
      if |p| > 1 && p[0] == id {
        assert Edge(p[0], p[1]) !in edges;
      }
    }
  }

  /** A target without outgoing edges is never refused, so the swallowed exceptions cost nothing:
      exactly the wanted edges are appended, in order. */
  lemma {:induction false} NothingRefused(g: Graph, priors: seq<Node>, target: string)
    requires target in g.nodes && Sink(g.edges, target)
    requires forall p :: p in priors ==> p.id in g.nodes
    ensures LinkedFrom(g, priors, target) == g.(edges := g.edges + Wanted(priors, target))
    decreases |priors|
  {
    if priors == [] {
      assert g.edges + [] == g.edges;
    } else {
      assert priors[0] in priors;
      var rest := Wanted(priors[1..], target);
      if priors[0].id != target {
        SinkReachesNothing(g.edges, target, priors[0].id);
        NothingRefused(Linked(g, priors[0].id, target), priors[1..], target);
        assert (g.edges + [Edge(priors[0].id, target)]) + rest == g.edges + ([Edge(priors[0].id, target)] + rest);
      } else {
        NothingRefused(g, priors[1..], target);
        assert [] + rest == rest;
      }
    }
  }

  lemma LatestMembers(g: Graph, topic: string, limit: int)
    requires Consistent(g)
    ensures forall n :: n in Latest(g, topic, limit) ==> n.id in g.nodes && g.nodes[n.id] == n && n.topic == topic
  {
    SortMembers(ByTimeReversed, Keep(OnTopic(topic), Values(g)));
    KeepMembers(OnTopic(topic), Values(g));
    forall n | n in Latest(g, topic, limit) ensures n.id in g.nodes && g.nodes[n.id] == n && n.topic == topic {
      assert n in Keep(OnTopic(topic), Values(g));
      var i :| 0 <= i < |g.order| && Values(g)[i] == n;
      assert g.order[i] in g.nodes;
    }
  }

  /** `latest_by_topic`: at most max(1, limit) nodes of the topic, newest first. */
  lemma LatestAreNewest(g: Graph, topic: string, limit: int)
    requires Consistent(g)
    ensures var rows := Latest(g, topic, limit);
      && |rows| <= Max(1, limit)
      && (forall i, j :: 0 <= i < j < |rows| ==> rows[i].createdAt.instant >= rows[j].createdAt.instant)
      && (forall n :: n in rows ==> n.id in g.nodes && g.nodes[n.id] == n && n.topic == topic)
  {
    LatestMembers(g, topic, limit);
    var all := Sort(ByTimeReversed, Keep(OnTopic(topic), Values(g)));
    SortSorted(ByTimeReversed, Keep(OnTopic(topic), Values(g)));
    assert forall i, j :: 0 <= i < j < |all| ==> ByTimeReversed(all[i]) <= ByTimeReversed(all[j]);
  }

  /** A node of the topic that is left out is no newer than any node returned, of which there are then exactly as many
      as allowed. */
  lemma LeftOutIsOlder(g: Graph, topic: string, limit: int, k: string)
    requires Consistent(g) && k in g.nodes && g.nodes[k].topic == topic && g.nodes[k] !in Latest(g, topic, limit)
    ensures |Latest(g, topic, limit)| == if limit < 1 then 1 else limit
    ensures forall n :: n in Latest(g, topic, limit) ==> g.nodes[k].createdAt.instant <= n.createdAt.instant
  {
    var kept := Keep(OnTopic(topic), Values(g));
    var all, rows := Sort(ByTimeReversed, kept), Latest(g, topic, limit);
    SortSorted(ByTimeReversed, kept);
    SortMembers(ByTimeReversed, kept);
    KeepMembers(OnTopic(topic), Values(g));
    var j :| 0 <= j < |g.order| && g.order[j] == k;
    assert Values(g)[j] == g.nodes[k];
    assert g.nodes[k] in all;
    var m :| 0 <= m < |all| && all[m] == g.nodes[k];
    InPrefix(all, |rows|, m);
    forall i | 0 <= i < |rows| ensures g.nodes[k].createdAt.instant <= rows[i].createdAt.instant {
      assert ByTimeReversed(all[i]) <= ByTimeReversed(all[m]);
    }
  }

  lemma InPrefix<T>(s: seq<T>, n: nat, m: nat)
    requires n <= |s| && m < |s|
    ensures m < n ==> s[m] in s[..n]
  {
    assert m < n ==> s[..n][m] == s[m];
  }

  ghost predicate WantedEdge(priors: seq<Node>, target: string, e: Edge) {
    e.to == target && e.from != target && exists i :: 0 <= i < |priors| && priors[i].id == e.from
  }

  /** The edges a writer adds into a sink are one for each prior other than the target itself, from it to the target,
      in the order of the priors. */
  lemma {:induction false} WantedAre(priors: seq<Node>, target: string)
    ensures |Wanted(priors, target)| <= |priors|
    ensures forall e :: e in Wanted(priors, target) <==> WantedEdge(priors, target, e)
    ensures (forall i :: 0 <= i < |priors| ==> priors[i].id != target) ==>
      |Wanted(priors, target)| == |priors|
      && forall i :: 0 <= i < |priors| ==> Wanted(priors, target)[i] == Edge(priors[i].id, target)
  {
    if priors != [] {
      WantedAre(priors[1..], target);
      var rest := Wanted(priors[1..], target);
      assert forall i :: 1 <= i < |priors| ==> priors[1..][i - 1] == priors[i];
      forall e ensures e in Wanted(priors, target) <==> WantedEdge(priors, target, e) {
        assert e in Wanted(priors, target) <==> (priors[0].id != target && e == Edge(priors[0].id, target)) || e in rest;
      }
    }
  }

  /** A checkpoint under a new id links every other node among the two latest of its topic to it. */
  lemma FreshCheckpointLinksAll(g: Graph, n: Node)
    requires WellLinked(g) && n.id != "" && n.id !in g.nodes
    ensures var h := WithNode(g, n);
      Consistent(h) && Checkpointed(g, n) == h.(edges := g.edges + Wanted(Latest(h, n.topic, 2), n.id))
  {
    WithNodePreserves(g, n);
    LatestMembers(WithNode(g, n), n.topic, 2);
    NothingRefused(WithNode(g, n), Latest(WithNode(g, n), n.topic, 2), n.id);
  }

  /** A summary under a new id links each of the (at most eight) latest nodes of its topic to it. */
  lemma FreshSummaryLinksAll(g: Graph, n: Node, config: SummaryConfig)
    requires WellLinked(g) && n.id != "" && n.id !in g.nodes && NeedsSummary(g, n.topic, config)
    ensures var rows := Latest(g, n.topic, 300);
      Summarized(g, n, config).edges == g.edges + Wanted(rows[..Min(|rows|, 8)], n.id)
  {
    LatestMembers(g, n.topic, 300);
    var rows := Latest(g, n.topic, 300);
    NothingRefused(WithNode(g, n), rows[..Min(|rows|, 8)], n.id);
  }

  // ---------------------------------------------------------------- saving and loading

  /** A node as the loader finds it: the id may be empty and the timestamp unreadable. */
  datatype RawNode = RawNode(
    id: string, nodeType: string, topic: string, content: string, createdAt: Option<Stamp>, metadata: map<string, string>)

  datatype Payload = Payload(nodes: seq<RawNode>, edges: seq<Edge>)

  function Raw(n: Node): RawNode {
    RawNode(n.id, n.nodeType, n.topic, n.content, Some(n.createdAt), n.metadata)
  }

  function RawAll(ns: seq<Node>): (r: seq<RawNode>)
    ensures |r| == |ns|
  {
    seq(|ns|, i requires 0 <= i < |ns| => Raw(ns[i]))
  }

  function ToDict(g: Graph): Payload
    requires Consistent(g)
  {
    Payload(RawAll(NodesOf(g)), g.edges)
  }

  function LoadNode(g: Graph, r: RawNode): Graph {
    if r.id == "" || r.createdAt.None? then g
    else WithNode(g, Node(r.id, r.nodeType, r.topic, r.content, r.createdAt.value, r.metadata))
  }

  function LoadNodes(raws: seq<RawNode>): Graph {
    if raws == [] then EMPTY_GRAPH else LoadNode(LoadNodes(raws[..|raws| - 1]), raws[|raws| - 1])
  }

  function LoadEdge(g: Graph, e: Edge): Graph {
    if e.from != "" && e.to != "" && e.from in g.nodes && e.to in g.nodes then g.(edges := g.edges + [e]) else g
  }

  function LoadEdges(g: Graph, edges: seq<Edge>): Graph {
    if edges == [] then g else LoadEdge(LoadEdges(g, edges[..|edges| - 1]), edges[|edges| - 1])
  }

  function Load(p: Payload): Graph {
    LoadEdges(LoadNodes(p.nodes), p.edges)
  }

  function Ids(ns: seq<Node>): seq<string> {
    seq(|ns|, i requires 0 <= i < |ns| => ns[i].id)
  }

  lemma IdsOneMore(ns: seq<Node>, i: nat)
    requires i < |ns|
    ensures Ids(ns[..i + 1]) == Ids(ns[..i]) + [ns[i].id]
  {
  }

  /** g holds exactly the nodes ns, in this order, and no edges. */
  ghost predicate Holds(g: Graph, ns: seq<Node>) {
    && g.order == Ids(ns) && g.edges == []
    && (forall k :: k in g.nodes <==> k in g.order)
    && (forall i :: 0 <= i < |ns| ==> ns[i].id in g.nodes && g.nodes[ns[i].id] == ns[i])
  }

  lemma HoldsOneMore(g: Graph, ns: seq<Node>, n: Node)
    requires Holds(g, ns) && forall i :: 0 <= i < |ns| ==> ns[i].id != n.id
    ensures Holds(WithNode(g, n), ns + [n])
  {
    assert Ids(ns + [n]) == Ids(ns) + [n.id];
    assert n.id !in g.nodes by {
      assert forall i :: 0 <= i < |ns| ==> Ids(ns)[i] != n.id;
    }
  }

  lemma {:induction false} LoadNodesOf(ns: seq<Node>)
    requires forall i, j :: 0 <= i < j < |ns| ==> ns[i].id != ns[j].id
    requires forall i :: 0 <= i < |ns| ==> ns[i].id != ""
    ensures Holds(LoadNodes(RawAll(ns)), ns)
  {
    if ns != [] {
      var m := |ns| - 1;
      LoadNodesOf(ns[..m]);
      assert RawAll(ns)[..m] == RawAll(ns[..m]);
      assert ns[..m] + [ns[m]] == ns;
      HoldsOneMore(LoadNodes(RawAll(ns[..m])), ns[..m], ns[m]);
    }
  }

  lemma HoldsAll(g: Graph, h: Graph, ns: seq<Node>)
    requires Consistent(g) && Holds(h, ns)
    requires forall i, j :: 0 <= i < j < |ns| ==> ns[i].id != ns[j].id
    requires forall n :: n in ns ==> n.id in g.nodes && g.nodes[n.id] == n
    requires forall k :: k in g.nodes ==> g.nodes[k] in ns
    ensures h.nodes == g.nodes && Consistent(h) && Values(h) == ns
  {
    forall k | k in g.nodes ensures k in h.nodes && h.nodes[k] == g.nodes[k] {
      var i :| 0 <= i < |ns| && ns[i] == g.nodes[k];
    }
    forall k | k in h.nodes ensures k in g.nodes {
      var i :| 0 <= i < |ns| && Ids(ns)[i] == k;
      assert ns[i] in ns;
    }
  }

  lemma {:induction false} LoadEdgesOf(g: Graph, edges: seq<Edge>)
    requires Consistent(g) && g.edges == [] && EndpointsPresent(g.(edges := edges))
    ensures LoadEdges(g, edges) == g.(edges := edges)
  {
    if edges != [] {
      var m := |edges| - 1;
      LoadEdgesOf(g, edges[..m]);
      LastApart(edges);
    }
  }

  /** The sorted nodes are the values of the dict, each once. */
  lemma NodesAreValues(g: Graph)
    requires Consistent(g)
    ensures forall n :: n in NodesOf(g) ==> n.id in g.nodes && g.nodes[n.id] == n
    ensures forall k :: k in g.nodes ==> g.nodes[k] in NodesOf(g)
  {
    var vs, ns := Values(g), NodesOf(g);
    SortMembers(ByTime, vs);
    forall n | n in ns ensures n.id in g.nodes && g.nodes[n.id] == n {
      var i :| 0 <= i < |vs| && vs[i] == n;
      assert g.order[i] in g.nodes;
    }
    forall k | k in g.nodes ensures g.nodes[k] in ns {
      var i :| 0 <= i < |g.order| && g.order[i] == k;
      assert vs[i] == g.nodes[k];
    }
  }

  lemma NodeIdsDistinct(g: Graph)
    requires Consistent(g)
    ensures forall i, j :: 0 <= i < j < |NodesOf(g)| ==> NodesOf(g)[i].id != NodesOf(g)[j].id
  {
    var vs, ns := Values(g), NodesOf(g);
    NodesAreValues(g);
    SortPermutes(ByTime, vs);
    forall i, j | 0 <= i < j < |ns| ensures ns[i].id != ns[j].id {
      if ns[i].id == ns[j].id {
        assert ns[i] in ns && ns[j] in ns;
        TwiceInMultiset(ns, i, j);
        OnceInMultiset(vs, ns[i]);
      }
    }
  }

  lemma LoadedGraph(g: Graph)
    requires WellLinked(g)
    ensures var h := Load(ToDict(g));
      h.nodes == g.nodes && h.edges == g.edges && Consistent(h) && Values(h) == NodesOf(g)
  {
    var ns := NodesOf(g);
    NodesAreValues(g);
    NodeIdsDistinct(g);
    forall i | 0 <= i < |ns| ensures ns[i].id != "" {
      assert ns[i] in ns;
    }
    LoadNodesOf(ns);
    HoldsAll(g, LoadNodes(RawAll(ns)), ns);
    LoadEdgesOf(LoadNodes(RawAll(ns)), g.edges);
  }

  /** Loading what was saved gives back the node map and the edge list, and the same answers from every
      query, ties in time included; a second save is identical.  So the graph is sound again although the
      loader never looks for cycles. */
  lemma RoundTrip(g: Graph)
    requires WellLinked(g)
    ensures var h := Load(ToDict(g));
      && h.nodes == g.nodes && h.edges == g.edges && Consistent(h)
      && NodesOf(h) == NodesOf(g) && ToDict(h) == ToDict(g)
      && (forall topic, limit :: Latest(h, topic, limit) == Latest(g, topic, limit))
      && (Sound(g) ==> Sound(h))
  {
    LoadedGraph(g);
    SortIdempotent(ByTime, Values(g));
    forall topic, limit ensures Latest(Load(ToDict(g)), topic, limit) == Latest(g, topic, limit) {
      SortKeepSort(ByTime, ByTimeReversed, OnTopic(topic), Values(g));
    }
  }

  /** The ids of the entries that the loader keeps. */
  function LoadedIds(raws: seq<RawNode>): set<string> {
    set r | r in raws && r.id != "" && r.createdAt.Some? :: r.id
  }

  /** The edges that the loader keeps. */
  function Usable(ids: set<string>): Edge -> bool {
    (e: Edge) => e.from in ids && e.to in ids
  }

  lemma {:induction false} LoadNodesConsistent(raws: seq<RawNode>)
    ensures var g := LoadNodes(raws);
      Consistent(g) && g.edges == [] && g.nodes.Keys == LoadedIds(raws)
  {
    if raws != [] {
      var front, raw := raws[..|raws| - 1], raws[|raws| - 1];
      LoadNodesConsistent(front);
      LastApart(raws);
      var g, h := LoadNodes(front), LoadNodes(raws);
      assert forall k :: k in h.order <==> k in g.order || (raw.id != "" && raw.createdAt.Some? && k == raw.id);
      assert forall k :: k in LoadedIds(raws) <==>
        k in LoadedIds(front) || (raw.id != "" && raw.createdAt.Some? && k == raw.id);
    }
  }

  /** Of several readable entries with one id the last one counts, with all its fields. */
  lemma {:induction false} LastEntryCounts(raws: seq<RawNode>, i: nat)
    requires i < |raws| && raws[i].id != "" && raws[i].createdAt.Some?
    requires forall j :: i < j < |raws| && raws[j].createdAt.Some? ==> raws[j].id != raws[i].id
    ensures raws[i].id in LoadNodes(raws).nodes
    ensures var n, r := LoadNodes(raws).nodes[raws[i].id], raws[i];
      && n.id == r.id && n.nodeType == r.nodeType && n.topic == r.topic && n.content == r.content
      && n.createdAt == r.createdAt.value && n.metadata == r.metadata
  {
    var m := |raws| - 1;
    if i < m {
      assert raws[..m][i] == raws[i];
      LastEntryCounts(raws[..m], i);
    }
  }

  lemma {:induction false} LoadEdgesKeeps(g: Graph, edges: seq<Edge>)
    requires Consistent(g) && g.edges == []
    ensures LoadEdges(g, edges) == g.(edges := Keep(Usable(g.nodes.Keys), edges))
  {
    if edges != [] {
      var m := |edges| - 1;
      LoadEdgesKeeps(g, edges[..m]);
      LastApart(edges);
      KeepOneMore(Usable(g.nodes.Keys), edges[..m], edges[m]);
    }
  }

  /** The loader never looks for cycles: every payload gives a well-linked graph, and it is sound exactly when the
      edges between the payload's own readable nodes happen to be acyclic. */
  lemma LoadSoundExactlyWhen(p: Payload)
    ensures var g, kept := Load(p), Keep(Usable(LoadedIds(p.nodes)), p.edges);
      WellLinked(g) && g.edges == kept && (Sound(g) <==> Acyclic(kept))
  {
    var g := LoadNodes(p.nodes);
    LoadNodesConsistent(p.nodes);
    LoadEdgesKeeps(g, p.edges);
    UsableArePresent(g, p.edges);
  }

  lemma UsableArePresent(g: Graph, edges: seq<Edge>)
    requires Consistent(g)
    ensures WellLinked(g.(edges := Keep(Usable(g.nodes.Keys), edges)))
  {
    KeepMembers(Usable(g.nodes.Keys), edges);
  }

  /** Such edges need not be acyclic: one from any readable node to itself is kept. */
  lemma LoaderAcceptsCycle(p: Payload, id: string)
    requires id in LoadedIds(p.nodes) && Edge(id, id) in p.edges
    ensures !Acyclic(Load(p).edges)
  {
    LoadSoundExactlyWhen(p);
    KeepMembers(Usable(LoadedIds(p.nodes)), p.edges);
    assert IsPath(Load(p).edges, [id, id]);
  }

  // ---------------------------------------------------------------- the class

  /** The targets of id's edges, in edge order. */
  function Targets(g: Graph, id: string, n: nat): seq<Node>
    requires n <= |g.edges|
  {
    if n == 0 then []
    else
      var e := g.edges[n - 1];
      Targets(g, id, n - 1) + if e.from == id && e.to in g.nodes then [g.nodes[e.to]] else []
  }

  function ChildrenOf(g: Graph, id: string): seq<Node> {
    Sort(ByTime, Targets(g, id, |g.edges|))
  }

  lemma {:induction false} TargetsAreLinked(g: Graph, id: string, n: nat)
    requires WellLinked(g) && n <= |g.edges|
    ensures forall x :: x in Targets(g, id, n) ==> Edge(id, x.id) in g.edges
    ensures forall i :: 0 <= i < n && g.edges[i].from == id ==> g.nodes[g.edges[i].to] in Targets(g, id, n)
  {
    if n > 0 {
      TargetsAreLinked(g, id, n - 1);
      assert g.edges[n - 1] in g.edges;
    }
  }

  lemma ChildrenAreLinked(g: Graph, id: string)
    requires WellLinked(g)
    ensures forall x :: x in ChildrenOf(g, id) ==> Edge(id, x.id) in g.edges
    ensures forall e :: e in g.edges && e.from == id ==> g.nodes[e.to] in ChildrenOf(g, id)
  {
    TargetsAreLinked(g, id, |g.edges|);
    SortMembers(ByTime, Targets(g, id, |g.edges|));
  }

  /** nodes() and children() are in time order; nodes of the same time keep the order of the dict and of the edges. */
  lemma InTimeOrder(g: Graph, id: string)
    requires Consistent(g)
    ensures forall i, j :: 0 <= i < j < |NodesOf(g)| ==> NodesOf(g)[i].createdAt.instant <= NodesOf(g)[j].createdAt.instant
    ensures forall i, j :: 0 <= i < j < |ChildrenOf(g, id)| ==>
      ChildrenOf(g, id)[i].createdAt.instant <= ChildrenOf(g, id)[j].createdAt.instant
    ensures forall x: real :: ClassOf(ByTime, x, NodesOf(g)) == ClassOf(ByTime, x, Values(g))
    ensures forall x: real :: ClassOf(ByTime, x, ChildrenOf(g, id)) == ClassOf(ByTime, x, Targets(g, id, |g.edges|))
  {
    var targets := Targets(g, id, |g.edges|);
    SortSorted(ByTime, Values(g));
    SortSorted(ByTime, targets);
    assert forall i, j :: 0 <= i < j < |NodesOf(g)| ==> ByTime(NodesOf(g)[i]) <= ByTime(NodesOf(g)[j]);
    assert forall i, j :: 0 <= i < j < |ChildrenOf(g, id)| ==> ByTime(ChildrenOf(g, id)[i]) <= ByTime(ChildrenOf(g, id)[j]);
    forall x: real ensures ClassOf(ByTime, x, NodesOf(g)) == ClassOf(ByTime, x, Values(g)) {
      SortStable(ByTime, Values(g), x);
    }
    forall x: real ensures ClassOf(ByTime, x, ChildrenOf(g, id)) == ClassOf(ByTime, x, targets) {
      SortStable(ByTime, targets, x);
    }
  }

  lemma ReachesItself(edges: seq<Edge>, a: string)
    ensures Reaches(edges, a, a)
  {
    assert PathFromTo(edges, [a], a, a);
  }

  lemma ReachesOneMore(edges: seq<Edge>, a: string, b: string, c: string)
    requires Reaches(edges, a, b) && Edge(b, c) in edges
    ensures Reaches(edges, a, c)
  {
    var p :| PathFromTo(edges, p, a, b);
    assert PathFromTo(edges, p + [c], a, c);
  }

  /** A set closed under edges contains everything its members reach. */
  lemma {:induction false} ClosedContainsPath(edges: seq<Edge>, closed: set<string>, p: seq<string>, i: nat)
    requires forall e :: e in edges && e.from in closed ==> e.to in closed
    requires IsPath(edges, p) && p[0] in closed && i < |p|
    ensures p[i] in closed
  {
    if i > 0 {
      ClosedContainsPath(edges, closed, p, i - 1);
      assert Edge(p[i - 1], p[i - 1 + 1]) in edges;
    }
  }

  /** The invariant of the search: everything found is reachable, the target has not been expanded, and the
      successors of expanded nodes are expanded or on the stack. */
  ghost predicate Searching(
      g: Graph, universe: set<string>, start: string, target: string, stack: seq<string>, seen: set<string>) {
    && universe == g.nodes.Keys + {start} && seen <= universe && (forall x :: x in stack ==> x in universe)
    && (forall x :: x in stack || x in seen ==> Reaches(g.edges, start, x))
    && (start in seen || start in stack) && target !in seen
    && (forall e :: e in g.edges && e.from in seen ==> e.to in seen || e.to in stack)
  }

  lemma DropSeen(
      g: Graph, universe: set<string>, start: string, target: string, rest: seq<string>, id: string, seen: set<string>)
    requires Searching(g, universe, start, target, rest + [id], seen) && id in seen
    ensures Searching(g, universe, start, target, rest, seen)
  {
    forall x | x in rest ensures x in rest + [id] {
    }
  }

  lemma Expand(
      g: Graph, universe: set<string>, start: string, target: string, rest: seq<string>, id: string, seen: set<string>)
    requires WellLinked(g)
    requires Searching(g, universe, start, target, rest + [id], seen) && id != target
    ensures Searching(g, universe, start, target, rest + Ids(ChildrenOf(g, id)), seen + {id})
  {
    var children := ChildrenOf(g, id);
    var stack := rest + Ids(children);
    ChildrenAreLinked(g, id);
    assert id in rest + [id];
    forall x | x in stack ensures x in universe && Reaches(g.edges, start, x) {
      if x in rest {
        assert x in rest + [id];
      } else {
        var i :| 0 <= i < |children| && Ids(children)[i] == x;
        assert children[i] in children;
        ReachesOneMore(g.edges, start, id, x);
      }
    }
    forall e | e in g.edges && e.from in seen + {id} ensures e.to in seen + {id} || e.to in stack {
      if e.from == id {
        var i :| 0 <= i < |children| && children[i] == g.nodes[e.to];
        assert Ids(children)[i] == e.to;
        assert stack[|rest| + i] == e.to;
      } else {
        assert e.to in seen || e.to in rest || e.to == id;
        if j :| 0 <= j < |rest| && rest[j] == e.to {
          assert stack[j] == e.to;
        }
      }
    }
    if start in rest {
      var j :| 0 <= j < |rest| && rest[j] == start;
      assert stack[j] == start;
    }
  }

  lemma SearchedAll(g: Graph, universe: set<string>, start: string, target: string, seen: set<string>)
    requires Searching(g, universe, start, target, [], seen)
    ensures !Reaches(g.edges, start, target)
  {
    forall p ensures !PathFromTo(g.edges, p, start, target) {
      if PathFromTo(g.edges, p, start, target) {
        ClosedContainsPath(g.edges, seen, p, |p| - 1);
      }
    }
  }

  class MemoryDag {
    const digest: (string, string, string, Stamp) -> string
    var order: seq<string>
    var nodes: map<string, Node>
    var edges: seq<Edge>

    constructor (digest: (string, string, string, Stamp) -> string)
      requires forall t, c, x, s :: digest(t, c, x, s) != ""
      ensures Valid() && View() == EMPTY_GRAPH && this.digest == digest
    {
      this.digest := digest;
      order, nodes, edges := [], map[], [];
    }

    ghost function View(): Graph
      reads this
    {
      Graph(order, nodes, edges)
    }

    ghost predicate Valid()
      reads this
    {
      WellLinked(View()) && forall t, c, x, s :: digest(t, c, x, s) != ""
    }

    method AddNode(nodeType: string, topic: string, content: string, metadata: map<string, string>, createdAt: Stamp)
      returns (node: Node)
      requires Valid()
      modifies this
      ensures Valid() && View() == WithNode(old(View()), node)
      ensures node == Node(digest(nodeType, topic, content, createdAt), nodeType, topic, content, createdAt, metadata)
      ensures nodes == old(nodes)[node.id := node] && edges == old(edges)
      ensures order == if node.id in old(nodes) then old(order) else old(order) + [node.id]
    {
      var id := digest(nodeType, topic, content, createdAt);
      node := Node(id, nodeType, topic, content, createdAt, metadata);
      WithNodePreserves(View(), node);
      if id !in nodes {
        order := order + [id];
      }
      nodes := nodes[id := node];
    }

    method Children(id: string) returns (out: seq<Node>)
      requires Valid()
      ensures out == ChildrenOf(View(), id)
    {
      out := [];
      for i := 0 to |edges|
        invariant out == Targets(View(), id, i)
      {
        assert Targets(View(), id, i + 1) == Targets(View(), id, i)
          + if edges[i].from == id && edges[i].to in nodes then [nodes[edges[i].to]] else [];
        if edges[i].from == id && edges[i].to in nodes {
          out := out + [nodes[edges[i].to]];
        }
      }
      out := Sort(ByTime, out);
    }

    method PushChildren(stack: seq<string>, id: string) returns (pushed: seq<string>)
      requires Valid()
      ensures pushed == stack + Ids(ChildrenOf(View(), id))
    {
      var children := Children(id);
      pushed := stack;
      for i := 0 to |children|
        invariant pushed == stack + Ids(children[..i])
      {
        IdsOneMore(children, i);
        pushed := pushed + [children[i].id];
      }
      assert children[..|children|] == children;
    }

    /** The iterative depth-first search: it ends, and it answers exactly whether a path exists. */
    method Reachable(start: string, target: string) returns (found: bool)
      requires Valid()
      ensures found <==> Reaches(edges, start, target)
    {
      var stack := [start];
      var seen: set<string> := {};
      ghost var universe := nodes.Keys + {start};
      ReachesItself(edges, start);
      while stack != []
        invariant Searching(View(), universe, start, target, stack, seen)
        decreases |universe - seen|, |stack|
      {
        var id := stack[|stack| - 1];
        ghost var before := stack;
        stack := stack[..|stack| - 1];
        LastApart(before);
        if id == target {
          return true;
        }
        if id in seen {
          DropSeen(View(), universe, start, target, stack, id, seen);
          continue;
        }
        SubsetSmaller(universe - (seen + {id}), universe - seen) by {
          assert id in universe - seen;
        }
        Expand(View(), universe, start, target, stack, id, seen);
        seen := seen + {id};
        stack := PushChildren(stack, id);
      }
      SearchedAll(View(), universe, start, target, seen);
      found := false;
    }

    /** Returns false where the source raises ValueError. */
    method AddEdge(from: string, to: string) returns (ok: bool)
      requires Valid()
      modifies this
      ensures Valid() && ok == CanLink(old(View()), from, to)
      ensures View() == Linked(old(View()), from, to)
      ensures ok <==> from in old(nodes) && to in old(nodes) && !Reaches(old(edges), to, from)
      ensures nodes == old(nodes) && order == old(order)
      ensures edges == if ok then old(edges) + [Edge(from, to)] else old(edges)
    {
      if from !in nodes || to !in nodes {
        return false;
      }
      var cyclic := Reachable(to, from);
      if cyclic {
        return false;
      }
      LinkedPreserves(View(), from, to);
      edges := edges + [Edge(from, to)];
      ok := true;
    }

    method LatestByTopic(topic: string, limit: int) returns (rows: seq<Node>)
      requires Valid()
      ensures rows == Latest(View(), topic, limit)
    {
      rows := Sort(ByTimeReversed, Keep(OnTopic(topic), Collect(order, nodes)));
      rows := rows[..Min(|rows|, Max(1, limit))];
    }

    /** The loader, node by node and edge by edge; it may well build a cyclic graph. */
    static method FromDict(digest: (string, string, string, Stamp) -> string, payload: Payload) returns (dag: MemoryDag)
      requires forall t, c, x, s :: digest(t, c, x, s) != ""
      ensures fresh(dag) && dag.Valid() && dag.digest == digest && dag.View() == Load(payload)
    {
      dag := new MemoryDag(digest);
      for i := 0 to |payload.nodes|
        invariant fresh(dag) && dag.digest == digest && dag.View() == LoadNodes(payload.nodes[..i])
      {
        assert payload.nodes[..i + 1][..i] == payload.nodes[..i];
        var raw := payload.nodes[i];
        if raw.id != "" && raw.createdAt.Some? {
          if raw.id !in dag.nodes {
            dag.order := dag.order + [raw.id];
          }
          dag.nodes := dag.nodes[raw.id :=
            Node(raw.id, raw.nodeType, raw.topic, raw.content, raw.createdAt.value, raw.metadata)];
        }
      }
      assert payload.nodes[..|payload.nodes|] == payload.nodes;
      for i := 0 to |payload.edges|
        invariant fresh(dag) && dag.digest == digest && dag.View() == LoadEdges(LoadNodes(payload.nodes), payload.edges[..i])
      {
        assert payload.edges[..i + 1][..i] == payload.edges[..i];
        var e := payload.edges[i];
        if e.from != "" && e.to != "" && e.from in dag.nodes && e.to in dag.nodes {
          dag.edges := dag.edges + [e];
        }
      }
      assert payload.edges[..|payload.edges|] == payload.edges;
      LoadSoundExactlyWhen(payload);
    }
  }

  lemma SubsetSmaller<T>(a: set<T>, b: set<T>)
    requires a < b
    ensures |a| < |b|
  {
    assert |b| == |a| + |b - a| by {
      assert b == a + (b - a);
    }
  }

  /** The loop both writers share; refused edges are skipped. */
  method LinkPriors(dag: MemoryDag, priors: seq<Node>, target: string)
    requires dag.Valid()
    modifies dag
    ensures dag.Valid() && dag.View() == LinkedFrom(old(dag.View()), priors, target)
  {
    for i := 0 to |priors|
      invariant dag.Valid()
      invariant LinkedFrom(dag.View(), priors[i..], target) == LinkedFrom(old(dag.View()), priors, target)
    {
      assert priors[i..][1..] == priors[i + 1..];
      if priors[i].id != target {
        var _ := dag.AddEdge(priors[i].id, target);
      }
    }
  }

  /** The checkpoint's text and metadata are rendered by the caller. */
  method WriteDecisionCheckpoint(
      dag: MemoryDag, projectId: string, strategyId: string, summary: string, metadata: map<string, string>, now: Stamp)
    returns (id: string)
    requires dag.Valid()
    modifies dag
    ensures dag.Valid()
    ensures var topic := projectId + "::" + strategyId;
      var node := Node(id, "decision_checkpoint", topic, summary, now, metadata);
      && id == dag.digest("decision_checkpoint", topic, summary, now)
      && dag.View() == Checkpointed(old(dag.View()), node)
  {
    var topic := projectId + "::" + strategyId;
    var node := dag.AddNode("decision_checkpoint", topic, summary, metadata, now);
    var priors := dag.LatestByTopic(topic, 2);
    LinkPriors(dag, priors, node.id);
    id := node.id;
  }

  /** `render` stands for the text made from at most sixteen nodes. */
  method MaybeSummarizeTopic(
      dag: MemoryDag, topic: string, config: SummaryConfig, render: seq<Node> -> string,
      metadata: map<string, string>, now: Stamp)
    returns (id: Option<string>)
    requires dag.Valid()
    modifies dag
    ensures dag.Valid()
    ensures id.Some? <==> NeedsSummary(old(dag.View()), topic, config)
    ensures id.None? <==>
      var rows := Latest(old(dag.View()), topic, 300);
      |rows| <= config.maxNodesPerTopic && Tokens(rows) <= config.triggerTokenBudget
    ensures id.None? ==> dag.View() == old(dag.View())
    ensures id.Some? ==>
      var rows := Latest(old(dag.View()), topic, 300);
      var text := render(rows[..Min(|rows|, 16)]);
      var content := if text == "" then "auto-summary" else text;
      && id.value == dag.digest("auto_summary", topic, content, now)
      && dag.View() == Summarized(old(dag.View()), Node(id.value, "auto_summary", topic, content, now, metadata), config)
  {
    var rows := dag.LatestByTopic(topic, 300);
    if |rows| <= config.maxNodesPerTopic {
      var tokenEstimate := 0;
      for i := 0 to |rows|
        invariant tokenEstimate + Tokens(rows[i..]) == Tokens(rows)
      {
        assert rows[i..][1..] == rows[i + 1..];
        tokenEstimate := tokenEstimate + Max(1, |rows[i].content| / 4);
      }
      if tokenEstimate <= config.triggerTokenBudget {
        return None;
      }
    }
    var content := render(rows[..Min(|rows|, 16)]);
    if content == "" {
      content := "auto-summary";
    }
    var node := dag.AddNode("auto_summary", topic, content, metadata, now);
    LinkPriors(dag, rows[..Min(|rows|, 8)], node.id);
    id := Some(node.id);
  }
}

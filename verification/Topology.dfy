/**
  The impact map (app/topology.py): a breadth-first walk from a root record, bounded in
  depth and in the number of nodes, that labels nodes with their depth and collects the
  relations between them.

  What a record is related to is given: `links(n)` lists, in the order the walk tries
  them, the neighbours the caller may read (downstream rows, then parents, then peers).
  `visible(n)` is the company check made when a node is added.
*/
module Topology {
  import opened Wrappers

  datatype Node = Node(table: int, pk: string)

  /** A neighbour: `inward` when the neighbour's own key points at the record. */
  datatype Link = Link(other: Node, inward: bool, kind: string, caption: string)

  datatype Edge = Edge(source: Node, target: Node, caption: string, kind: string, directed: bool)

  datatype World = World(links: Node -> seq<Link>, visible: Node -> bool)

  datatype Graph = Graph(nodes: map<Node, nat>, edges: seq<Edge>, truncated: bool)

  // ---------------------------------------------------------------- distance

  ghost predicate Linked(w: World, a: Node, b: Node) {
    exists l | l in w.links(a) :: l.other == b
  }

  /** `n` can be reached from the root in at most `k` steps through visible records. */
  ghost predicate Near(w: World, root: Node, n: Node, k: nat)
    decreases k, 1
  {
    w.visible(n) && (n == root || (k > 0 && exists m :: NearVia(w, root, n, m, k)))
  }

  ghost predicate NearVia(w: World, root: Node, n: Node, m: Node, k: nat)
    requires k > 0
    decreases k, 0
  {
    Near(w, root, m, k - 1) && Linked(w, m, n)
  }

  lemma {:induction false} NearGrows(w: World, root: Node, n: Node, j: nat, k: nat)
    requires j <= k && Near(w, root, n, j)
    ensures Near(w, root, n, k)
    decreases k
  {
    if n != root {
      var m :| NearVia(w, root, n, m, j);
      NearGrows(w, root, m, j - 1, k - 1);
      assert NearVia(w, root, n, m, k);
    }
  }

  /** The label is the shortest distance from the root. */
  ghost predicate Shortest(w: World, root: Node, n: Node, d: nat) {
    Near(w, root, n, d) && (d > 0 ==> !Near(w, root, n, d - 1))
  }

  ghost predicate Labelled(w: World, root: Node, nodes: map<Node, nat>) {
    forall n | n in nodes :: Shortest(w, root, n, nodes[n])
  }

  /** Every visible neighbour of `n` is listed. */
  ghost predicate Expanded(w: World, nodes: map<Node, nat>, n: Node) {
    forall l | l in w.links(n) && w.visible(l.other) :: l.other in nodes
  }

  /** If everything nearer than `k` is expanded, everything within `k` steps is listed. */
  lemma {:induction false} WithinIsListed(w: World, root: Node, nodes: map<Node, nat>, k: nat, n: Node, j: nat)
    requires Labelled(w, root, nodes) && (w.visible(root) ==> root in nodes)
    requires forall m | m in nodes && nodes[m] < k :: Expanded(w, nodes, m)
    requires j <= k && Near(w, root, n, j)
    ensures n in nodes && nodes[n] <= j
    decreases j
  {
    if n != root {
      var m :| NearVia(w, root, n, m, j);
      WithinIsListed(w, root, nodes, k, m, j - 1);
    }
    assert Shortest(w, root, n, nodes[n]);
    if nodes[n] > j {
      NearGrows(w, root, n, j, nodes[n] - 1);
    }
  }

  // ---------------------------------------------------------------- edges

  function Key(e: Edge): (Node, Node, string) {
    (e.source, e.target, e.kind)
  }

  function EdgeOf(n: Node, l: Link): Edge {
    Edge(if l.inward then l.other else n, if l.inward then n else l.other, l.caption, l.kind, l.kind == "m1")
  }

  /** Unique per (source, target, kind), between listed nodes, never a loop. */
  ghost predicate EdgesOk(nodes: map<Node, nat>, edges: seq<Edge>) {
    && (forall i, j | 0 <= i < j < |edges| :: Key(edges[i]) != Key(edges[j]))
    && (forall i | 0 <= i < |edges| ::
          edges[i].source in nodes && edges[i].target in nodes && edges[i].source != edges[i].target)
  }

  function Keys(edges: seq<Edge>): set<(Node, Node, string)> {
    set i | 0 <= i < |edges| :: Key(edges[i])
  }

  /** Each edge is a link of some listed record less than `depth` steps away. */
  ghost predicate EdgesFromLinks(w: World, nodes: map<Node, nat>, depth: int, edges: seq<Edge>) {
    forall e | e in edges :: exists n, l :: LinkGives(w, nodes, depth, n, l, e)
  }

  ghost predicate LinkGives(w: World, nodes: map<Node, nat>, depth: int, n: Node, l: Link, e: Edge) {
    n in nodes && nodes[n] < depth && l in w.links(n) && e == EdgeOf(n, l)
  }

  /** Each link between `n` and another listed record is drawn. */
  ghost predicate LinksDrawn(w: World, nodes: map<Node, nat>, drawn: set<(Node, Node, string)>, n: Node) {
    forall l | l in w.links(n) && l.other in nodes && l.other != n :: Key(EdgeOf(n, l)) in drawn
  }

  // ---------------------------------------------------------------- the walk

  /** What `graph_for` promises. */
  ghost predicate IsImpactMap(w: World, root: Node, depth: int, maxNodes: int, g: Graph) {
    && |g.nodes| <= (if maxNodes > 0 then maxNodes else 0)
    && Labelled(w, root, g.nodes)
    && (forall n | n in g.nodes :: n == root || g.nodes[n] <= depth)
    && (!g.truncated ==> forall n, k: nat | k == 0 || k <= depth :: Near(w, root, n, k) ==> n in g.nodes)
    && EdgesOk(g.nodes, g.edges)
    && EdgesFromLinks(w, g.nodes, depth, g.edges)
    && (forall n | n in g.nodes && g.nodes[n] < depth :: LinksDrawn(w, g.nodes, Keys(g.edges), n))
  }

  ghost predicate Pending(queue: seq<(Node, nat)>, n: Node) {
    exists i | 0 <= i < |queue| :: queue[i].0 == n
  }

  /** The queue holds listed nodes with their labels, in order, no label beyond the first plus one. */
  ghost predicate QueueOk(nodes: map<Node, nat>, queue: seq<(Node, nat)>) {
    && (forall i | 0 <= i < |queue| :: queue[i].0 in nodes && nodes[queue[i].0] == queue[i].1)
    && (forall i, j | 0 <= i < j < |queue| :: queue[i].1 <= queue[j].1 <= queue[0].1 + 1)
    && (forall i, j | 0 <= i < j < |queue| :: queue[i].0 != queue[j].0)
  }

  /** A neighbour met for the first time while expanding depth `d` is at distance `d + 1`. */
  lemma NewIsShortest(w: World, root: Node, nodes: map<Node, nat>, cur: Node, d: nat, l: Link)
    requires Labelled(w, root, nodes) && (w.visible(root) ==> root in nodes)
    requires forall m | m in nodes && nodes[m] < d :: Expanded(w, nodes, m)
    requires cur in nodes && nodes[cur] == d && l in w.links(cur) && w.visible(l.other) && l.other !in nodes
    ensures Shortest(w, root, l.other, d + 1)
  {
    assert Shortest(w, root, cur, d);
    assert NearVia(w, root, l.other, cur, d + 1);
    if Near(w, root, l.other, d) {
      WithinIsListed(w, root, nodes, d, l.other, d);
    }
  }

  ghost predicate Extends(a: map<Node, nat>, b: map<Node, nat>) {
    forall n | n in a :: n in b && b[n] == a[n]
  }

  lemma GrowEdges(w: World, depth: int, a: map<Node, nat>, b: map<Node, nat>, edges: seq<Edge>)
    requires Extends(a, b) && EdgesOk(a, edges) && EdgesFromLinks(w, a, depth, edges)
    ensures EdgesOk(b, edges) && EdgesFromLinks(w, b, depth, edges)
  {
    forall e | e in edges ensures exists n, l :: LinkGives(w, b, depth, n, l, e) {
      var n, l :| LinkGives(w, a, depth, n, l, e);
      assert LinkGives(w, b, depth, n, l, e);
    }
  }

  lemma AddEdgeOk(w: World, nodes: map<Node, nat>, depth: int, edges: seq<Edge>, cur: Node, l: Link)
    requires EdgesOk(nodes, edges) && EdgesFromLinks(w, nodes, depth, edges)
    requires cur in nodes && nodes[cur] < depth && l in w.links(cur) && l.other in nodes && l.other != cur
    requires Key(EdgeOf(cur, l)) !in Keys(edges)
    ensures EdgesOk(nodes, edges + [EdgeOf(cur, l)]) && EdgesFromLinks(w, nodes, depth, edges + [EdgeOf(cur, l)])
  {
    var e := EdgeOf(cur, l);
    assert LinkGives(w, nodes, depth, cur, l, e);
    forall i | 0 <= i < |edges| ensures Key(edges[i]) != Key(e) {
      assert Key(edges[i]) in Keys(edges);
    }
  }

  // ---------------------------------------------------------------- invariants of the walk

  datatype Bounds = Bounds(w: World, root: Node, depth: int, maxNodes: int)

  /** The variables the closures of `graph_for` share. */
  datatype Vars = Vars(nodes: map<Node, nat>, edges: seq<Edge>, seen: set<(Node, Node, string)>,
                       truncated: bool, queue: seq<(Node, nat)>)

  ghost predicate Valid(b: Bounds, s: Vars) {
    && |s.nodes| <= (if b.maxNodes > 0 then b.maxNodes else 0)
    && (s.truncated ==> |s.nodes| >= b.maxNodes)
    && Labelled(b.w, b.root, s.nodes)
    && (forall n | n in s.nodes :: n == b.root || s.nodes[n] <= b.depth)
    && EdgesOk(s.nodes, s.edges) && s.seen == Keys(s.edges)
    && EdgesFromLinks(b.w, s.nodes, b.depth, s.edges)
  }

  /** A node that has left the queue has been expanded, unless the cap was met, and its links drawn. */
  ghost predicate Done(b: Bounds, s: Vars, n: Node) {
    (s.truncated || Expanded(b.w, s.nodes, n)) && LinksDrawn(b.w, s.nodes, s.seen, n)
  }

  ghost predicate RestDone(b: Bounds, s: Vars, cur: Option<Node>) {
    forall n | n in s.nodes && s.nodes[n] < b.depth && Some(n) != cur && !Pending(s.queue, n) :: Done(b, s, n)
  }

  /** Between two turns of the loop. */
  ghost predicate Progress(b: Bounds, s: Vars) {
    && Valid(b, s) && QueueOk(s.nodes, s.queue)
    && (!s.truncated && b.w.visible(b.root) ==> b.root in s.nodes)
    && RestDone(b, s, None)
  }

  /** The root itself may not be shown; its entry in the queue is going to be skipped. */
  ghost predicate RootHidden(b: Bounds, s: Vars) {
    && s.nodes == map[] && s.edges == [] && s.seen == {} && s.queue == [(b.root, 0)]
    && (s.truncated || !b.w.visible(b.root)) && (s.truncated ==> 0 >= b.maxNodes)
  }

  /** While `cur`, at depth `d`, is being expanded and its first `i` links are dealt with. */
  ghost predicate Expanding(b: Bounds, s: Vars, cur: Node, d: nat, i: nat)
    requires i <= |b.w.links(cur)|
  {
    && Valid(b, s) && QueueOk(s.nodes, s.queue)
    && (!s.truncated && b.w.visible(b.root) ==> b.root in s.nodes)
    && RestDone(b, s, Some(cur))
    && cur in s.nodes && s.nodes[cur] == d < b.depth && !Pending(s.queue, cur)
    && (forall j | 0 <= j < |s.queue| :: d <= s.queue[j].1 <= d + 1)
    && (forall j | 0 <= j < i :: LinkDone(b, s, cur, b.w.links(cur)[j]))
  }

  ghost predicate LinkListed(b: Bounds, s: Vars, l: Link) {
    b.w.visible(l.other) ==> l.other in s.nodes || s.truncated
  }

  ghost predicate LinkDone(b: Bounds, s: Vars, cur: Node, l: Link) {
    LinkListed(b, s, l) && (l.other in s.nodes && l.other != cur ==> Key(EdgeOf(cur, l)) in s.seen)
  }

  lemma PendingAfterPush(queue: seq<(Node, nat)>, e: (Node, nat))
    ensures Pending(queue + [e], e.0)
    ensures forall n | Pending(queue, n) :: Pending(queue + [e], n)
  {
    assert (queue + [e])[|queue|].0 == e.0;
    forall n | Pending(queue, n) ensures Pending(queue + [e], n) {
      var k :| 0 <= k < |queue| && queue[k].0 == n;
      assert (queue + [e])[k].0 == n;
    }
  }

  /** Drawing stays complete when a node nobody's links lead to is listed. */
  lemma NewKeepsDone(b: Bounds, s: Vars, t: Vars, n: Node, d: nat, cur: Option<Node>)
    requires RestDone(b, s, cur) && !s.truncated && n !in s.nodes && b.w.visible(n)
    requires t == s.(nodes := s.nodes[n := d], queue := s.queue + [(n, d)])
    ensures RestDone(b, t, cur)
  {
    PendingAfterPush(s.queue, (n, d));
    forall m | m in t.nodes && t.nodes[m] < b.depth && Some(m) != cur && !Pending(t.queue, m) ensures Done(b, t, m) {
      assert Done(b, s, m);
      assert forall l | l in b.w.links(m) && b.w.visible(l.other) :: l.other != n;
    }
  }

  lemma NewKeepsQueue(s: Vars, t: Vars, n: Node, d: nat)
    requires QueueOk(s.nodes, s.queue) && n !in s.nodes
    requires forall j | 0 <= j < |s.queue| :: d <= s.queue[j].1 <= d + 1
    requires t == s.(nodes := s.nodes[n := d + 1], queue := s.queue + [(n, d + 1)])
    ensures QueueOk(t.nodes, t.queue) && (forall j | 0 <= j < |t.queue| :: d <= t.queue[j].1 <= d + 1)
  {}

  lemma NewKeepsValid(b: Bounds, s: Vars, t: Vars, n: Node, d: nat)
    requires Valid(b, s) && |s.nodes| < b.maxNodes && n !in s.nodes && d <= b.depth
    requires Shortest(b.w, b.root, n, d)
    requires t.nodes == s.nodes[n := d] && t.edges == s.edges && t.seen == s.seen && t.truncated == s.truncated
    ensures Valid(b, t)
  {
    GrowEdges(b.w, b.depth, s.nodes, t.nodes, s.edges);
  }

  lemma NewIsNext(b: Bounds, s: Vars, cur: Node, d: nat, i: nat)
    requires i < |b.w.links(cur)| && Expanding(b, s, cur, d, i)
    requires var n := b.w.links(cur)[i].other; n !in s.nodes && b.w.visible(n) && |s.nodes| < b.maxNodes
    ensures Shortest(b.w, b.root, b.w.links(cur)[i].other, d + 1)
  {
    forall m | m in s.nodes && s.nodes[m] < d ensures Expanded(b.w, s.nodes, m) {
      assert Done(b, s, m);
    }
    NewIsShortest(b.w, b.root, s.nodes, cur, d, b.w.links(cur)[i]);
  }

  /** The links dealt with before did not lead to the new node. */
  lemma NewKeepsLinks(b: Bounds, s: Vars, t: Vars, cur: Node, d: nat, i: nat)
    requires i < |b.w.links(cur)| && forall j | 0 <= j < i :: LinkDone(b, s, cur, b.w.links(cur)[j])
    requires var n := b.w.links(cur)[i].other;
      n !in s.nodes && b.w.visible(n) && !s.truncated && t == s.(nodes := s.nodes[n := d + 1], queue := s.queue + [(n, d + 1)])
    ensures forall j | 0 <= j < i :: LinkDone(b, t, cur, b.w.links(cur)[j])
  {
    forall j | 0 <= j < i ensures LinkDone(b, t, cur, b.w.links(cur)[j]) {
      assert LinkDone(b, s, cur, b.w.links(cur)[j]);
    }
  }

  /** `add_node` lists a new neighbour. */
  lemma NewStep(b: Bounds, s: Vars, t: Vars, cur: Node, d: nat, i: nat)
    requires i < |b.w.links(cur)| && Expanding(b, s, cur, d, i)
    requires var n := b.w.links(cur)[i].other;
      && n !in s.nodes && b.w.visible(n) && |s.nodes| < b.maxNodes
      && t == s.(nodes := s.nodes[n := d + 1], queue := s.queue + [(n, d + 1)])
    ensures Expanding(b, t, cur, d, i) && LinkListed(b, t, b.w.links(cur)[i])
  {
    var l := b.w.links(cur)[i];
    NewIsNext(b, s, cur, d, i);
    NewKeepsValid(b, s, t, l.other, d + 1);
    NewKeepsQueue(s, t, l.other, d);
    NewKeepsDone(b, s, t, l.other, d + 1, Some(cur));
    NewKeepsLinks(b, s, t, cur, d, i);
    assert !Pending(t.queue, cur);
  }

  /** `add_node` meets the cap, or finds the neighbour listed or hidden. */
  lemma OldStep(b: Bounds, s: Vars, t: Vars, cur: Node, d: nat, i: nat)
    requires i < |b.w.links(cur)| && Expanding(b, s, cur, d, i)
    requires var n := b.w.links(cur)[i].other;
      && t == s.(truncated := s.truncated || (n !in s.nodes && |s.nodes| >= b.maxNodes))
      && (n in s.nodes || |s.nodes| >= b.maxNodes || !b.w.visible(n))
    ensures Expanding(b, t, cur, d, i) && LinkListed(b, t, b.w.links(cur)[i])
  {
    forall m | m in t.nodes && t.nodes[m] < b.depth && m != cur && !Pending(t.queue, m) ensures Done(b, t, m) {
      assert Done(b, s, m);
    }
    forall j | 0 <= j < i ensures LinkDone(b, t, cur, b.w.links(cur)[j]) {
      assert LinkDone(b, s, cur, b.w.links(cur)[j]);
    }
  }

  /** `add_edge` draws the link just tried. */
  lemma DrawStep(b: Bounds, s: Vars, t: Vars, cur: Node, d: nat, i: nat)
    requires i < |b.w.links(cur)| && Expanding(b, s, cur, d, i) && LinkListed(b, s, b.w.links(cur)[i])
    requires var l := b.w.links(cur)[i]; var e := EdgeOf(cur, l);
      if l.other !in s.nodes || l.other == cur || Key(e) in s.seen then t == s
      else t == s.(edges := s.edges + [e], seen := s.seen + {Key(e)})
    ensures Expanding(b, t, cur, d, i + 1)
  {
    var l := b.w.links(cur)[i];
    if t != s {
      AddEdgeOk(b.w, s.nodes, b.depth, s.edges, cur, l);
      KeysOfAppend(s.edges, EdgeOf(cur, l));
    }
    forall m | m in t.nodes && t.nodes[m] < b.depth && m != cur && !Pending(t.queue, m) ensures Done(b, t, m) {
      assert Done(b, s, m);
    }
    forall j | 0 <= j < i + 1 ensures LinkDone(b, t, cur, b.w.links(cur)[j]) {
      if j < i { assert LinkDone(b, s, cur, b.w.links(cur)[j]); }
    }
  }

  lemma KeysOfAppend(edges: seq<Edge>, e: Edge)
    ensures Keys(edges + [e]) == Keys(edges) + {Key(e)}
  {
    var all := edges + [e];
    assert forall i | 0 <= i < |edges| :: all[i] == edges[i];
    assert all[|edges|] == e;
  }

  lemma PendingAfterPop(queue: seq<(Node, nat)>)
    requires queue != []
    ensures forall n | n != queue[0].0 && Pending(queue, n) :: Pending(queue[1..], n)
  {
    forall n | n != queue[0].0 && Pending(queue, n) ensures Pending(queue[1..], n) {
      var k :| 0 <= k < |queue| && queue[k].0 == n;
      assert queue[1..][k - 1].0 == n;
    }
  }

  /** Taking an entry at the depth bound off the queue. */
  lemma SkipStep(b: Bounds, s: Vars)
    requires Progress(b, s) && s.queue != [] && s.queue[0].1 >= b.depth
    ensures Progress(b, s.(queue := s.queue[1..]))
  {
    var t := s.(queue := s.queue[1..]);
    PendingAfterPop(s.queue);
    forall n | n in t.nodes && t.nodes[n] < b.depth && !Pending(t.queue, n) ensures Done(b, t, n) {
      assert Done(b, s, n);
    }
    assert forall i | 0 <= i < |t.queue| :: t.queue[i] == s.queue[i + 1];
  }

  lemma RestAfterPop(b: Bounds, s: Vars)
    requires RestDone(b, s, None) && s.queue != []
    ensures RestDone(b, s.(queue := s.queue[1..]), Some(s.queue[0].0))
  {
    PendingAfterPop(s.queue);
    var t := s.(queue := s.queue[1..]);
    forall n | n in t.nodes && t.nodes[n] < b.depth && n != s.queue[0].0 && !Pending(t.queue, n) ensures Done(b, t, n) {
      assert Done(b, s, n);
    }
  }

  lemma QueueAfterPop(nodes: map<Node, nat>, queue: seq<(Node, nat)>)
    requires QueueOk(nodes, queue) && queue != []
    ensures QueueOk(nodes, queue[1..]) && !Pending(queue[1..], queue[0].0)
    ensures forall j | 0 <= j < |queue[1..]| :: queue[0].1 <= queue[1..][j].1 <= queue[0].1 + 1
  {
    assert forall i | 0 <= i < |queue[1..]| :: queue[1..][i] == queue[i + 1];
  }

  /** Taking the entry to be expanded off the queue. */
  lemma PopStep(b: Bounds, s: Vars)
    requires Progress(b, s) && s.queue != [] && s.queue[0].1 < b.depth
    ensures Expanding(b, s.(queue := s.queue[1..]), s.queue[0].0, s.queue[0].1, 0)
  {
    RestAfterPop(b, s);
    QueueAfterPop(s.nodes, s.queue);
  }

  /** All links of `cur` dealt with: it is done. */
  lemma ExpandedStep(b: Bounds, s: Vars, cur: Node, d: nat)
    requires Expanding(b, s, cur, d, |b.w.links(cur)|)
    ensures Progress(b, s)
  {
    forall l | l in b.w.links(cur) ensures LinkDone(b, s, cur, l) {
      var j :| 0 <= j < |b.w.links(cur)| && b.w.links(cur)[j] == l;
    }
    assert Done(b, s, cur);
    forall n | n in s.nodes && s.nodes[n] < b.depth && !Pending(s.queue, n) ensures Done(b, s, n) {}
  }

  /** With the queue empty everything the walk promises is in place. */
  lemma Complete(b: Bounds, s: Vars)
    requires Progress(b, s) && s.queue == []
    ensures IsImpactMap(b.w, b.root, b.depth, b.maxNodes, Graph(s.nodes, s.edges, s.truncated))
  {
    assert forall n | n in s.nodes && s.nodes[n] < b.depth :: Done(b, s, n);
    if !s.truncated {
      forall n, k: nat | (k == 0 || k <= b.depth) && Near(b.w, b.root, n, k) ensures n in s.nodes {
        if k > 0 || n != b.root { WithinIsListed(b.w, b.root, s.nodes, k, n, k); }
      }
    }
  }

  lemma HiddenStep(b: Bounds, s: Vars)
    requires RootHidden(b, s)
    ensures Progress(b, s.(queue := []))
  {}

  lemma StartStep(b: Bounds, s: Vars)
    requires s == Vars(map[b.root := 0], [], {}, false, [(b.root, 0)])
    requires b.w.visible(b.root) && b.maxNodes > 0
    ensures Progress(b, s)
  {
    assert Shortest(b.w, b.root, b.root, 0);
    assert s.queue[0].0 == b.root;
  }

  // ---------------------------------------------------------------- the walk itself

  class Walk {
    const b: Bounds
    var nodes: map<Node, nat>
    var edges: seq<Edge>
    var edgeSeen: set<(Node, Node, string)>
    var truncated: bool
    var queue: seq<(Node, nat)>

    ghost function View(): Vars
      reads this
    {
      Vars(nodes, edges, edgeSeen, truncated, queue)
    }

    constructor (b: Bounds)
      ensures this.b == b && View() == Vars(map[], [], {}, false, [])
    {
      this.b := b;
      nodes, edges, edgeSeen, truncated, queue := map[], [], {}, false, [];
    }

    /** `add_node`: the node's id unless it is neither listed nor may be added. */
    method AddNode(n: Node, d: nat) returns (id: Option<Node>, isNew: bool)
      modifies this`nodes, this`truncated
      ensures id == if n in nodes then Some(n) else None
      ensures isNew <==> n !in old(nodes) && b.w.visible(n) && |old(nodes)| < b.maxNodes
      ensures nodes == if isNew then old(nodes)[n := d] else old(nodes)
      ensures truncated == (old(truncated) || (n !in old(nodes) && |old(nodes)| >= b.maxNodes))
    {
      if n in nodes {
        return Some(n), false;
      }
      if |nodes| >= b.maxNodes {
        truncated := true;
        return None, false;
      }
      if !b.w.visible(n) {
        return None, false;
      }
      nodes := nodes[n := d];
      return Some(n), true;
    }

    /** `add_edge`: missing ends, loops and repeated keys are ignored. */
    method AddEdge(src: Option<Node>, dst: Option<Node>, caption: string, kind: string, directed: bool)
      modifies this`edges, this`edgeSeen
      ensures
        if src.None? || dst.None? || src == dst || (src.value, dst.value, kind) in old(edgeSeen) then
          edges == old(edges) && edgeSeen == old(edgeSeen)
        else
          && edges == old(edges) + [Edge(src.value, dst.value, caption, kind, directed)]
          && edgeSeen == old(edgeSeen) + {(src.value, dst.value, kind)}
    {
      if src.None? || dst.None? || src == dst {
        return;
      }
      var key := (src.value, dst.value, kind);
      if key in edgeSeen {
        return;
      }
      edgeSeen := edgeSeen + {key};
      edges := edges + [Edge(src.value, dst.value, caption, kind, directed)];
    }

    /** One neighbour: listed if it may be, queued if it is new, and the edge drawn. */
    method Visit(cur: Node, d: nat, i: nat)
      requires i < |b.w.links(cur)| && Expanding(b, View(), cur, d, i)
      modifies this
      ensures Expanding(b, View(), cur, d, i + 1)
      ensures |nodes| >= |old(nodes)| && (|nodes| == |old(nodes)| ==> queue == old(queue))
    {
      var l := b.w.links(cur)[i];
      ghost var s := View();
      var nid, isNew := AddNode(l.other, d + 1);
      if isNew {
        queue := queue + [(l.other, d + 1)];
        NewStep(b, s, View(), cur, d, i);
      } else {
        OldStep(b, s, View(), cur, d, i);
      }
      ghost var t := View();
      AddEdge(if l.inward then nid else Some(cur), if l.inward then Some(cur) else nid, l.caption, l.kind, l.kind == "m1");
      DrawStep(b, t, View(), cur, d, i);
    }

    /** One turn of the loop: take the first entry off the queue and expand it. */
    method Turn()
      requires (Progress(b, View()) || RootHidden(b, View())) && |queue| > 0
      modifies this
      ensures Progress(b, View())
      ensures |nodes| >= |old(nodes)| && (|nodes| == |old(nodes)| ==> |queue| < |old(queue)|)
    {
      ghost var s := View();
      var (cur, d) := queue[0];
      queue := queue[1..];
      if d >= b.depth {
        if Progress(b, s) { SkipStep(b, s); } else { HiddenStep(b, s); }
        return;
      }
      if cur !in nodes {
        HiddenStep(b, s);
        return;
      }
      PopStep(b, s);
      for i := 0 to |b.w.links(cur)|
        invariant Expanding(b, View(), cur, d, i)
        invariant |nodes| >= |old(nodes)| && (|nodes| == |old(nodes)| ==> queue == old(queue)[1..])
      {
        Visit(cur, d, i);
      }
      ExpandedStep(b, View(), cur, d);
    }

    /** The whole walk, from empty. */
    method Run()
      requires View() == Vars(map[], [], {}, false, [])
      modifies this
      ensures IsImpactMap(b.w, b.root, b.depth, b.maxNodes, Graph(nodes, edges, truncated))
    {
      var id, isNew := AddNode(b.root, 0);
      queue := [(b.root, 0)];
      if isNew {
        StartStep(b, View());
      }
      while |queue| > 0
        invariant Progress(b, View()) || RootHidden(b, View())
        decreases if b.maxNodes > |nodes| then b.maxNodes - |nodes| else 0, |queue|
      {
        Turn();
      }
      Complete(b, View());
    }
  }

  /** `graph_for`. */
  method GraphFor(w: World, root: Node, depth: int, maxNodes: int) returns (g: Graph)
    ensures IsImpactMap(w, root, depth, maxNodes, g)
  {
    var walk := new Walk(Bounds(w, root, depth, maxNodes));
    walk.Run();
    g := Graph(walk.nodes, walk.edges, walk.truncated);
  }

  lemma NodesAreNear(w: World, root: Node, depth: nat, maxNodes: int, g: Graph)
    requires IsImpactMap(w, root, depth, maxNodes, g) && !g.truncated
    ensures forall n :: n in g.nodes <==> Near(w, root, n, depth)
  {
    forall n ensures n in g.nodes <==> Near(w, root, n, depth) {
      if n in g.nodes { NearGrows(w, root, n, g.nodes[n], depth); }
    }
  }

  lemma SameNodes(w: World, root: Node, depth: nat, maxNodes: int, g: Graph, h: Graph)
    requires IsImpactMap(w, root, depth, maxNodes, g) && IsImpactMap(w, root, depth, maxNodes, h)
    requires forall n :: n in g.nodes <==> n in h.nodes
    ensures g.nodes == h.nodes
  {
    forall n | n in g.nodes ensures g.nodes[n] == h.nodes[n] {
      SameDistance(w, root, n, g.nodes[n], h.nodes[n]);
    }
  }

  /**
    An untruncated map lists exactly the records within `depth` steps of the root, and two
    such maps of the same world agree on every label and on which edges are drawn.
  */
  lemma ImpactMapExact(w: World, root: Node, depth: nat, maxNodes: int, g: Graph, h: Graph)
    requires IsImpactMap(w, root, depth, maxNodes, g) && !g.truncated
    requires IsImpactMap(w, root, depth, maxNodes, h) && !h.truncated
    ensures forall n :: n in g.nodes <==> Near(w, root, n, depth)
    ensures g.nodes == h.nodes && Keys(g.edges) == Keys(h.edges)
  {
    NodesAreNear(w, root, depth, maxNodes, g);
    NodesAreNear(w, root, depth, maxNodes, h);
    SameNodes(w, root, depth, maxNodes, g, h);
    EdgesDetermined(w, depth, g.nodes, g.edges, h.edges);
    EdgesDetermined(w, depth, h.nodes, h.edges, g.edges);
  }

  /** The side whose own key points at the other is the source; a peer's edge starts at the record that was expanded. */
  ghost predicate Draws(n: Node, l: Link, e: Edge) {
    && e.kind == l.kind && e.caption == l.caption && (e.directed <==> l.kind == "m1")
    && (l.inward ==> e.source == l.other && e.target == n)
    && (!l.inward ==> e.source == n && e.target == l.other)
  }

  /** Record `a` was expanded and has a link to `b`, `b` being the one whose key points at `a` if `inward`. */
  ghost predicate LinkFrom(w: World, nodes: map<Node, nat>, depth: int, a: Node, b: Node, inward: bool, kind: string) {
    a in nodes && nodes[a] < depth && exists l :: l in w.links(a) && l.other == b && l.inward == inward && l.kind == kind
  }

  ghost predicate Drawn(edges: seq<Edge>, x: Node, y: Node, kind: string) {
    exists e :: e in edges && e.source == x && e.target == y && e.kind == kind
  }

  /**
    Which edges an impact map has: one from `x` to `y` exactly when both are listed and
    different, and a record that was expanded has the link, in the direction in which the
    key points; every edge shows a link as it is, and none is drawn twice.
  */
  lemma EdgesMean(w: World, root: Node, depth: int, maxNodes: int, g: Graph, x: Node, y: Node, kind: string)
    requires IsImpactMap(w, root, depth, maxNodes, g)
    ensures Drawn(g.edges, x, y, kind) <==>
      x in g.nodes && y in g.nodes && x != y
      && (LinkFrom(w, g.nodes, depth, x, y, false, kind) || LinkFrom(w, g.nodes, depth, y, x, true, kind))
    ensures forall e | e in g.edges :: exists n, l :: n in g.nodes && g.nodes[n] < depth && l in w.links(n) && Draws(n, l, e)
    ensures forall i, j | 0 <= i < j < |g.edges| ::
      g.edges[i].source != g.edges[j].source || g.edges[i].target != g.edges[j].target || g.edges[i].kind != g.edges[j].kind
  {
    forall e | e in g.edges ensures exists n, l :: n in g.nodes && g.nodes[n] < depth && l in w.links(n) && Draws(n, l, e) {
      var n, l :| LinkGives(w, g.nodes, depth, n, l, e);
      assert Draws(n, l, e);
    }
    if Drawn(g.edges, x, y, kind) {
      var e :| e in g.edges && e.source == x && e.target == y && e.kind == kind;
      var n, l :| n in g.nodes && g.nodes[n] < depth && l in w.links(n) && Draws(n, l, e);
      assert LinkFrom(w, g.nodes, depth, n, l.other, l.inward, kind);
    }
    if x in g.nodes && y in g.nodes && x != y {
      if LinkFrom(w, g.nodes, depth, x, y, false, kind) { LinkIsDrawn(w, depth, g, x, y, false, kind); }
      if LinkFrom(w, g.nodes, depth, y, x, true, kind) { LinkIsDrawn(w, depth, g, y, x, true, kind); }
    }
  }

  lemma LinkIsDrawn(w: World, depth: int, g: Graph, a: Node, b: Node, inward: bool, kind: string)
    requires forall n | n in g.nodes && g.nodes[n] < depth :: LinksDrawn(w, g.nodes, Keys(g.edges), n)
    requires LinkFrom(w, g.nodes, depth, a, b, inward, kind) && b in g.nodes && a != b
    ensures if inward then Drawn(g.edges, b, a, kind) else Drawn(g.edges, a, b, kind)
  {
    var l :| l in w.links(a) && l.other == b && l.inward == inward && l.kind == kind;
    assert LinksDrawn(w, g.nodes, Keys(g.edges), a);
    assert Key(EdgeOf(a, l)) in Keys(g.edges);
    var i :| 0 <= i < |g.edges| && Key(g.edges[i]) == Key(EdgeOf(a, l));
    assert g.edges[i] in g.edges;
  }

  lemma SameDistance(w: World, root: Node, n: Node, d: nat, e: nat)
    requires Shortest(w, root, n, d) && Shortest(w, root, n, e)
    ensures d == e
  {
    if d < e { NearGrows(w, root, n, d, e - 1); }
    if e < d { NearGrows(w, root, n, e, d - 1); }
  }

  lemma EdgesDetermined(w: World, depth: int, nodes: map<Node, nat>, a: seq<Edge>, b: seq<Edge>)
    requires EdgesOk(nodes, a) && EdgesFromLinks(w, nodes, depth, a)
    requires forall n | n in nodes && nodes[n] < depth :: LinksDrawn(w, nodes, Keys(b), n)
    ensures Keys(a) <= Keys(b)
  {
    forall i | 0 <= i < |a| ensures Key(a[i]) in Keys(b) {
      assert a[i] in a;
      var n, l :| LinkGives(w, nodes, depth, n, l, a[i]);
      assert LinksDrawn(w, nodes, Keys(b), n);
    }
  }
}

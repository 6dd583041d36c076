/** The execution graph: adjacency construction and the depth-first cycle check. */
module ExecutionGraphs {
  import opened Wrappers
  import Ordering

  datatype Node = Node(id: string, taskId: string, title: string)
  datatype Edge = Edge(source: string, target: string)

  datatype GraphError = DuplicateNode | MissingNode(id: string) | CycleDetected

  /** The graph keeps its adjacency maps; it never changes after construction. */
  datatype ExecutionGraph = ExecutionGraph(
    nodes: seq<Node>, edges: seq<Edge>,
    children: map<string, seq<string>>, parents: map<string, seq<string>>)
  {
    /** What construction promises: exact adjacency over unique ids, and an order with no edge back. */
    ghost predicate Valid() {
      && UniqueIds(nodes)
      && EndpointsExist(edges, Ids(nodes))
      && IsChildIndex(children, Ids(nodes), edges)
      && IsParentIndex(parents, Ids(nodes), edges)
      && exists order :: IsPostOrder(edges, Ids(nodes), order)
    }

    predicate IsComplete(completed: set<string>) {
      forall n :: n in nodes ==> n.id in completed
    }

    predicate IsReady(n: Node, completed: set<string>) {
      n.id !in completed && n.id in parents && forall p :: p in parents[n.id] ==> p in completed
    }

    /** The ready ones among `candidates`, in place. */
    function ReadyAmong(candidates: seq<Node>, completed: set<string>): seq<Node> {
      if candidates == [] then [] else
        var front, last := candidates[..|candidates| - 1], candidates[|candidates| - 1];
        ReadyAmong(front, completed) + if IsReady(last, completed) then [last] else []
    }

    /** The unresolved nodes whose parents are all resolved, sorted by id. */
    method Ready(completed: set<string>) returns (ready: seq<Node>)
      requires parents.Keys == Ids(nodes)
      ensures ready == Ordering.Sort(ReadyAmong(nodes, completed), IdLe)
    {
      var readyNodes: seq<Node> := [];
      for i := 0 to |nodes|
        invariant readyNodes == ReadyAmong(nodes[..i], completed)
      {
        var node := nodes[i];
        assert nodes[..i + 1][..i] == nodes[..i];
        if node.id !in completed && forall p :: p in parents[node.id] ==> p in completed {
          readyNodes := readyNodes + [node];
        }
      }
      assert nodes[..|nodes|] == nodes;
      ready := Ordering.Sort(readyNodes, IdLe);
    }
  }

  predicate IdLe(a: Node, b: Node) { Ordering.StringLe(a.id, b.id) }

  function Ids(nodes: seq<Node>): set<string> { set n | n in nodes :: n.id }

  ghost predicate UniqueIds(nodes: seq<Node>) {
    forall i, j :: 0 <= i < j < |nodes| ==> nodes[i].id != nodes[j].id
  }

  /** Children of `id`, in edge order. */
  function Targets(edges: seq<Edge>, id: string): (ids: seq<string>)
    ensures forall c :: c in ids <==> Edge(id, c) in edges
  {
    if edges == [] then [] else
      var last := edges[|edges| - 1];
      assert edges == edges[..|edges| - 1] + [last];
      Targets(edges[..|edges| - 1], id) + if last.source == id then [last.target] else []
  }

  /** Parents of `id`, in edge order. */
  function Sources(edges: seq<Edge>, id: string): (ids: seq<string>)
    ensures forall p :: p in ids <==> Edge(p, id) in edges
  {
    if edges == [] then [] else
      var last := edges[|edges| - 1];
      assert edges == edges[..|edges| - 1] + [last];
      Sources(edges[..|edges| - 1], id) + if last.target == id then [last.source] else []
  }

  ghost predicate IsChildIndex(children: map<string, seq<string>>, ids: set<string>, edges: seq<Edge>) {
    children.Keys == ids && forall id :: id in children ==> children[id] == Targets(edges, id)
  }

  ghost predicate IsParentIndex(parents: map<string, seq<string>>, ids: set<string>, edges: seq<Edge>) {
    parents.Keys == ids && forall id :: id in parents ==> parents[id] == Sources(edges, id)
  }

  ghost predicate EndpointsExist(edges: seq<Edge>, ids: set<string>) {
    forall e :: e in edges ==> e.source in ids && e.target in ids
  }

  lemma AppendEdge(edges: seq<Edge>, edge: Edge, id: string)
    ensures Targets(edges + [edge], id) == Targets(edges, id) + if edge.source == id then [edge.target] else []
    ensures Sources(edges + [edge], id) == Sources(edges, id) + if edge.target == id then [edge.source] else []
  {
    assert (edges + [edge])[..|edges|] == edges;
  }

  lemma IndexChild(children: map<string, seq<string>>, ids: set<string>, edges: seq<Edge>, edge: Edge)
    requires IsChildIndex(children, ids, edges) && edge.source in ids
    ensures IsChildIndex(children[edge.source := children[edge.source] + [edge.target]], ids, edges + [edge])
  {
    forall id | id in children { AppendEdge(edges, edge, id); }
  }

  lemma IndexParent(parents: map<string, seq<string>>, ids: set<string>, edges: seq<Edge>, edge: Edge)
    requires IsParentIndex(parents, ids, edges) && edge.target in ids
    ensures IsParentIndex(parents[edge.target := parents[edge.target] + [edge.source]], ids, edges + [edge])
  {
    forall id | id in parents { AppendEdge(edges, edge, id); }
  }

  /** Consecutive entries are joined by edges. */
  ghost predicate IsPath(edges: seq<Edge>, p: seq<string>) {
    forall i :: 0 < i < |p| ==> Edge(p[i - 1], p[i]) in edges
  }

  ghost predicate IsCycle(edges: seq<Edge>, p: seq<string>) {
    |p| >= 2 && p[0] == p[|p| - 1] && IsPath(edges, p)
  }

  ghost predicate HasCycle(edges: seq<Edge>) { exists p :: IsCycle(edges, p) }

  /** `order` lists every id once, and all children of an entry stand before it. */
  ghost predicate IsPostOrder(edges: seq<Edge>, ids: set<string>, order: seq<string>) {
    && (forall i, j :: 0 <= i < j < |order| ==> order[i] != order[j])
    && (forall id :: id in order <==> id in ids)
    && (forall i, c :: 0 <= i < |order| && Edge(order[i], c) in edges ==> c in order[..i])
  }

  /** Along a path the position in a post-order only falls. */
  lemma {:induction false} PathDescends(
    edges: seq<Edge>, ids: set<string>, order: seq<string>, p: seq<string>, i: nat)
    requires IsPostOrder(edges, ids, order) && IsPath(edges, p)
    requires p != [] && i < |order| && order[i] == p[0]
    ensures exists k :: 0 <= k <= i - (|p| - 1) && k < |order| && order[k] == p[|p| - 1]
    decreases |p|
  {
    if |p| > 1 {
      assert Edge(p[0], p[1]) in edges;
      assert p[1] in order[..i];
      var j :| 0 <= j < i && order[j] == p[1];
      forall n | 0 < n < |p[1..]| ensures Edge(p[1..][n - 1], p[1..][n]) in edges {
        assert Edge(p[n], p[n + 1]) in edges by { assert 0 < n + 1 < |p|; assert p[n + 1 - 1] == p[n]; }
      }
      PathDescends(edges, ids, order, p[1..], j);
    }
  }

  /** A post-order rules cycles out. */
  lemma PostOrderExcludesCycles(edges: seq<Edge>, ids: set<string>, order: seq<string>)
    requires IsPostOrder(edges, ids, order)
    requires forall e :: e in edges ==> e.source in ids
    ensures !HasCycle(edges)
  {
    forall p | IsCycle(edges, p) ensures false {
      assert Edge(p[0], p[1]) in edges by { assert Edge(p[1 - 1], p[1]) in edges; }
      var i :| 0 <= i < |order| && order[i] == p[0];
      PathDescends(edges, ids, order, p, i);
    }
  }

  /** `path` lists the recursion stack in call order, each entry a child of the one before. */
  ghost predicate IsCallPath(edges: seq<Edge>, stack: set<string>, path: seq<string>) {
    && (forall id :: id in path <==> id in stack)
    && (forall i, j :: 0 <= i < j < |path| ==> path[i] != path[j])
    && IsPath(edges, path)
  }

  lemma ExtendCallPath(edges: seq<Edge>, stack: set<string>, path: seq<string>, id: string)
    requires IsCallPath(edges, stack, path) && id !in stack
    requires path != [] ==> Edge(path[|path| - 1], id) in edges
    ensures IsCallPath(edges, stack + {id}, path + [id])
  {
    forall i | 0 <= i < |path| ensures path[i] != id { assert path[i] in path; }
  }

  lemma ExtendPostOrder(edges: seq<Edge>, ids: set<string>, order: seq<string>, id: string)
    requires IsPostOrder(edges, ids, order) && id !in ids
    requires forall c :: c in Targets(edges, id) ==> c in ids
    ensures IsPostOrder(edges, ids + {id}, order + [id])
  {
    var longer := order + [id];
    forall i | 0 <= i < |order| ensures order[i] != id { assert order[i] in order; }
    forall i, c | 0 <= i < |longer| && Edge(longer[i], c) in edges ensures c in longer[..i] {
      if i < |order| {
        assert longer[..i] == order[..i];
      } else {
        assert longer[..i] == order;
        assert c in Targets(edges, id);
      }
    }
  }

  lemma BackEdgeClosesCycle(edges: seq<Edge>, stack: set<string>, path: seq<string>, child: string)
    requires IsCallPath(edges, stack, path) && child in stack
    requires path != [] && Edge(path[|path| - 1], child) in edges
    ensures HasCycle(edges)
  {
    var i :| 0 <= i < |path| && path[i] == child;
    var loop := path[i..] + [child];
    forall n | 0 < n < |loop| ensures Edge(loop[n - 1], loop[n]) in edges {
      if n < |path| - i {
        var m := i + n;
        assert 0 < m < |path| && Edge(path[m - 1], path[m]) in edges;
      }
    }
    assert IsCycle(edges, loop);
  }

  /** Adjacency without dangling entries, as construction leaves it. */
  ghost predicate IsChildMap(children: map<string, seq<string>>, edges: seq<Edge>) {
    forall id :: id in children ==>
      children[id] == Targets(edges, id) && forall c :: c in children[id] ==> c in children
  }

  /** The depth-first search, with the two sets its closure shares across recursive calls. */
  class CycleSearch {
    const children: map<string, seq<string>>
    ghost const edges: seq<Edge>
    var visited: set<string>
    var recursionStack: set<string>
    ghost var path: seq<string>       // the recursion stack, in call order
    ghost var finished: seq<string>   // ids whose call returned false, in return order

    constructor (children: map<string, seq<string>>, ghost edges: seq<Edge>)
      requires IsChildMap(children, edges)
      ensures Valid() && this.children == children && this.edges == edges
      ensures visited == {} && recursionStack == {} && path == []
    {
      this.children, this.edges := children, edges;
      visited, recursionStack := {}, {};
      path, finished := [], [];
    }

    ghost predicate Valid() reads this {
      && IsChildMap(children, edges)
      && visited <= children.Keys && recursionStack <= visited
      && IsCallPath(edges, recursionStack, path)
      && IsPostOrder(edges, visited - recursionStack, finished)
    }

    /** Visits everything reachable from `id` that was not visited; true exactly when it met a cycle. */
    method Dfs(id: string) returns (cyclic: bool)
      requires Valid() && id in children && id !in visited
      requires path != [] ==> Edge(path[|path| - 1], id) in edges
      modifies this
      ensures cyclic ==> HasCycle(edges)
      ensures !cyclic ==> Valid() && recursionStack == old(recursionStack) && path == old(path)
      ensures !cyclic ==> old(visited) + {id} <= visited
      decreases children.Keys - visited
    {
      Enter(id);
      var ids := children[id];
      for k := 0 to |ids|
        invariant Valid()
        invariant path == old(path) + [id] && recursionStack == old(recursionStack) + {id}
        invariant old(visited) + {id} <= visited
        invariant forall j :: 0 <= j < k ==> ids[j] in visited - recursionStack
      {
        assert ids[k] in Targets(edges, id);
        if ids[k] !in visited {
          var found := Dfs(ids[k]);
          if found { return true; }
        } else if ids[k] in recursionStack {
          BackEdgeClosesCycle(edges, recursionStack, path, ids[k]);
          return true;
        }
      }
      Leave(id, old(path), old(recursionStack));
      return false;
    }

    /** Adds `id` to both sets. */
    method Enter(id: string)
      requires Valid() && id in children && id !in visited
      requires path != [] ==> Edge(path[|path| - 1], id) in edges
      modifies this
      ensures Valid()
      ensures visited == old(visited) + {id} && recursionStack == old(recursionStack) + {id}
      ensures path == old(path) + [id] && finished == old(finished)
    {
      ExtendCallPath(edges, recursionStack, path, id);
      visited := visited + {id};
      recursionStack := recursionStack + {id};
      path := path + [id];
      assert visited - recursionStack == old(visited - recursionStack);
    }

    /** Takes `id` off the recursion stack once all its children are finished. */
    method Leave(id: string, ghost callers: seq<string>, ghost below: set<string>)
      requires Valid() && id !in below && id in visited
      requires path == callers + [id] && recursionStack == below + {id}
      requires IsCallPath(edges, below, callers)
      requires forall c :: c in Targets(edges, id) ==> c in visited - recursionStack
      modifies this
      ensures Valid() && visited == old(visited) && recursionStack == below && path == callers
    {
      ExtendPostOrder(edges, visited - recursionStack, finished, id);
      recursionStack := recursionStack - {id};
      path := callers;
      finished := finished + [id];
      assert recursionStack == below;
      assert visited - recursionStack == old(visited - recursionStack) + {id};
    }
  }

  /** Runs the search from every node not reached so far; raises exactly on a directed cycle. */
  method CheckCycles(nodes: seq<Node>, edges: seq<Edge>, children: map<string, seq<string>>) returns (cyclic: bool)
    requires IsChildIndex(children, Ids(nodes), edges) && EndpointsExist(edges, Ids(nodes))
    ensures cyclic <==> HasCycle(edges)
    ensures !cyclic ==> exists order :: IsPostOrder(edges, Ids(nodes), order)
  {
    forall id, c | id in children && c in children[id] ensures c in children {
      assert Edge(id, c) in edges by { assert c in Targets(edges, id); }
    }
    var search := new CycleSearch(children, edges);
    for i := 0 to |nodes|
      invariant search.Valid() && search.recursionStack == {} && search.path == []
      invariant search.children == children && search.edges == edges
      invariant forall j :: 0 <= j < i ==> nodes[j].id in search.visited
    {
      if nodes[i].id !in search.visited {
        assert nodes[i].id in Ids(nodes);
        cyclic := search.Dfs(nodes[i].id);
        if cyclic { return; }
      }
    }
    assert search.visited - search.recursionStack == Ids(nodes);
    PostOrderExcludesCycles(edges, Ids(nodes), search.finished);
    cyclic := false;
  }

  /** `id` is the endpoint the edge loop stumbles over: source before target, at the first offending edge. */
  ghost predicate FirstMissing(edges: seq<Edge>, ids: set<string>, id: string) {
    exists k :: 0 <= k < |edges| && EndpointsExist(edges[..k], ids) && MissingEnd(edges[k], ids, id)
  }

  predicate MissingEnd(edge: Edge, ids: set<string>, id: string) {
    if edge.source !in ids then id == edge.source else edge.target !in ids && id == edge.target
  }

  /** Which error construction raises. */
  ghost predicate ConstructionFails(nodes: seq<Node>, edges: seq<Edge>, error: GraphError) {
    match error
    case DuplicateNode => !UniqueIds(nodes)
    case MissingNode(id) => UniqueIds(nodes) && FirstMissing(edges, Ids(nodes), id)
    case CycleDetected => UniqueIds(nodes) && EndpointsExist(edges, Ids(nodes)) && HasCycle(edges)
  }

  lemma {:induction false} IdsCount(nodes: seq<Node>)
    ensures |Ids(nodes)| <= |nodes|
    ensures |Ids(nodes)| == |nodes| <==> UniqueIds(nodes)
  {
    if nodes != [] {
      var front, last := nodes[..|nodes| - 1], nodes[|nodes| - 1];
      IdsCount(front);
      assert nodes == front + [last];
      assert Ids(nodes) == Ids(front) + {last.id};
      if last.id in Ids(front) {
        assert Ids(nodes) == Ids(front);
        var n :| n in front && n.id == last.id;
        var i :| 0 <= i < |front| && front[i] == n;
        assert nodes[i].id == nodes[|nodes| - 1].id;
      } else {
        forall i | 0 <= i < |front| ensures front[i].id != last.id {
          assert front[i] in front;
        }
      }
    }
  }

  /** Fills both adjacency maps, edge by edge. */
  method IndexEdges(nodeIds: set<string>, edges: seq<Edge>)
    returns (r: Result<(map<string, seq<string>>, map<string, seq<string>>), GraphError>)
    ensures r.Success? <==> EndpointsExist(edges, nodeIds)
    ensures r.Success? ==> IsChildIndex(r.value.0, nodeIds, edges) && IsParentIndex(r.value.1, nodeIds, edges)
    ensures r.Failure? ==> r.error.MissingNode? && FirstMissing(edges, nodeIds, r.error.id)
  {
    var children: map<string, seq<string>> := map id | id in nodeIds :: [];
    var parents: map<string, seq<string>> := map id | id in nodeIds :: [];
    for i := 0 to |edges|
      invariant Indexed(children, parents, nodeIds, edges[..i])
    {
      var edge := edges[i];
      if edge.source !in nodeIds || edge.target !in nodeIds {
        var missing := if edge.source !in nodeIds then edge.source else edge.target;
        assert MissingEnd(edges[i], nodeIds, missing);
        return Failure(MissingNode(missing));
      }
      IndexEdge(children, parents, nodeIds, edges, i);
      children := children[edge.source := children[edge.source] + [edge.target]];
      parents := parents[edge.target := parents[edge.target] + [edge.source]];
    }
    assert edges[..|edges|] == edges;
    return Success((children, parents));
  }

  ghost predicate Indexed(children: map<string, seq<string>>, parents: map<string, seq<string>>,
                          ids: set<string>, edges: seq<Edge>) {
    EndpointsExist(edges, ids) && IsChildIndex(children, ids, edges) && IsParentIndex(parents, ids, edges)
  }

  lemma IndexEdge(children: map<string, seq<string>>, parents: map<string, seq<string>>,
                  ids: set<string>, edges: seq<Edge>, i: nat)
    requires i < |edges| && Indexed(children, parents, ids, edges[..i])
    requires edges[i].source in ids && edges[i].target in ids
    ensures Indexed(children[edges[i].source := children[edges[i].source] + [edges[i].target]],
                    parents[edges[i].target := parents[edges[i].target] + [edges[i].source]], ids, edges[..i + 1])
  {
    IndexChild(children, ids, edges[..i], edges[i]);
    IndexParent(parents, ids, edges[..i], edges[i]);
    assert edges[..i + 1] == edges[..i] + [edges[i]];
  }

  /** Builds the graph or raises the first applicable error. */
  method Build(nodes: seq<Node>, edges: seq<Edge>) returns (r: Result<ExecutionGraph, GraphError>)
    ensures r.Success? <==> UniqueIds(nodes) && EndpointsExist(edges, Ids(nodes)) && !HasCycle(edges)
    ensures r.Success? ==> r.value.Valid() && r.value.nodes == nodes && r.value.edges == edges
    ensures r.Failure? ==> ConstructionFails(nodes, edges, r.error)
  {
    IdsCount(nodes);
    var nodeIds := Ids(nodes);
    if |nodeIds| != |nodes| {
      return Failure(DuplicateNode);
    }
    var index := IndexEdges(nodeIds, edges);
    if index.Failure? {
      return Failure(index.error);
    }
    var (children, parents) := index.value;
    var cyclic := CheckCycles(nodes, edges, children);
    if cyclic {
      return Failure(CycleDetected);
    }
    return Success(ExecutionGraph(nodes, edges, children, parents));
  }

  lemma ValidGraphsAreAcyclic(g: ExecutionGraph)
    requires g.Valid()
    ensures !HasCycle(g.edges)
  {
    var order :| IsPostOrder(g.edges, Ids(g.nodes), order);
    PostOrderExcludesCycles(g.edges, Ids(g.nodes), order);
  }

  /** Extending a graph by a node re-runs every check, but only a duplicate id can fail. */
  method AddNode(g: ExecutionGraph, node: Node) returns (r: Result<ExecutionGraph, GraphError>)
    requires g.Valid()
    ensures r == Failure(DuplicateNode) || r.Success?
    ensures r.Success? <==> node.id !in Ids(g.nodes)
    ensures r.Success? ==> r.value.Valid() && r.value.nodes == g.nodes + [node] && r.value.edges == g.edges
  {
    ValidGraphsAreAcyclic(g);
    UniqueIdsExtend(g.nodes, node);
    r := Build(g.nodes + [node], g.edges);
  }

  lemma UniqueIdsExtend(nodes: seq<Node>, node: Node)
    requires UniqueIds(nodes)
    ensures Ids(nodes + [node]) == Ids(nodes) + {node.id}
    ensures UniqueIds(nodes + [node]) <==> node.id !in Ids(nodes)
  {
    forall i | 0 <= i < |nodes| ensures nodes[i].id in Ids(nodes) { assert nodes[i] in nodes; }
    if node.id in Ids(nodes) {
      var n :| n in nodes && n.id == node.id;
      var i :| 0 <= i < |nodes| && nodes[i] == n;
      assert (nodes + [node])[i].id == (nodes + [node])[|nodes|].id;
    }
  }

  /** Extending a graph by an edge succeeds exactly when both ends exist and it closes no cycle. */
  method AddEdge(g: ExecutionGraph, edge: Edge) returns (r: Result<ExecutionGraph, GraphError>)
    requires g.Valid()
    ensures r.Success? <==>
              edge.source in Ids(g.nodes) && edge.target in Ids(g.nodes) && !HasCycle(g.edges + [edge])
    ensures r.Success? ==> r.value.Valid() && r.value.nodes == g.nodes && r.value.edges == g.edges + [edge]
    ensures r.Failure? ==>
              r.error == if edge.source !in Ids(g.nodes) then MissingNode(edge.source)
                         else if edge.target !in Ids(g.nodes) then MissingNode(edge.target) else CycleDetected
  {
    r := Build(g.nodes, g.edges + [edge]);
    assert edge in g.edges + [edge];
    if r.Failure? && r.error.MissingNode? {
      var k :| 0 <= k < |g.edges + [edge]| && MissingEnd((g.edges + [edge])[k], Ids(g.nodes), r.error.id);
      assert k < |g.edges| ==> g.edges[k] in g.edges;
    }
  }
}

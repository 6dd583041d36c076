/** Longest-path levels of an execution graph, and the ready sets that peel them off. */
module Levels {
  import opened ExecutionGraphs
  import Ordering

  ghost predicate EndsAt(edges: seq<Edge>, p: seq<string>, id: string) {
    IsPath(edges, p) && p != [] && p[|p| - 1] == id
  }

  /** No path to `id` visits more than `k` nodes. */
  ghost predicate Shallow(edges: seq<Edge>, id: string, k: nat) {
    forall p :: EndsAt(edges, p, id) ==> |p| <= k
  }

  ghost predicate IsRoot(edges: seq<Edge>, id: string) { forall p :: Edge(p, id) !in edges }

  /** `id` has level `k`: its longest path has `k` edges and starts at a root. */
  ghost predicate HasLevel(edges: seq<Edge>, id: string, k: nat) {
    && Shallow(edges, id, k + 1)
    && exists p :: EndsAt(edges, p, id) && |p| == k + 1 && IsRoot(edges, p[0])
  }

  lemma AppendToPath(edges: seq<Edge>, p: seq<string>, id: string)
    requires p != []
    ensures IsPath(edges, p + [id]) <==> IsPath(edges, p) && Edge(p[|p| - 1], id) in edges
  {
    var q := p + [id];
    if IsPath(edges, q) {
      forall i | 0 < i < |p| ensures Edge(p[i - 1], p[i]) in edges { assert Edge(q[i - 1], q[i]) in edges; }
      assert Edge(q[|p| - 1], q[|p|]) in edges;
    }
  }

  lemma PrependToPath(edges: seq<Edge>, p: seq<string>, id: string)
    requires p != [] && IsPath(edges, p) && Edge(id, p[0]) in edges
    ensures IsPath(edges, [id] + p)
  {}

  /** One layer: a node is shallow at `k + 1` exactly when all its parents are shallow at `k`. */
  lemma ShallowStep(edges: seq<Edge>, id: string, k: nat)
    ensures Shallow(edges, id, k + 1) <==> forall p :: Edge(p, id) in edges ==> Shallow(edges, p, k)
  {
    if Shallow(edges, id, k + 1) {
      forall parent, p | Edge(parent, id) in edges && EndsAt(edges, p, parent) ensures |p| <= k {
        AppendToPath(edges, p, id);
        assert EndsAt(edges, p + [id], id);
      }
    }
    if forall p :: Edge(p, id) in edges ==> Shallow(edges, p, k) {
      forall p | EndsAt(edges, p, id) ensures |p| <= k + 1 {
        if |p| > 1 {
          var front := p[..|p| - 1];
          assert p == front + [id];
          AppendToPath(edges, front, id);
          assert EndsAt(edges, front, front[|front| - 1]);
        }
      }
    }
  }

  /** Being at level `k` is leaving the shallow set exactly between `k` and `k + 1`. */
  lemma LevelIsLayer(edges: seq<Edge>, id: string, k: nat)
    ensures HasLevel(edges, id, k) <==> Shallow(edges, id, k + 1) && !Shallow(edges, id, k)
  {
    if Shallow(edges, id, k + 1) && !Shallow(edges, id, k) {
      var p :| EndsAt(edges, p, id) && |p| > k;
      forall parent ensures Edge(parent, p[0]) !in edges {
        if Edge(parent, p[0]) in edges {
          PrependToPath(edges, p, parent);
          assert EndsAt(edges, [parent] + p, id);
        }
      }
      assert IsRoot(edges, p[0]);
    }
  }

  lemma NothingShallowAtZero(edges: seq<Edge>, id: string)
    ensures !Shallow(edges, id, 0)
  {
    assert EndsAt(edges, [id], id);
  }

  /** `resolved` holds exactly the nodes that are shallow at `k`. */
  ghost predicate IsShallowSet(g: ExecutionGraph, resolved: set<string>, k: nat) {
    forall id :: id in resolved <==> id in Ids(g.nodes) && Shallow(g.edges, id, k)
  }

  lemma {:induction false} ReadyMembers(g: ExecutionGraph, candidates: seq<Node>, completed: set<string>)
    ensures forall n :: n in g.ReadyAmong(candidates, completed) <==> n in candidates && g.IsReady(n, completed)
    ensures UniqueIds(candidates) ==> UniqueIds(g.ReadyAmong(candidates, completed))
  {
    if candidates != [] {
      var front, last := candidates[..|candidates| - 1], candidates[|candidates| - 1];
      ReadyMembers(g, front, completed);
      assert candidates == front + [last];
      var before := g.ReadyAmong(front, completed);
      if UniqueIds(candidates) {
        forall i | 0 <= i < |before| ensures before[i].id != last.id {
          assert before[i] in before;
          var j :| 0 <= j < |front| && front[j] == before[i];
          assert candidates[j].id != candidates[|front|].id;
        }
      }
    }
  }

  lemma UniqueIdsIgnoreArrangement(s: seq<Node>, t: seq<Node>)
    requires UniqueIds(s) && multiset(s) == multiset(t)
    ensures UniqueIds(t)
  {
    var key := (n: Node) => n.id;
    assert Ordering.DistinctBy(s, key);
    Ordering.DistinctIgnoresArrangement(s, t, key);
    forall i, j | 0 <= i < j < |t| ensures t[i].id != t[j].id { assert key(t[i]) != key(t[j]); }
  }

  /** The `k`-th batch: the nodes of level `k`, each once, sorted by id. */
  ghost predicate IsLevelBatch(g: ExecutionGraph, batch: seq<Node>, k: nat) {
    && UniqueIds(batch)
    && Ordering.Sorted(batch, IdLe)
    && forall n :: n in batch <==> n in g.nodes && HasLevel(g.edges, n.id, k)
  }

  /** Batches depend on the nodes and edges alone, not on the order they were declared in. */
  lemma BatchesIgnoreDeclarationOrder(g: ExecutionGraph, h: ExecutionGraph, batch: seq<Node>, other: seq<Node>, k: nat)
    requires g.Valid() && IsLevelBatch(g, batch, k) && IsLevelBatch(h, other, k)
    requires (forall n :: n in g.nodes <==> n in h.nodes) && (forall e :: e in g.edges <==> e in h.edges)
    ensures batch == other
  {
    forall p, id ensures EndsAt(g.edges, p, id) <==> EndsAt(h.edges, p, id) {}
    forall id ensures HasLevel(g.edges, id, k) <==> HasLevel(h.edges, id, k) {}
    forall x, y | x in batch && y in batch && IdLe(x, y) && IdLe(y, x) ensures x == y {
      Ordering.StringOrderIsTotal();
      assert x in g.nodes && y in g.nodes && x.id == y.id;
    }
    IdOrderIsTotal();
    hide HasLevel, EndsAt, IdLe;
    Ordering.SortedUnique(batch, other, IdLe);
  }

  /** What `Ready` returns, as a set. */
  lemma ReadyBatchMembers(g: ExecutionGraph, resolved: set<string>)
    requires g.Valid()
    ensures var batch := Ordering.Sort(g.ReadyAmong(g.nodes, resolved), IdLe);
            && UniqueIds(batch) && Ordering.Sorted(batch, IdLe)
            && forall n :: n in batch <==> n in g.nodes && g.IsReady(n, resolved)
  {
    var ready := g.ReadyAmong(g.nodes, resolved);
    ReadyMembers(g, g.nodes, resolved);
    Ordering.SortKeepsElements(ready, IdLe);
    UniqueIdsIgnoreArrangement(ready, Ordering.Sort(ready, IdLe));
    IdOrderIsTotal();
    Ordering.SortSorts(ready, IdLe);
  }

  /** Ready means unresolved with all parents resolved, whatever is resolved; complete means nothing is left. */
  lemma ReadyExactly(g: ExecutionGraph, resolved: set<string>)
    requires g.Valid()
    ensures forall n :: n in Ordering.Sort(g.ReadyAmong(g.nodes, resolved), IdLe) <==>
              n in g.nodes && n.id !in resolved && forall p :: Edge(p, n.id) in g.edges ==> p in resolved
    ensures g.IsComplete(resolved) <==> forall n :: n in g.nodes ==> n.id in resolved
  {
    ReadyBatchMembers(g, resolved);
    forall n | n in g.nodes
      ensures g.IsReady(n, resolved) <==> n.id !in resolved && forall p :: Edge(p, n.id) in g.edges ==> p in resolved
    {
      assert n.id in Ids(g.nodes) && g.parents[n.id] == Sources(g.edges, n.id);
    }
  }

  lemma IdOrderIsTotal()
    ensures Ordering.TotalPreorder(IdLe)
  {
    Ordering.StringOrderIsTotal();
    forall a: Node, b: Node ensures IdLe(a, b) || IdLe(b, a) { Ordering.StringLeTotal(a.id, b.id); }
    forall a, b, c | IdLe(a, b) && IdLe(b, c) ensures IdLe(a, c) {
      Ordering.StringLeTransitive(a.id, b.id, c.id);
    }
  }

  lemma ReadyIsNextLayer(g: ExecutionGraph, resolved: set<string>, k: nat, n: Node)
    requires g.Valid() && IsShallowSet(g, resolved, k) && n in g.nodes
    ensures g.IsReady(n, resolved) <==> HasLevel(g.edges, n.id, k)
  {
    assert n.id in Ids(g.nodes);
    ShallowStep(g.edges, n.id, k);
    LevelIsLayer(g.edges, n.id, k);
    forall p ensures p in g.parents[n.id] <==> Edge(p, n.id) in g.edges {
      assert g.parents[n.id] == Sources(g.edges, n.id);
    }
  }

  /** Once exactly the `k`-shallow nodes are resolved, the ready batch is level `k`. */
  lemma ReadyIsLevelBatch(g: ExecutionGraph, resolved: set<string>, k: nat)
    requires g.Valid() && IsShallowSet(g, resolved, k)
    ensures IsLevelBatch(g, Ordering.Sort(g.ReadyAmong(g.nodes, resolved), IdLe), k)
  {
    ReadyBatchMembers(g, resolved);
    forall n | n in g.nodes { ReadyIsNextLayer(g, resolved, k, n); }
  }

  /** Resolving level `k` on top of the `k`-shallow nodes gives the `k + 1`-shallow ones. */
  lemma ResolveLevel(g: ExecutionGraph, resolved: set<string>, k: nat, batch: seq<Node>)
    requires g.Valid() && IsShallowSet(g, resolved, k) && IsLevelBatch(g, batch, k)
    ensures IsShallowSet(g, resolved + Ids(batch), k + 1)
    ensures resolved !! Ids(batch)
  {
    forall id | id in Ids(g.nodes)
      ensures id in Ids(batch) <==> HasLevel(g.edges, id, k)
      ensures HasLevel(g.edges, id, k) <==> Shallow(g.edges, id, k + 1) && !Shallow(g.edges, id, k)
    {
      LevelIsLayer(g.edges, id, k);
      var n :| n in g.nodes && n.id == id;
      if HasLevel(g.edges, id, k) { assert n in batch; }
    }
    forall id | id in Ids(batch) ensures id in Ids(g.nodes) {
      var n :| n in batch && n.id == id;
      assert n in g.nodes;
    }
  }

  /** No deadlock: while a node is unresolved, one whose parents are all resolved exists. */
  lemma SomeNodeIsReady(g: ExecutionGraph, resolved: set<string>)
    requires g.Valid() && !g.IsComplete(resolved)
    ensures Ordering.Sort(g.ReadyAmong(g.nodes, resolved), IdLe) != []
  {
    var order :| IsPostOrder(g.edges, Ids(g.nodes), order);
    var n :| n in g.nodes && n.id !in resolved;
    assert n.id in Ids(g.nodes);
    var i :| 0 <= i < |order| && order[i] == n.id;
    var id := LatestUnresolved(g, resolved, order, i);
    ReadyBatchMembers(g, resolved);
    var m :| m in g.nodes && m.id == id;
    assert g.IsReady(m, resolved) by { assert g.parents[id] == Sources(g.edges, id); }
    assert m in Ordering.Sort(g.ReadyAmong(g.nodes, resolved), IdLe);
  }

  lemma {:induction false} LatestUnresolved(g: ExecutionGraph, resolved: set<string>, order: seq<string>, i: nat)
    returns (id: string)
    requires g.Valid() && IsPostOrder(g.edges, Ids(g.nodes), order)
    requires i < |order| && order[i] !in resolved
    ensures id in Ids(g.nodes) && id !in resolved
    ensures forall p :: Edge(p, id) in g.edges ==> p in resolved
    decreases |order| - i
  {
    if p :| Edge(p, order[i]) in g.edges && p !in resolved {
      assert p in Ids(g.nodes);
      var j :| 0 <= j < |order| && order[j] == p;
      assert order[i] in order[..j];
      id := LatestUnresolved(g, resolved, order, j);
    } else {
      id := order[i];
    }
  }
}

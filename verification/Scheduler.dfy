/** The batch loop that drains an execution graph, and what its batches are. */
module Scheduler {
  import opened ExecutionGraphs
  import opened Levels

  datatype FailurePolicy = FailFast | Continue | Retry | Fallback

  /** What one dispatch met: no worker for the task, or a worker result. */
  datatype Dispatch = NoWorker | Ran(success: bool)

  /** An arbitrary worker pool: the outcome may depend on how many nodes were dispatched before. */
  type Workers = (nat, Node) -> Dispatch

  /** Ids of the dispatched nodes whose worker succeeded, the first of them being dispatch number `from`. */
  ghost function Completed(order: seq<Node>, workers: Workers, from: nat): set<string> {
    if order == [] then {} else
      var k := |order| - 1;
      Completed(order[..k], workers, from) + if workers(from + k, order[k]) == Ran(true) then {order[k].id} else {}
  }

  /** Ids of the dispatched nodes that found no worker or whose worker failed. */
  ghost function Failed(order: seq<Node>, workers: Workers, from: nat): set<string> {
    if order == [] then {} else
      var k := |order| - 1;
      Failed(order[..k], workers, from) + if workers(from + k, order[k]) != Ran(true) then {order[k].id} else {}
  }

  /** The worker results of the dispatched nodes; a node without a worker has none. */
  function Results(order: seq<Node>, workers: Workers, from: nat): map<string, bool> {
    if order == [] then map[] else
      var front, last := order[..|order| - 1], order[|order| - 1];
      match workers(from + |front|, last)
      case NoWorker => Results(front, workers, from)
      case Ran(success) => Results(front, workers, from)[last.id := success]
  }

  /** A node counts as completed for a succeeding worker, as failed for a failing or missing one. */
  lemma {:induction false} OutcomesExactly(order: seq<Node>, workers: Workers, from: nat, id: string)
    ensures id in Completed(order, workers, from) <==>
              exists i :: 0 <= i < |order| && order[i].id == id && workers(from + i, order[i]) == Ran(true)
    ensures id in Failed(order, workers, from) <==>
              exists i :: 0 <= i < |order| && order[i].id == id && workers(from + i, order[i]) in {NoWorker, Ran(false)}
  {
    if order != [] {
      var k := |order| - 1;
      OutcomesExactly(order[..k], workers, from, id);
      hide Completed, Failed;
      assert order == order[..k] + [order[k]];
      DispatchOne(order[..k], order[k], workers, from);
    }
  }

  /** Distinct nodes have a result exactly where a worker ran, and it is that worker's. */
  lemma {:induction false} ResultsExactly(order: seq<Node>, workers: Workers, from: nat, i: nat)
    requires UniqueIds(order) && i < |order|
    ensures var id, dispatch := order[i].id, workers(from + i, order[i]);
            && (id in Results(order, workers, from) <==> dispatch.Ran?)
            && (dispatch.Ran? ==> Results(order, workers, from)[id] == dispatch.success)
  {
    var k := |order| - 1;
    assert order == order[..k] + [order[k]];
    ReportOne(order[..k], order[k], workers, from);
    ResultsAreDispatched(order[..k], workers, from);
    if i < k { ResultsExactly(order[..k], workers, from, i); }
    assert order[k].id !in Ids(order[..k]);
    hide Results;
  }

  lemma {:induction false} ResultsAreDispatched(order: seq<Node>, workers: Workers, from: nat)
    ensures Results(order, workers, from).Keys <= Ids(order)
  {
    if order != [] {
      var k := |order| - 1;
      ResultsAreDispatched(order[..k], workers, from);
      assert order == order[..k] + [order[k]];
    }
  }

  lemma {:induction false} OutcomesConcat(a: seq<Node>, b: seq<Node>, workers: Workers, from: nat)
    ensures Completed(a + b, workers, from) == Completed(a, workers, from) + Completed(b, workers, from + |a|)
    ensures Failed(a + b, workers, from) == Failed(a, workers, from) + Failed(b, workers, from + |a|)
    decreases |b|
  {
    if b == [] {
      assert a + b == a;
    } else {
      OutcomesConcat(a, b[..|b| - 1], workers, from);
      assert (a + b)[..|a + b| - 1] == a + b[..|b| - 1];
    }
  }

  lemma {:induction false} ResolvedIsDispatched(order: seq<Node>, workers: Workers, from: nat)
    ensures Completed(order, workers, from) + Failed(order, workers, from) == Ids(order)
    ensures UniqueIds(order) ==> Completed(order, workers, from) !! Failed(order, workers, from)
  {
    if order != [] {
      var front, last := order[..|order| - 1], order[|order| - 1];
      assert order == front + [last] && (UniqueIds(order) ==> UniqueIds(front));
      hide *;
      ResolvedIsDispatched(front, workers, from);
      DispatchOne(front, last, workers, from);
      OneMoreId(front, last);
      if UniqueIds(order) { UniqueIdsExtend(front, last); }
    }
  }

  lemma OneMoreId(order: seq<Node>, node: Node)
    ensures Ids(order + [node]) == Ids(order) + {node.id}
  {}

  /** The mutable accumulator of one batch. */
  class BatchResult {
    var completed: set<string>
    var failed: set<string>
    var results: map<string, bool>

    constructor ()
      ensures completed == {} && failed == {} && results == map[]
    {
      completed, failed, results := {}, {}, map[];
    }
  }

  /**
   * Runs `batch` node by node, `earlier` being the number of dispatches already made. A node without a
   * worker fails and the batch goes on; under FailFast a failing worker ends the batch.
   */
  method ExecuteBatch(batch: seq<Node>, workers: Workers, policy: FailurePolicy, earlier: nat)
    returns (result: BatchResult, ghost dispatched: seq<Node>)
    ensures fresh(result) && dispatched <= batch
    ensures result.completed == Completed(dispatched, workers, earlier)
    ensures result.failed == Failed(dispatched, workers, earlier)
    ensures dispatched != batch ==>
              && policy.FailFast? && dispatched != [] && result.failed != {}
              && workers(earlier + |dispatched| - 1, dispatched[|dispatched| - 1]) == Ran(false)
    ensures policy.FailFast? && dispatched != [] ==> NoneFailed(dispatched[..|dispatched| - 1], workers, earlier)
    ensures result.results == Results(dispatched, workers, earlier)
  {
    result := new BatchResult();
    dispatched := [];
    assert Completed([], workers, earlier) == {} && Failed([], workers, earlier) == {};
    assert Results([], workers, earlier) == map[] && NoneFailed([], workers, earlier);
    hide *;
    for i := 0 to |batch|
      invariant fresh(result) && dispatched <= batch && |dispatched| == i
      invariant result.completed == Completed(dispatched, workers, earlier)
      invariant result.failed == Failed(dispatched, workers, earlier)
      invariant policy.FailFast? ==> NoneFailed(dispatched, workers, earlier)
      invariant result.results == Results(dispatched, workers, earlier)
    {
      var node := batch[i];
      DispatchOne(dispatched, node, workers, earlier);
      ReportOne(dispatched, node, workers, earlier);
      assert (dispatched + [node])[..|dispatched|] == dispatched;
      dispatched := dispatched + [node];
      var dispatch := workers(earlier + i, node);
      if dispatch.NoWorker? {
        result.failed := result.failed + {node.id};
        continue;
      }
      result.results := result.results[node.id := dispatch.success];
      if dispatch.success {
        result.completed := result.completed + {node.id};
      } else {
        result.failed := result.failed + {node.id};
        if policy.FailFast? {
          break;
        }
      }
    }
  }

  /** No worker failed; missing ones do not count. */
  predicate NoneFailed(order: seq<Node>, workers: Workers, from: nat) {
    forall i :: 0 <= i < |order| ==> workers(from + i, order[i]) != Ran(false)
  }

  lemma DispatchOne(order: seq<Node>, node: Node, workers: Workers, from: nat)
    ensures workers(from + |order|, node) == Ran(true) ==>
              && Completed(order + [node], workers, from) == Completed(order, workers, from) + {node.id}
              && Failed(order + [node], workers, from) == Failed(order, workers, from)
    ensures workers(from + |order|, node) != Ran(true) ==>
              && Completed(order + [node], workers, from) == Completed(order, workers, from)
              && Failed(order + [node], workers, from) == Failed(order, workers, from) + {node.id}
  {
    assert (order + [node])[..|order|] == order;
  }

  lemma ReportOne(order: seq<Node>, node: Node, workers: Workers, from: nat)
    ensures var dispatch, results := workers(from + |order|, node), Results(order, workers, from);
            Results(order + [node], workers, from) ==
            if dispatch.Ran? then results[node.id := dispatch.success] else results
    ensures NoneFailed(order, workers, from) && workers(from + |order|, node) != Ran(false) ==>
              NoneFailed(order + [node], workers, from)
  {
    assert (order + [node])[..|order|] == order;
  }

  function Flatten(batches: seq<seq<Node>>): seq<Node> {
    if batches == [] then [] else Flatten(batches[..|batches| - 1]) + batches[|batches| - 1]
  }

  /** Every parent of a dispatched node was dispatched before it. */
  ghost predicate IsLinearExtension(edges: seq<Edge>, order: seq<Node>) {
    forall i, p :: 0 <= i < |order| && Edge(p, order[i].id) in edges ==> p in Ids(order[..i])
  }

  /** No node path is longer than `height` nodes, and some path has that many. */
  ghost predicate IsHeight(g: ExecutionGraph, height: nat) {
    && (forall n :: n in g.nodes ==> Shallow(g.edges, n.id, height))
    && (height > 0 ==> exists n :: n in g.nodes && HasLevel(g.edges, n.id, height - 1))
  }

  /**
   * Drains `g`. The ghost results are the formed batches, the dispatch order, and whether the loop ever
   * left through its no-ready-node exit.
   */
  method Execute(g: ExecutionGraph, workers: Workers, policy: FailurePolicy)
    returns (completed: set<string>, failed: set<string>,
             ghost batches: seq<seq<Node>>, ghost order: seq<Node>, ghost deadlocked: bool)
    requires g.Valid()
    // Outcome of every dispatch, in dispatch order; nothing else is resolved.
    ensures completed == Completed(order, workers, 0) && failed == Failed(order, workers, 0)
    ensures completed !! failed && completed + failed <= Ids(g.nodes)
    // Batches are levels, and the dispatch order follows them: see `Explained`.
    ensures Explained(g, batches, order)
    // So what is resolved is closed under parents.
    ensures forall e :: e in g.edges && e.target in completed + failed ==> e.source in completed + failed
    // Only fail-fast after a failure leaves nodes behind; otherwise the loop takes height-many batches.
    ensures !deadlocked
    ensures completed + failed != Ids(g.nodes) ==> policy.FailFast? && failed != {}
    // And fail-fast goes no further than the batch in which something first failed, for want of a worker or otherwise.
    ensures policy.FailFast? && failed != {} ==>
              batches != [] && Failed(Flatten(batches[..|batches| - 1]), workers, 0) == {}
    ensures !policy.FailFast? || failed == {} ==>
              order == Flatten(batches) && completed + failed == Ids(g.nodes) && IsHeight(g, |batches|)
  {
    completed, failed := {}, {};
    batches, order, deadlocked := [], [], false;
    NothingResolvedYet(g, workers);
    hide *;
    while !g.IsComplete(completed + failed)
      invariant completed == Completed(order, workers, 0) && failed == Failed(order, workers, 0)
      invariant !policy.FailFast? || failed == {}
      invariant Drained(g, batches, order) && Explained(g, batches, order) && !deadlocked
      invariant order == Flatten(batches)
      decreases Ids(g.nodes) - (completed + failed)
    {
      BeforeTurn(g, batches, order, workers);
      var batch := g.Ready(completed + failed);
      deadlocked := batch == [];
      if batch == [] {
        break;
      }
      var result, dispatched := ExecuteBatch(batch, workers, policy, |completed + failed|);
      TurnKeeps(g, batches, order, batch, dispatched);
      TurnOutcomes(order, dispatched, workers);
      FlattenOne(batches, batch);
      batches := batches + [batch];
      order := order + dispatched;
      completed := completed + result.completed;
      failed := failed + result.failed;
      if policy.FailFast? && result.failed != {} {
        break;
      }
    }
    AfterLoop(g, batches, order, workers);
  }

  lemma FlattenOne(batches: seq<seq<Node>>, batch: seq<Node>)
    ensures Flatten(batches + [batch]) == Flatten(batches) + batch
    ensures (batches + [batch])[..|batches + [batch]| - 1] == batches
  {}

  lemma BeforeTurn(g: ExecutionGraph, batches: seq<seq<Node>>, order: seq<Node>, workers: Workers)
    requires g.Valid() && Drained(g, batches, order)
    ensures Explained(g, batches, order)
    ensures Completed(order, workers, 0) + Failed(order, workers, 0) == Ids(order) && |Ids(order)| == |order|
    ensures g.parents.Keys == Ids(g.nodes)
    ensures !g.IsComplete(Ids(order)) ==> Ordering.Sort(g.ReadyAmong(g.nodes, Ids(order)), IdLe) != []
  {
    ResolvedIsDispatched(order, workers, 0);
    IdsCount(order);
    if !g.IsComplete(Ids(order)) { SomeNodeIsReady(g, Ids(order)); }
  }

  /** One turn resolves a (prefix of a) level and keeps the order explained. */
  lemma TurnKeeps(g: ExecutionGraph, batches: seq<seq<Node>>, order: seq<Node>, batch: seq<Node>, dispatched: seq<Node>)
    requires g.Valid() && Drained(g, batches, order) && dispatched <= batch
    requires batch == Ordering.Sort(g.ReadyAmong(g.nodes, Ids(order)), IdLe) != []
    ensures Explained(g, batches + [batch], order + dispatched)
    ensures dispatched == batch ==> Drained(g, batches + [batch], order + dispatched)
    ensures batch[0].id in Ids(g.nodes) - Ids(order)
  {
    ReadyIsLevelBatch(g, Ids(order), |batches|);
    ResolveSomething(g, order, batch, |batches|);
    hide *;
    DispatchLevel(g, batches, order, batch, dispatched);
  }

  lemma TurnOutcomes(order: seq<Node>, dispatched: seq<Node>, workers: Workers)
    ensures Completed(order + dispatched, workers, 0) ==
            Completed(order, workers, 0) + Completed(dispatched, workers, |order|)
    ensures Failed(order + dispatched, workers, 0) ==
            Failed(order, workers, 0) + Failed(dispatched, workers, |order|)
    ensures Completed(order + dispatched, workers, 0) + Failed(order + dispatched, workers, 0) ==
            Ids(order) + Ids(dispatched)
    ensures Ids(order + dispatched) == Ids(order) + Ids(dispatched)
    ensures dispatched != [] ==> dispatched[0].id in Ids(dispatched)
  {
    OutcomesConcat(order, dispatched, workers, 0);
    ResolvedIsDispatched(order + dispatched, workers, 0);
    IdsConcat(order, dispatched);
    if dispatched != [] { assert dispatched[0] in dispatched; }
  }

  lemma AfterLoop(g: ExecutionGraph, batches: seq<seq<Node>>, order: seq<Node>, workers: Workers)
    requires g.Valid() && Explained(g, batches, order)
    ensures Completed(order, workers, 0) !! Failed(order, workers, 0)
    ensures Completed(order, workers, 0) + Failed(order, workers, 0) == Ids(order)
    ensures forall e :: e in g.edges && e.target in Ids(order) ==> e.source in Ids(order)
    ensures Ids(order) <= Ids(g.nodes)
    ensures Drained(g, batches, order) && g.IsComplete(Ids(order)) ==>
              order == Flatten(batches) && Ids(order) == Ids(g.nodes) && IsHeight(g, |batches|)
  {
    ResolvedIsDispatched(order, workers, 0);
    ResolvedIsClosed(g, order);
    if Drained(g, batches, order) && g.IsComplete(Ids(order)) {
      assert Ids(order) == Ids(g.nodes);
      DrainedHeight(g, batches);
    }
  }

  lemma NothingResolvedYet(g: ExecutionGraph, workers: Workers)
    ensures Drained(g, [], []) && Explained(g, [], [])
    ensures Completed([], workers, 0) == {} && Failed([], workers, 0) == {}
  {
    forall id { NothingShallowAtZero(g.edges, id); }
  }

  /**
   * Each formed batch is one longest-path level; the dispatch order runs through the batches, repeats no
   * node and never takes a node before its parents.
   */
  ghost predicate Explained(g: ExecutionGraph, batches: seq<seq<Node>>, order: seq<Node>) {
    && LevelsSoFar(g, batches) && order <= Flatten(batches)
    && UniqueIds(order) && IsLinearExtension(g.edges, order) && Ids(order) <= Ids(g.nodes)
  }

  /** After each full batch: the first levels, resolved in order. */
  ghost predicate Drained(g: ExecutionGraph, batches: seq<seq<Node>>, order: seq<Node>) {
    && LevelsSoFar(g, batches)
    && order == Flatten(batches) && UniqueIds(order) && IsLinearExtension(g.edges, order)
    && IsShallowSet(g, Ids(order), |batches|)
  }

  ghost predicate LevelsSoFar(g: ExecutionGraph, batches: seq<seq<Node>>) {
    forall k :: 0 <= k < |batches| ==> IsLevelBatch(g, batches[k], k) && batches[k] != []
  }

  /** Dispatching (a prefix of) the next level keeps the dispatch order a linear extension. */
  lemma DispatchLevel(g: ExecutionGraph, batches: seq<seq<Node>>, order: seq<Node>,
                      batch: seq<Node>, dispatched: seq<Node>)
    requires g.Valid() && Drained(g, batches, order)
    requires IsLevelBatch(g, batch, |batches|) && batch != [] && dispatched <= batch
    ensures Explained(g, batches + [batch], order + dispatched)
    ensures dispatched == batch ==> Drained(g, batches + [batch], order + dispatched)
  {
    assert (batches + [batch])[..|batches|] == batches;
    ResolveLevel(g, Ids(order), |batches|, batch);
    IdsConcat(order, dispatched);
    IdsConcat(order, batch);
    forall n | n in dispatched ensures n in batch {}
    NewIdsStayUnique(order, dispatched, Ids(batch));
    ExtendOrder(g, order, dispatched, |batches|);
  }

  lemma IdsConcat(a: seq<Node>, b: seq<Node>)
    ensures Ids(a + b) == Ids(a) + Ids(b)
  {}

  lemma NewIdsStayUnique(order: seq<Node>, dispatched: seq<Node>, fresh_: set<string>)
    requires UniqueIds(order) && UniqueIds(dispatched)
    requires Ids(order) !! fresh_ && Ids(dispatched) <= fresh_
    ensures UniqueIds(order + dispatched)
  {
    forall n | n in order ensures n.id in Ids(order) {}
    forall n | n in dispatched ensures n.id in Ids(dispatched) {}
  }

  /** The parents of a level-`k` node were resolved with the shallower levels. */
  lemma ParentsAreShallow(g: ExecutionGraph, order: seq<Node>, k: nat, n: Node)
    requires g.Valid() && IsShallowSet(g, Ids(order), k) && HasLevel(g.edges, n.id, k)
    ensures forall p :: Edge(p, n.id) in g.edges ==> p in Ids(order)
  {
    ShallowStep(g.edges, n.id, k);
  }

  lemma ExtendOrder(g: ExecutionGraph, order: seq<Node>, dispatched: seq<Node>, k: nat)
    requires g.Valid() && IsLinearExtension(g.edges, order) && IsShallowSet(g, Ids(order), k)
    requires forall n :: n in dispatched ==> HasLevel(g.edges, n.id, k)
    ensures IsLinearExtension(g.edges, order + dispatched)
  {
    var longer := order + dispatched;
    forall i, p | 0 <= i < |longer| && Edge(p, longer[i].id) in g.edges ensures p in Ids(longer[..i]) {
      if i < |order| {
        assert longer[..i] == order[..i];
      } else {
        assert longer[i] == dispatched[i - |order|];
        ParentsAreShallow(g, order, k, longer[i]);
        PrefixIds(order, longer, i);
      }
    }
  }

  lemma PrefixIds(order: seq<Node>, longer: seq<Node>, i: nat)
    requires order <= longer && |order| <= i <= |longer|
    ensures Ids(order) <= Ids(longer[..i])
  {}

  /** A nonempty level holds something unresolved, so the loop makes progress. */
  lemma ResolveSomething(g: ExecutionGraph, order: seq<Node>, batch: seq<Node>, k: nat)
    requires g.Valid() && IsShallowSet(g, Ids(order), k) && IsLevelBatch(g, batch, k) && batch != []
    ensures batch[0].id in Ids(g.nodes) && batch[0].id !in Ids(order)
  {}

  lemma ResolvedIsClosed(g: ExecutionGraph, order: seq<Node>)
    requires IsLinearExtension(g.edges, order)
    ensures forall e :: e in g.edges && e.target in Ids(order) ==> e.source in Ids(order)
  {}

  lemma DrainedHeight(g: ExecutionGraph, batches: seq<seq<Node>>)
    requires LevelsSoFar(g, batches) && IsShallowSet(g, Ids(g.nodes), |batches|)
    ensures IsHeight(g, |batches|)
  {
    forall n | n in g.nodes ensures Shallow(g.edges, n.id, |batches|) { assert n.id in Ids(g.nodes); }
    if |batches| > 0 {
      var last := batches[|batches| - 1];
      assert last[0] in last;
      assert last[0] in g.nodes && HasLevel(g.edges, last[0].id, |batches| - 1);
    }
  }
}

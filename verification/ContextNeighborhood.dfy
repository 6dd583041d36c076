/** Candidate expansion: the depth-limited neighbourhood of the seeds, and scores that only rise. */
module ContextNeighborhood {

  datatype Candidate = Candidate(score: int, reason: string)
  datatype Symbol = Symbol(qualifiedName: string, moduleName: string, path: string)
  datatype GraphNode = GraphNode(id: string, qualifiedName: string, name: string)
  datatype GraphEdge = GraphEdge(source: string, target: string)
  datatype Dependency = Dependency(source: string, target: string)

  /** Neighbours in the undirected view of the graph. */
  ghost predicate Adjacent(edges: seq<GraphEdge>, a: string, b: string) {
    GraphEdge(a, b) in edges || GraphEdge(b, a) in edges
  }

  ghost predicate IsWalk(edges: seq<GraphEdge>, seeds: set<string>, p: seq<string>, id: string) {
    && p != [] && p[0] in seeds && p[|p| - 1] == id
    && forall i :: 0 < i < |p| ==> Adjacent(edges, p[i - 1], p[i])
  }

  /** `id` lies within `depth` undirected steps of a seed. */
  ghost predicate Within(edges: seq<GraphEdge>, seeds: set<string>, depth: nat, id: string) {
    exists p :: IsWalk(edges, seeds, p, id) && |p| <= depth + 1
  }

  /** Everything one edge away from `ids`. */
  function Neighbours(edges: seq<GraphEdge>, ids: set<string>): set<string> {
    (set e | e in edges && e.source in ids :: e.target) + (set e | e in edges && e.target in ids :: e.source)
  }

  lemma NeighbourOf(edges: seq<GraphEdge>, ids: set<string>, b: string) returns (a: string)
    requires b in Neighbours(edges, ids)
    ensures a in ids && Adjacent(edges, a, b)
  {
    if e :| e in edges && e.source in ids && e.target == b {
      a := e.source;
    } else {
      var e :| e in edges && e.target in ids && e.source == b;
      a := e.target;
    }
  }

  lemma AdjacentIsNeighbour(edges: seq<GraphEdge>, ids: set<string>, a: string, b: string)
    requires a in ids && Adjacent(edges, a, b)
    ensures b in Neighbours(edges, ids)
  {}

  ghost function Ball(edges: seq<GraphEdge>, seeds: set<string>, depth: nat): set<string> {
    if depth == 0 then seeds
    else Ball(edges, seeds, depth - 1) + Neighbours(edges, Ball(edges, seeds, depth - 1))
  }

  lemma {:induction false} BallIsDistance(edges: seq<GraphEdge>, seeds: set<string>, depth: nat, id: string)
    ensures id in Ball(edges, seeds, depth) <==> Within(edges, seeds, depth, id)
  {
    if id in Ball(edges, seeds, depth) {
      var p := WalkTo(edges, seeds, depth, id);
    }
    if Within(edges, seeds, depth, id) {
      var p :| IsWalk(edges, seeds, p, id) && |p| <= depth + 1;
      WalkStaysInBall(edges, seeds, depth, p, id);
    }
  }

  lemma {:induction false} WalkTo(edges: seq<GraphEdge>, seeds: set<string>, depth: nat, id: string)
    returns (p: seq<string>)
    requires id in Ball(edges, seeds, depth)
    ensures IsWalk(edges, seeds, p, id) && |p| <= depth + 1
  {
    if depth == 0 {
      p := [id];
    } else if id in Ball(edges, seeds, depth - 1) {
      p := WalkTo(edges, seeds, depth - 1, id);
    } else {
      var a := NeighbourOf(edges, Ball(edges, seeds, depth - 1), id);
      var q := WalkTo(edges, seeds, depth - 1, a);
      p := q + [id];
      ExtendWalk(edges, seeds, q, a, id);
    }
  }

  lemma ExtendWalk(edges: seq<GraphEdge>, seeds: set<string>, p: seq<string>, a: string, b: string)
    requires IsWalk(edges, seeds, p, a) && Adjacent(edges, a, b)
    ensures IsWalk(edges, seeds, p + [b], b)
  {}

  lemma {:induction false} WalkStaysInBall(edges: seq<GraphEdge>, seeds: set<string>, depth: nat,
                                         p: seq<string>, id: string)
    requires IsWalk(edges, seeds, p, id) && |p| <= depth + 1
    ensures id in Ball(edges, seeds, depth)
    decreases depth
  {
    if |p| > 1 {
      var front := p[..|p| - 1];
      WalkStaysInBall(edges, seeds, depth - 1, front, front[|front| - 1]);
      AdjacentIsNeighbour(edges, Ball(edges, seeds, depth - 1), p[|p| - 2], p[|p| - 1]);
    } else if depth > 0 {
      WalkStaysInBall(edges, seeds, depth - 1, p, id);
    }
  }

  lemma {:induction false} BallsStopGrowing(edges: seq<GraphEdge>, seeds: set<string>, m: nat, n: nat)
    requires m <= n && Neighbours(edges, Ball(edges, seeds, m)) <= Ball(edges, seeds, m)
    ensures Ball(edges, seeds, n) == Ball(edges, seeds, m)
    decreases n
  {
    hide Neighbours;
    if m < n { BallsStopGrowing(edges, seeds, m, n - 1); }
  }

  /** `frontier` covers what the last step added to the ball. */
  ghost predicate IsFrontier(edges: seq<GraphEdge>, seeds: set<string>, depth: nat, frontier: set<string>) {
    && frontier <= Ball(edges, seeds, depth)
    && if depth == 0 then frontier == seeds else Ball(edges, seeds, depth) <= Ball(edges, seeds, depth - 1) + frontier
  }

  /** Expanding only the last frontier reaches the same nodes as expanding the whole ball. */
  lemma FrontierSuffices(edges: seq<GraphEdge>, seeds: set<string>, depth: nat, frontier: set<string>)
    requires IsFrontier(edges, seeds, depth, frontier)
    ensures Neighbours(edges, Ball(edges, seeds, depth)) - Ball(edges, seeds, depth) ==
            Neighbours(edges, frontier) - Ball(edges, seeds, depth)
  {}

  /** The breadth-first loop, with its early exit on an empty frontier. */
  method Expand(edges: seq<GraphEdge>, seeds: set<string>, maxDepth: nat) returns (visited: set<string>)
    ensures visited == Ball(edges, seeds, maxDepth)
  {
    var frontier := seeds;
    visited := seeds;
    StartFrontier(edges, seeds);
    hide *;
    for step := 0 to maxDepth
      invariant visited == Ball(edges, seeds, step) && IsFrontier(edges, seeds, step, frontier)
    {
      PassOverEdges(edges, seeds, step, maxDepth, frontier);
      var nextFrontier: set<string> := {};
      for i := 0 to |edges|
        invariant nextFrontier == Neighbours(edges[..i], frontier)
      {
        NeighboursGrow(edges, i, frontier);
        if edges[i].source in frontier {
          nextFrontier := nextFrontier + {edges[i].target};
        }
        if edges[i].target in frontier {
          nextFrontier := nextFrontier + {edges[i].source};
        }
      }
      assert edges[..|edges|] == edges;
      nextFrontier := nextFrontier - visited;
      if nextFrontier == {} {
        return;
      }
      visited := visited + nextFrontier;
      frontier := nextFrontier;
    }
  }

  lemma StartFrontier(edges: seq<GraphEdge>, seeds: set<string>)
    ensures Ball(edges, seeds, 0) == seeds && IsFrontier(edges, seeds, 0, seeds)
  {}

  /** One completed pass over the edges. */
  lemma PassOverEdges(edges: seq<GraphEdge>, seeds: set<string>, depth: nat, maxDepth: nat, frontier: set<string>)
    requires depth <= maxDepth && IsFrontier(edges, seeds, depth, frontier)
    ensures Neighbours([], frontier) == {}
    ensures var ball, next := Ball(edges, seeds, depth), Neighbours(edges, frontier) - Ball(edges, seeds, depth);
            && Ball(edges, seeds, depth + 1) == ball + next
            && IsFrontier(edges, seeds, depth + 1, next)
            && (next == {} ==> Ball(edges, seeds, maxDepth) == ball)
  {
    FrontierSuffices(edges, seeds, depth, frontier);
    if Neighbours(edges, frontier) - Ball(edges, seeds, depth) == {} {
      var ball := Ball(edges, seeds, depth);
      forall b | b in Neighbours(edges, ball) ensures b in ball {
        assert b !in Neighbours(edges, ball) - ball;
      }
      BallsStopGrowing(edges, seeds, depth, maxDepth);
    }
  }

  lemma NeighboursGrow(edges: seq<GraphEdge>, i: nat, ids: set<string>)
    requires i < |edges|
    ensures Neighbours(edges[..i + 1], ids) ==
            Neighbours(edges[..i], ids) +
            (if edges[i].source in ids then {edges[i].target} else {}) +
            (if edges[i].target in ids then {edges[i].source} else {})
  {
    assert edges[..i + 1] == edges[..i] + [edges[i]];
  }

  /** `after` is `before` with every touched key raised to `candidate`, unless it already scored as high. */
  ghost predicate IsRaised<K>(before: map<K, Candidate>, after: map<K, Candidate>,
                              touched: set<K>, candidate: Candidate) {
    && after.Keys == before.Keys + touched
    && forall k :: k in after ==>
         after[k] == if k in touched && (k !in before || candidate.score > before[k].score)
           then candidate else before[k]
  }

  /** No candidate is dropped and no score falls. */
  ghost predicate NeverLowered<K>(before: map<K, Candidate>, after: map<K, Candidate>) {
    forall k :: k in before ==> k in after && after[k].score >= before[k].score
  }

  lemma RaisingNeverLowers<K>(before: map<K, Candidate>, after: map<K, Candidate>,
                              touched: set<K>, candidate: Candidate)
    requires IsRaised(before, after, touched, candidate)
    ensures NeverLowered(before, after)
  {}

  /** Raising touches an entry only to better its score, and then replaces it whole. */
  lemma RaisedExactly<K>(before: map<K, Candidate>, after: map<K, Candidate>, touched: set<K>, candidate: Candidate,
                         k: K)
    requires IsRaised(before, after, touched, candidate)
    ensures k in after <==> k in before || k in touched
    ensures k in touched && (k !in before || before[k].score < candidate.score) ==> after[k] == candidate
    ensures k in before && (k !in touched || before[k].score >= candidate.score) ==> after[k] == before[k]
  {}

  lemma RaisesCompose<K>(a: map<K, Candidate>, b: map<K, Candidate>, c: map<K, Candidate>,
                         first: set<K>, second: set<K>, candidate: Candidate)
    requires IsRaised(a, b, first, candidate) && IsRaised(b, c, second, candidate)
    ensures IsRaised(a, c, first + second, candidate)
  {}

  predicate IsRelated(d: Dependency, targets: set<string>, s: Symbol) {
    && (d.source in targets || d.target in targets)
    && (s.moduleName == d.source || s.moduleName == d.target)
  }

  /** The symbols in a module at either end of a dependency that touches a target. */
  ghost function Structural(index: seq<Symbol>, dependencies: seq<Dependency>, targets: set<string>): set<Symbol> {
    set s | s in index && exists d :: d in dependencies && IsRelated(d, targets, s)
  }

  lemma StructuralStep(index: seq<Symbol>, dependencies: seq<Dependency>, targets: set<string>, i: nat)
    requires i < |dependencies|
    ensures var d := dependencies[i];
            Structural(index, dependencies[..i + 1], targets) ==
            Structural(index, dependencies[..i], targets) + set s | s in index && IsRelated(d, targets, s)
  {
    assert dependencies[..i + 1] == dependencies[..i] + [dependencies[i]];
  }

  /** Ids of the nodes named after a target. */
  function SeedIds(nodes: seq<GraphNode>, targeted: set<string>): set<string> {
    set n | n in nodes && (n.qualifiedName in targeted || n.name in targeted) :: n.id
  }

  /** The seeds and the structural neighbours, member by member. */
  lemma TargetsExactly(nodes: seq<GraphNode>, targeted: set<string>, index: seq<Symbol>, dependencies: seq<Dependency>,
                       modules: set<string>)
    ensures forall id :: id in SeedIds(nodes, targeted) <==>
                           exists n :: n in nodes && n.id == id && (n.qualifiedName in targeted || n.name in targeted)
    ensures forall s :: s in Structural(index, dependencies, modules) <==>
                          && s in index
                          && exists d :: d in dependencies && (d.source in modules || d.target in modules)
                                         && (s.moduleName == d.source || s.moduleName == d.target)
  {}

  /** Edges join both ways, and the impacted symbols leave the seeds out. */
  lemma ImpactExactly(index: seq<Symbol>, nodes: seq<GraphNode>, edges: seq<GraphEdge>, seeds: set<string>, depth: nat)
    ensures forall a, b :: Adjacent(edges, a, b) <==>
                             exists e :: e in edges && {e.source, e.target} == {a, b}
    ensures forall s :: s in Impacted(index, nodes, edges, seeds, depth) <==>
                          && s in index
                          && exists n :: n in nodes && n.qualifiedName == s.qualifiedName
                                         && n.id in Ball(edges, seeds, depth) - seeds
  {
    forall a, b ensures Adjacent(edges, a, b) <==> exists e :: e in edges && {e.source, e.target} == {a, b} {
      AdjacentExactly(edges, a, b);
    }
    forall id { BallIsDistance(edges, seeds, depth, id); }
    hide Ball, Within, Adjacent;
  }

  lemma AdjacentExactly(edges: seq<GraphEdge>, a: string, b: string)
    ensures Adjacent(edges, a, b) <==> exists e :: e in edges && {e.source, e.target} == {a, b}
  {
    if Adjacent(edges, a, b) {
      var e := if GraphEdge(a, b) in edges then GraphEdge(a, b) else GraphEdge(b, a);
      assert e in edges && {e.source, e.target} == {a, b};
    }
    if e :| e in edges && {e.source, e.target} == {a, b} {
      assert e.source in {a, b} && e.target in {a, b} && a in {e.source, e.target} && b in {e.source, e.target};
      assert e == GraphEdge(a, b) || e == GraphEdge(b, a);
    }
  }

  /** The symbols of non-seed nodes within `depth` undirected steps of a seed. */
  ghost function Impacted(index: seq<Symbol>, nodes: seq<GraphNode>, edges: seq<GraphEdge>,
                          seeds: set<string>, depth: nat): set<Symbol> {
    set s | s in index && exists n :: n in nodes && n.qualifiedName == s.qualifiedName
                            && n.id !in seeds && Within(edges, seeds, depth, n.id)
  }

  lemma ImpactedByNames(index: seq<Symbol>, nodes: seq<GraphNode>, edges: seq<GraphEdge>,
                        seeds: set<string>, depth: nat)
    ensures var names := set n | n in nodes && n.id in Ball(edges, seeds, depth) && n.id !in seeds :: n.qualifiedName;
            Impacted(index, nodes, edges, seeds, depth) == set s | s in index && s.qualifiedName in names
  {
    forall id { BallIsDistance(edges, seeds, depth, id); }
    hide Ball, Within;
  }

  lemma NothingImpactedAtZero(index: seq<Symbol>, nodes: seq<GraphNode>, edges: seq<GraphEdge>, seeds: set<string>)
    ensures Impacted(index, nodes, edges, seeds, 0) == {}
  {
    forall id { BallIsDistance(edges, seeds, 0, id); }
    hide Within;
  }

  /** The two candidate dictionaries the expansion passes update in place. */
  class CandidateSets {
    var files: map<string, Candidate>
    var symbols: map<Symbol, Candidate>

    constructor (files: map<string, Candidate>, symbols: map<Symbol, Candidate>)
      ensures this.files == files && this.symbols == symbols
    {
      this.files, this.symbols := files, symbols;
    }

    /** Raises every symbol of the index that `touches` picks. */
    method RaiseSymbols(index: seq<Symbol>, touches: Symbol -> bool, candidate: Candidate)
      modifies `symbols
      ensures IsRaised(old(symbols), symbols, (set s | s in index && touches(s)), candidate)
    {
      for i := 0 to |index|
        invariant IsRaised(old(symbols), symbols, (set s | s in index[..i] && touches(s)), candidate)
      {
        var symbol := index[i];
        assert index[..i + 1] == index[..i] + [symbol];
        if touches(symbol) {
          if symbol !in symbols || candidate.score > symbols[symbol].score {
            symbols := symbols[symbol := candidate];
          }
        }
      }
      assert index[..|index|] == index;
    }

    function TargetModules(moduleOfPath: string -> string): (modules: set<string>)
      reads this
      ensures forall m :: m in modules <==>
                (exists s :: s in symbols && s.moduleName == m) || (exists p :: p in files && moduleOfPath(p) == m)
    {
      (set s | s in symbols :: s.moduleName) + (set p | p in files :: moduleOfPath(p))
    }

    /** First pass: symbols at either end of every dependency that touches a targeted module. */
    method AddDirectStructure(dependencies: seq<Dependency>, index: seq<Symbol>, moduleOfPath: string -> string)
      modifies `symbols
      ensures IsRaised(old(symbols), symbols, Structural(index, dependencies, old(TargetModules(moduleOfPath))),
                       Candidate(600, "direct_structure"))
      ensures NeverLowered(old(symbols), symbols)
    {
      var targets := TargetModules(moduleOfPath);
      var candidate := Candidate(600, "direct_structure");
      for i := 0 to |dependencies|
        invariant IsRaised(old(symbols), symbols, Structural(index, dependencies[..i], targets), candidate)
      {
        var d := dependencies[i];
        StructuralStep(index, dependencies, targets, i);
        ghost var before := symbols;
        ghost var touched := set s | s in index && IsRelated(d, targets, s);
        if d.source in targets || d.target in targets {
          RaiseSymbols(index, (s: Symbol) => IsRelated(d, targets, s), candidate);
        }
        RaisesCompose(old(symbols), before, symbols, Structural(index, dependencies[..i], targets), touched, candidate);
      }
      assert dependencies[..|dependencies|] == dependencies;
      RaisingNeverLowers(old(symbols), symbols, Structural(index, dependencies, targets), candidate);
    }

    function Targeted(): (names: set<string>)
      reads this
      ensures forall n :: n in names <==> exists s :: s in symbols && (s.qualifiedName == n || s.moduleName == n)
    {
      (set s | s in symbols :: s.qualifiedName) + (set s | s in symbols :: s.moduleName)
    }

    /** Second pass: symbols whose nodes lie within `maxDepth` steps of the seeds, the seeds excepted. */
    method AddGraphNeighborhood(nodes: seq<GraphNode>, edges: seq<GraphEdge>, index: seq<Symbol>, maxDepth: nat)
      modifies `symbols
      ensures IsRaised(old(symbols), symbols, Impacted(index, nodes, edges, SeedIds(nodes, old(Targeted())), maxDepth),
                       Candidate(450, "impact_expansion"))
      ensures NeverLowered(old(symbols), symbols)
    {
      var seeds := SeedIds(nodes, Targeted());
      ghost var touched := Impacted(index, nodes, edges, seeds, maxDepth);
      if maxDepth == 0 {
        NothingImpactedAtZero(index, nodes, edges, seeds);
        return;
      }
      var visited := Expand(edges, seeds, maxDepth);
      var relatedNames := set n | n in nodes && n.id in visited && n.id !in seeds :: n.qualifiedName;
      ImpactedByNames(index, nodes, edges, seeds, maxDepth);
      RaiseSymbols(index, (s: Symbol) => s.qualifiedName in relatedNames, Candidate(450, "impact_expansion"));
      RaisingNeverLowers(old(symbols), symbols, touched, Candidate(450, "impact_expansion"));
    }

    /**
     * Third pass: every selected symbol brings its file along, at no lower a score. `order` is the order in which
     * the dictionary yields its symbols; among symbols of one file the first of the best prevails.
     */
    method AddSymbolFiles(artifacts: set<string>, order: seq<Symbol>)
      requires forall s :: s in order <==> s in symbols
      modifies `files
      ensures BroughtAlong(old(files), files, symbols, artifacts, order)
      ensures NeverLowered(old(files), files)
      ensures forall s :: s in symbols && s.path in artifacts ==>
                s.path in files && files[s.path].score >= symbols[s].score
    {
      for i := 0 to |order|
        invariant BroughtAlong(old(files), files, symbols, artifacts, order[..i])
      {
        var symbol := order[i];
        ghost var before := files;
        assert symbol in symbols && order[..i + 1] == order[..i] + [symbol];
        if symbol.path in artifacts && (symbol.path !in files || symbols[symbol].score > files[symbol.path].score) {
          files := files[symbol.path := symbols[symbol]];
        }
        BringOne(old(files), before, files, symbols, artifacts, order[..i], symbol);
      }
      assert order[..|order|] == order;
      forall s | s in symbols && s.path in artifacts
        ensures s.path in files && files[s.path].score >= symbols[s].score
      {
        var k :| 0 <= k < |order| && order[k] == s;
      }
    }
  }

  /** `order[k]` is the first symbol of file `p` with the highest score, which beats the old one. */
  ghost predicate Prevails(before: map<string, Candidate>, symbols: map<Symbol, Candidate>,
                           order: seq<Symbol>, k: int, p: string)
    requires forall s :: s in order ==> s in symbols
  {
    && 0 <= k < |order| && order[k].path == p
    && (p in before ==> before[p].score < symbols[order[k]].score)
    && (forall j :: 0 <= j < |order| && order[j].path == p ==> symbols[order[j]].score <= symbols[order[k]].score)
    && (forall j :: 0 <= j < k && order[j].path == p ==> symbols[order[j]].score < symbols[order[k]].score)
  }

  /** There is one prevailing symbol at most; it is the first of the best, and it beats the old entry. */
  lemma PrevailsExactly(before: map<string, Candidate>, symbols: map<Symbol, Candidate>, order: seq<Symbol>,
                        k: int, j: int, p: string)
    requires (forall s :: s in order ==> s in symbols) && Prevails(before, symbols, order, k, p)
    requires 0 <= j < |order| && order[j].path == p
    ensures symbols[order[j]].score <= symbols[order[k]].score
    ensures symbols[order[j]].score == symbols[order[k]].score ==> k <= j
    ensures p in before ==> before[p].score < symbols[order[k]].score
  {}

  /** No symbol of file `p` beats its old entry. */
  ghost predicate Withstands(before: map<string, Candidate>, symbols: map<Symbol, Candidate>,
                             order: seq<Symbol>, p: string)
    requires forall s :: s in order ==> s in symbols
  {
    p in before && forall j :: 0 <= j < |order| && order[j].path == p ==> symbols[order[j]].score <= before[p].score
  }

  /** The entry of file `p` is its old one, where that withstands, or that of the prevailing symbol. */
  ghost predicate IsBest(before: map<string, Candidate>, symbols: map<Symbol, Candidate>, order: seq<Symbol>,
                         p: string, entry: Candidate)
    requires forall s :: s in order ==> s in symbols
  {
    || (Withstands(before, symbols, order, p) && entry == before[p])
    || exists k :: Prevails(before, symbols, order, k, p) && entry == symbols[order[k]]
  }

  ghost predicate BroughtAlong(before: map<string, Candidate>, after: map<string, Candidate>,
                               symbols: map<Symbol, Candidate>, artifacts: set<string>, order: seq<Symbol>)
    requires forall s :: s in order ==> s in symbols
  {
    && after.Keys == before.Keys + (set s | s in order && s.path in artifacts :: s.path)
    && forall p :: p in after ==>
         if p in artifacts then IsBest(before, symbols, order, p, after[p]) else p in before && after[p] == before[p]
  }

  lemma BringOne(before: map<string, Candidate>, middle: map<string, Candidate>, after: map<string, Candidate>,
                 symbols: map<Symbol, Candidate>, artifacts: set<string>, order: seq<Symbol>, s: Symbol)
    requires s in symbols && (forall x :: x in order ==> x in symbols)
    requires BroughtAlong(before, middle, symbols, artifacts, order)
    requires after == if s.path in artifacts && (s.path !in middle || symbols[s].score > middle[s.path].score)
                      then middle[s.path := symbols[s]] else middle
    ensures BroughtAlong(before, after, symbols, artifacts, order + [s])
  {
    forall p | p in after && p in artifacts ensures IsBest(before, symbols, order + [s], p, after[p]) {
      if s.path != p {
        OtherFileKeeps(before, symbols, order, s, p, middle[p]);
      } else if p in middle {
        NextSymbolCompares(before, symbols, order, s, middle[p]);
      } else {
        forall j | 0 <= j < |order| ensures order[j].path != p { assert order[j] in order; }
        assert Prevails(before, symbols, order + [s], |order|, p);
      }
    }
    hide IsBest;
  }

  lemma OtherFileKeeps(before: map<string, Candidate>, symbols: map<Symbol, Candidate>, order: seq<Symbol>,
                       s: Symbol, p: string, entry: Candidate)
    requires s in symbols && s.path != p && (forall x :: x in order ==> x in symbols)
    requires IsBest(before, symbols, order, p, entry)
    ensures IsBest(before, symbols, order + [s], p, entry)
  {
    if k :| Prevails(before, symbols, order, k, p) && entry == symbols[order[k]] {
      assert Prevails(before, symbols, order + [s], k, p);
    }
  }

  lemma NextSymbolCompares(before: map<string, Candidate>, symbols: map<Symbol, Candidate>, order: seq<Symbol>,
                           s: Symbol, entry: Candidate)
    requires s in symbols && (forall x :: x in order ==> x in symbols)
    requires IsBest(before, symbols, order, s.path, entry)
    ensures IsBest(before, symbols, order + [s], s.path, if symbols[s].score > entry.score then symbols[s] else entry)
  {
    if symbols[s].score > entry.score {
      assert Prevails(before, symbols, order + [s], |order|, s.path);
    } else if k :| Prevails(before, symbols, order, k, s.path) && entry == symbols[order[k]] {
      assert Prevails(before, symbols, order + [s], k, s.path);
    }
  }
}

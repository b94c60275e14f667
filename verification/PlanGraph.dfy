/** Dependencies between plan steps: their validation, the topological order, the closure
    and the output links (scripts/plan_graph.py). */
module PlanGraph {
  import opened Sequences
  import opened Text
  import opened Plans

  type Graph = map<int, seq<int>>

  // -------------------------------------------------- the prerequisite graph

  function DeclaredDeps(step: Step): seq<int> {
    match step.dependsOn case None => [] case Some(ds) => ds
  }

  predicate GraphAccepted(steps: seq<Step>) {
    && (forall s :: s in steps ==> s.id >= 1)
    && Distinct(StepIds(steps))
    && (|steps| > 1 ==> forall s :: s in steps ==> s.dependsOn.Some?)
    && forall s :: s in steps ==> DepsAccepted(DeclaredDeps(s), s.id, StepIds(steps))
  }

  predicate DepsAccepted(deps: seq<int>, id: int, ids: seq<int>) {
    (forall d :: d in deps ==> d >= 1 && d != id && d in ids) && Distinct(deps)
  }

  function GraphOf(steps: seq<Step>): Graph {
    if steps == [] then map[]
    else GraphOf(steps[..|steps| - 1])[steps[|steps| - 1].id := DeclaredDeps(steps[|steps| - 1])]
  }

  /** `effective_dependencies`. */
  function EffectiveDependencies(steps: seq<Step>): Result<Graph> {
    if GraphAccepted(steps) then Ok(GraphOf(steps)) else Err
  }

  lemma {:induction false} GraphEntries(steps: seq<Step>)
    requires Distinct(StepIds(steps))
    ensures GraphOf(steps).Keys == Elems(StepIds(steps))
    ensures forall s :: s in steps ==> s.id in GraphOf(steps) && GraphOf(steps)[s.id] == DeclaredDeps(s)
  {
    if steps != [] {
      var n := |steps| - 1;
      var ids := StepIds(steps);
      assert StepIds(steps[..n]) == ids[..n];
      GraphEntries(steps[..n]);
      assert ids == ids[..n] + [ids[n]];
      ElemsAppend(ids[..n], ids[n]);
      forall s | s in steps ensures s.id in GraphOf(steps) && GraphOf(steps)[s.id] == DeclaredDeps(s) {
        var i :| 0 <= i < |steps| && steps[i] == s;
        if i < n { assert steps[..n][i] == s; assert ids[i] != ids[n]; }
      }
    }
  }

  /** What every accepted graph satisfies: the keys are the listed ids, edges stay inside. */
  ghost predicate GraphOk(ids: seq<int>, g: Graph) {
    && Distinct(ids) && g.Keys == Elems(ids)
    && forall s :: s in g ==> Distinct(g[s]) && forall d :: d in g[s] ==> d in g
  }

  lemma AcceptedGraphOk(steps: seq<Step>)
    requires EffectiveDependencies(steps).Ok?
    ensures GraphOk(StepIds(steps), EffectiveDependencies(steps).value)
  {
    var g := GraphOf(steps);
    GraphEntries(steps);
    forall s | s in g ensures Distinct(g[s]) && forall d :: d in g[s] ==> d in g {
      assert s in Elems(StepIds(steps));
      var i :| 0 <= i < |steps| && StepIds(steps)[i] == s;
      assert steps[i] in steps && steps[i].id == s;
      assert forall d :: d in StepIds(steps) ==> d in Elems(StepIds(steps));
    }
  }

  // -------------------------------------------------- walks and cycles

  /** A walk along prerequisite edges. */
  ghost predicate Walk(g: Graph, p: seq<int>) {
    |p| > 0 && forall i :: 0 <= i < |p| - 1 ==> EdgeAt(g, p, i)
  }

  ghost predicate EdgeAt(g: Graph, p: seq<int>, i: nat)
    requires i + 1 < |p|
  {
    p[i] in g && p[i + 1] in g[p[i]]
  }

  ghost predicate Cycle(g: Graph, p: seq<int>) {
    Walk(g, p) && |p| > 1 && p[0] == p[|p| - 1]
  }

  ghost predicate Cyclic(g: Graph) {
    exists p :: Cycle(g, p)
  }

  /** `from` depends on `to`, directly or not. */
  ghost predicate Reaches(g: Graph, from: int, to: int) {
    exists p :: Walk(g, p) && |p| > 1 && p[0] == from && p[|p| - 1] == to
  }

  // -------------------------------------------------- topological orders

  ghost predicate ReadyAt(g: Graph, before: seq<int>, s: int) {
    s in g && s !in before && forall d :: d in g[s] ==> d in before
  }

  ghost predicate InTurn(g: Graph, order: seq<int>, i: nat)
    requires i < |order|
  {
    ReadyAt(g, order[..i], order[i])
  }

  ghost predicate Respects(g: Graph, order: seq<int>) {
    forall i :: 0 <= i < |order| ==> InTurn(g, order, i)
  }

  /** Every step once, each after all of its prerequisites. */
  ghost predicate Topological(g: Graph, order: seq<int>) {
    Respects(g, order) && Elems(order) == g.Keys
  }

  /** Positions of the steps in the plan's own list. */
  ghost function Ranks(ids: seq<int>, order: seq<int>): (r: seq<int>)
    requires Elems(order) <= Elems(ids)
    ensures |r| == |order|
  {
    seq(|order|, i requires 0 <= i < |order| => RankOf(ids, order, i))
  }

  ghost function RankOf(ids: seq<int>, order: seq<int>, i: nat): int
    requires Elems(order) <= Elems(ids) && i < |order|
  {
    assert order[i] in Elems(ids);
    Position(ids, order[i])
  }

  ghost predicate LeastTopological(ids: seq<int>, g: Graph, order: seq<int>) {
    && Elems(ids) == g.Keys
    && Topological(g, order)
    && forall other :: Topological(g, other) ==> LexLe(Ranks(ids, order), Ranks(ids, other))
  }

  lemma RespectsExtend(g: Graph, order: seq<int>, s: int)
    requires Respects(g, order) && ReadyAt(g, order, s)
    ensures Respects(g, order + [s])
    ensures Elems(order + [s]) == Elems(order) + {s}
  {
    var longer := order + [s];
    forall i | 0 <= i < |longer| ensures InTurn(g, longer, i) {
      if i < |order| {
        assert longer[..i] == order[..i];
        assert InTurn(g, order, i);
      } else {
        assert longer[..i] == order;
      }
    }
    ElemsAppend(order, s);
  }

  lemma RespectsDistinct(g: Graph, order: seq<int>)
    requires Respects(g, order)
    ensures Distinct(order) && Elems(order) <= g.Keys && |order| == |Elems(order)|
  {
    forall i, j | 0 <= i < j < |order| ensures order[i] != order[j] {
      assert InTurn(g, order, j);
      assert order[..j][i] == order[i];
    }
    forall x | x in Elems(order) ensures x in g.Keys {
      var i :| 0 <= i < |order| && order[i] == x;
      assert InTurn(g, order, i);
    }
    DistinctCardinality(order);
  }

  ghost predicate LeastSoFar(ids: seq<int>, g: Graph, order: seq<int>) {
    && Elems(ids) == g.Keys && Elems(order) <= g.Keys
    && forall other :: Topological(g, other) && |order| <= |other|
         ==> LexLe(Ranks(ids, order), Ranks(ids, other)[..|order|])
  }

  lemma RanksAppend(ids: seq<int>, order: seq<int>, s: int)
    requires Elems(order) <= Elems(ids) && s in ids
    ensures Elems(order + [s]) <= Elems(ids)
    ensures Ranks(ids, order + [s]) == Ranks(ids, order) + [Position(ids, s)]
  {
    ElemsAppend(order, s);
  }

  lemma RanksPrefix(ids: seq<int>, order: seq<int>, other: seq<int>)
    requires Elems(order) <= Elems(ids) && Elems(other) <= Elems(ids) && |order| <= |other|
    requires Ranks(ids, order) == Ranks(ids, other)[..|order|]
    ensures order == other[..|order|]
  {
    forall i | 0 <= i < |order| ensures order[i] == other[i] {
      assert Ranks(ids, order)[i] == Ranks(ids, other)[i];
      assert RankOf(ids, order, i) == RankOf(ids, other, i);
    }
  }

  lemma LeastSoFarExtend(ids: seq<int>, g: Graph, order: seq<int>, s: int)
    requires GraphOk(ids, g)
    requires Respects(g, order) && LeastSoFar(ids, g, order) && ReadyAt(g, order, s)
    requires forall x :: ReadyAt(g, order, x) && x in ids ==> Position(ids, s) <= Position(ids, x)
    ensures LeastSoFar(ids, g, order + [s])
  {
    hide LexLe, Respects, Position, Ranks;
    assert s in Elems(ids);
    RanksAppend(ids, order, s);
    forall other | Topological(g, other) && |order| + 1 <= |other|
      ensures LexLe(Ranks(ids, order + [s]), Ranks(ids, other)[..|order| + 1])
    {
      LeastSoFarStep(ids, g, order, s, other);
    }
  }

  lemma LeastSoFarStep(ids: seq<int>, g: Graph, order: seq<int>, s: int, other: seq<int>)
    requires Elems(ids) == g.Keys && Elems(order) <= g.Keys && s in ids
    requires forall x :: ReadyAt(g, order, x) && x in ids ==> Position(ids, s) <= Position(ids, x)
    requires Topological(g, other) && |order| + 1 <= |other|
    requires LexLe(Ranks(ids, order), Ranks(ids, other)[..|order|])
    ensures Elems(order + [s]) <= Elems(ids)
    ensures LexLe(Ranks(ids, order + [s]), Ranks(ids, other)[..|order| + 1])
  {
    hide LexLess, Respects, Position, Ranks, ReadyAt;
    var k := |order|;
    RanksAppend(ids, order, s);
    var mine, theirs := Ranks(ids, order), Ranks(ids, other);
    assert theirs[..k + 1] == theirs[..k] + [theirs[k]];
    if mine == theirs[..k] {
      RanksPrefix(ids, order, other);
      ReadyNext(ids, g, other, k);
      LexLeExtend(mine, theirs[..k], Position(ids, s), theirs[k]);
    } else {
      LexLessExtend(mine, theirs[..k], [Position(ids, s)], [theirs[k]]);
    }
  }

  lemma ReadyNext(ids: seq<int>, g: Graph, other: seq<int>, k: nat)
    requires Elems(ids) == g.Keys && Topological(g, other) && k < |other|
    ensures ReadyAt(g, other[..k], other[k]) && other[k] in ids
    ensures Ranks(ids, other)[k] == Position(ids, other[k])
  {
    assert InTurn(g, other, k);
    assert other[k] in Elems(ids);
    assert Ranks(ids, other)[k] == RankOf(ids, other, k);
  }

  // -------------------------------------------------- Kahn's algorithm

  /** A list of distinct steps sorted by rank is the plan's list filtered by membership. */
  function ByRank(ids: seq<int>, s: set<int>): (r: seq<int>)
    ensures Elems(r) == Elems(ids) * s
    ensures Distinct(ids) ==> Distinct(r)
  {
    if ids == [] then []
    else
      var n := |ids| - 1;
      assert ids == ids[..n] + [ids[n]];
      ElemsAppend(ids[..n], ids[n]);
      var r := ByRank(ids[..n], s);
      ElemsAppend(r, ids[n]);
      assert Distinct(ids) ==> ids[n] !in Elems(ids[..n]);
      assert forall x :: x in r ==> x in Elems(r);
      if ids[n] in s then r + [ids[n]] else r
  }

  lemma {:induction false} ByRankFirst(ids: seq<int>, s: set<int>, x: int)
    requires Distinct(ids) && x in ids && x in s
    ensures ByRank(ids, s) != []
    ensures ByRank(ids, s)[0] in ids && Position(ids, ByRank(ids, s)[0]) <= Position(ids, x)
  {
    var n := |ids| - 1;
    assert ids == ids[..n] + [ids[n]];
    if x in ids[..n] {
      ByRankFirst(ids[..n], s, x);
      RankOfPrefix(ids, n, x);
      RankOfPrefix(ids, n, ByRank(ids[..n], s)[0]);
    } else {
      var first := ByRank(ids, s)[0];
      assert first in Elems(ByRank(ids, s));
      assert x == ids[n];
      assert Position(ids, x) == n by { assert ids[Position(ids, x)] == ids[n]; }
    }
  }

  lemma RankOfPrefix(ids: seq<int>, n: nat, x: int)
    requires Distinct(ids) && n <= |ids| && x in ids[..n]
    ensures x in ids && Position(ids[..n], x) == Position(ids, x)
  {
    var r := Position(ids[..n], x);
    assert ids[r] == x == ids[Position(ids, x)];
  }

  /** The prerequisites of s that are not yet placed: what `indegree[s]` counts. */
  function Waiting(g: Graph, placed: set<int>, s: int): set<int>
    requires s in g
  {
    Elems(g[s]) - placed
  }

  ghost predicate Counts(g: Graph, result: seq<int>, indegree: map<int, int>) {
    && indegree.Keys == g.Keys
    && forall s :: s in g ==> indegree[s] == |Waiting(g, Elems(result), s)|
  }

  ghost predicate AllReady(g: Graph, result: seq<int>, ready: seq<int>) {
    forall s :: s in ready <==> ReadyAt(g, result, s)
  }

  ghost predicate KahnState(ids: seq<int>, g: Graph, result: seq<int>, indegree: map<int, int>, ready: seq<int>) {
    && Respects(g, result) && LeastSoFar(ids, g, result)
    && Counts(g, result, indegree)
    && AllReady(g, result, ready)
  }

  lemma NoneWaiting(g: Graph, result: seq<int>, s: int)
    requires s in g
    ensures |Waiting(g, Elems(result), s)| == 0 <==> forall d :: d in g[s] ==> d in result
  {
    if |Waiting(g, Elems(result), s)| == 0 {
      forall d | d in g[s] ensures d in result {
        assert d !in Waiting(g, Elems(result), s);
      }
    } else {
      var d := Member(Waiting(g, Elems(result), s));
    }
  }

  lemma WaitingAfter(g: Graph, result: seq<int>, s: int, t: int)
    requires t in g && s !in result
    ensures |Waiting(g, Elems(result + [s]), t)| == |Waiting(g, Elems(result), t)| - (if s in g[t] then 1 else 0)
  {
    ElemsAppend(result, s);
    assert Waiting(g, Elems(result + [s]), t) == Waiting(g, Elems(result), t) - {s};
  }

  lemma FirstByRank(ids: seq<int>, ready: seq<int>)
    requires Distinct(ids) && ready != [] && Elems(ready) <= Elems(ids)
    ensures var sorted := ByRank(ids, Elems(ready));
      && sorted != [] && sorted[0] in ready && sorted[0] in ids
      && forall x :: x in ready && x in ids ==> Position(ids, sorted[0]) <= Position(ids, x)
  {
    var sorted := ByRank(ids, Elems(ready));
    assert ready[0] in Elems(ready);
    ByRankFirst(ids, Elems(ready), ready[0]);
    assert sorted[0] in Elems(sorted);
    forall x | x in ready && x in ids ensures Position(ids, sorted[0]) <= Position(ids, x) {
      ByRankFirst(ids, Elems(ready), x);
    }
  }

  lemma PickReady(ids: seq<int>, g: Graph, result: seq<int>, ready: seq<int>)
    requires GraphOk(ids, g) && Respects(g, result) && LeastSoFar(ids, g, result)
    requires AllReady(g, result, ready) && ready != []
    ensures var sorted := ByRank(ids, Elems(ready));
      && sorted != []
      && ReadyAt(g, result, sorted[0])
      && LeastSoFar(ids, g, result + [sorted[0]])
  {
    forall x | x in Elems(ready) ensures x in Elems(ids) {
      assert ReadyAt(g, result, x);
    }
    FirstByRank(ids, ready);
    LeastSoFarExtend(ids, g, result, ByRank(ids, Elems(ready))[0]);
  }

  /** The inner loop of `topological_order`: one prerequisite fewer for every dependent of s. */
  method Release(ids: seq<int>, g: Graph, result: seq<int>, s: int, indegree: map<int, int>, rest: seq<int>)
    returns (indegree': map<int, int>, ready: seq<int>)
    requires GraphOk(ids, g) && s !in result
    requires Counts(g, result, indegree)
    ensures Counts(g, result + [s], indegree')
    ensures forall t :: t in ready <==> t in rest || (t in g && s in g[t] && indegree'[t] == 0)
  {
    hide ByRank, Waiting;
    assert Distinct(ids);
    var outgoing := set t | t in g && s in g[t];
    var children := ByRank(ids, outgoing);
    assert Elems(children) == outgoing;
    indegree', ready := indegree, rest;
    for k := 0 to |children|
      invariant indegree'.Keys == g.Keys
      invariant forall t :: t in g ==> indegree'[t] == indegree[t] - (if t in children[..k] then 1 else 0)
      invariant forall t :: t in ready <==> t in rest || (t in children[..k] && t in g && indegree'[t] == 0)
    {
      var child := children[k];
      assert child in Elems(children);
      assert child !in children[..k];
      assert children[..k + 1] == children[..k] + [child];
      indegree' := indegree'[child := indegree'[child] - 1];
      if indegree'[child] == 0 {
        ready := ready + [child];
      }
    }
    assert children[..|children|] == children;
    forall t | t in g ensures t in children <==> s in g[t] {
      assert t in children <==> t in Elems(children);
    }
    forall t | t in g ensures indegree'[t] == |Waiting(g, Elems(result + [s]), t)| {
      WaitingAfter(g, result, s, t);
    }
  }

  /** `topological_order`: the least order by list position, or the news of a cycle. */
  method TopologicalOrder(ids: seq<int>, g: Graph) returns (r: Result<seq<int>>)
    requires GraphOk(ids, g)
    ensures r.Ok? ==> LeastTopological(ids, g, r.value)
    ensures r.Err? <==> Cyclic(g)
  {
    var indegree := map s | s in g :: |g[s]|;
    var ready := ByRank(ids, set s | s in g && indegree[s] == 0);
    var result: seq<int> := [];
    KahnStart(ids, g, indegree, ready);
    while ready != []
      invariant KahnState(ids, g, result, indegree, ready)
      decreases |g.Keys| - |result|
    {
      PickReady(ids, g, result, ready);
      var sorted := ByRank(ids, Elems(ready));
      var s, rest := sorted[0], sorted[1..];
      RespectsExtend(g, result, s);
      RespectsDistinct(g, result + [s]);
      SubsetCardinality(Elems(result + [s]), g.Keys);
      ghost var ready0 := ready;
      indegree, ready := Release(ids, g, result, s, indegree, rest);
      KahnStep(ids, g, result, s, ready0, indegree, ready);
      result := result + [s];
    }
    RespectsDistinct(g, result);
    if |result| != |g| {
      StuckMeansCycle(ids, g, result);
      return Err;
    }
    SubsetCardinality(Elems(result), g.Keys);
    TopologicalMeansAcyclic(g, result);
    LeastAtTheEnd(ids, g, result);
    r := Ok(result);
  }

  lemma KahnStart(ids: seq<int>, g: Graph, indegree: map<int, int>, ready: seq<int>)
    requires GraphOk(ids, g)
    requires indegree == map s | s in g :: |g[s]|
    requires ready == ByRank(ids, set s | s in g && indegree[s] == 0)
    ensures KahnState(ids, g, [], indegree, ready)
  {
    forall s | s in g ensures indegree[s] == |Waiting(g, Elems([]), s)| {
      DistinctCardinality(g[s]);
      assert Waiting(g, Elems([]), s) == Elems(g[s]);
    }
    forall s ensures s in ready <==> ReadyAt(g, [], s) {
      assert s in ready <==> s in Elems(ready);
      if s in g { NoneWaiting(g, [], s); }
    }
    forall other | Topological(g, other) ensures LexLe(Ranks(ids, []), Ranks(ids, other)[..0]) {
      assert Ranks(ids, []) == [] == Ranks(ids, other)[..0];
    }
  }

  lemma KahnStep(ids: seq<int>, g: Graph, result: seq<int>, s: int, ready: seq<int>,
                 indegree': map<int, int>, ready': seq<int>)
    requires GraphOk(ids, g) && AllReady(g, result, ready) && Respects(g, result)
    requires var sorted := ByRank(ids, Elems(ready)); sorted != [] && s == sorted[0]
    requires Counts(g, result + [s], indegree')
    requires forall t :: t in ready' <==> t in ByRank(ids, Elems(ready))[1..] || (t in g && s in g[t] && indegree'[t] == 0)
    ensures AllReady(g, result + [s], ready')
  {
    var sorted := ByRank(ids, Elems(ready));
    assert sorted == [s] + sorted[1..];
    assert s in Elems(sorted);
    ElemsAppend(result, s);
    forall t ensures t in ready' <==> ReadyAt(g, result + [s], t) {
      assert t in sorted[1..] <==> t in Elems(sorted) && t != s;
      assert t in Elems(sorted) <==> t in ids && t in ready by {
        assert t in ids <==> t in Elems(ids);
      }
      assert t in ready ==> t in Elems(ids);
      ReadyAfter(g, result, s, t);
      if t in g {
        NoneWaiting(g, result + [s], t);
        if t in result { PlacedParents(g, result, t); }
      }
    }
  }

  lemma PlacedParents(g: Graph, result: seq<int>, t: int)
    requires Respects(g, result) && t in result
    ensures t in g && forall d :: d in g[t] ==> d in result
  {
    var i :| 0 <= i < |result| && result[i] == t;
    assert InTurn(g, result, i);
  }

  lemma ReadyAfter(g: Graph, result: seq<int>, s: int, t: int)
    requires s !in result
    ensures ReadyAt(g, result + [s], t) <==>
      t != s && ((ReadyAt(g, result, t) && s !in g[t])
        || (t in g && t !in result && s in g[t] && forall d :: d in g[t] ==> d in result + [s]))
  {
    assert forall x :: x in result + [s] <==> x in result || x == s;
  }

  lemma LeastAtTheEnd(ids: seq<int>, g: Graph, result: seq<int>)
    requires Respects(g, result) && LeastSoFar(ids, g, result) && Elems(result) == g.Keys
    ensures LeastTopological(ids, g, result)
  {
    RespectsDistinct(g, result);
    forall other | Topological(g, other) ensures LexLe(Ranks(ids, result), Ranks(ids, other)) {
      RespectsDistinct(g, other);
      assert Ranks(ids, other)[..|result|] == Ranks(ids, other);
    }
  }

  // -------------------------------------------------- order or cycle, never both

  lemma {:induction false} PositionsDecrease(g: Graph, order: seq<int>, p: seq<int>)
    requires Topological(g, order) && Walk(g, p) && p[0] in order
    ensures p[|p| - 1] in order
    ensures |p| > 1 ==> Position(order, p[|p| - 1]) < Position(order, p[0])
    decreases |p|
  {
    if |p| > 1 {
      var q := p[..|p| - 1];
      var last := q[|q| - 1];
      forall i | 0 <= i < |q| - 1 ensures EdgeAt(g, q, i) { assert EdgeAt(g, p, i); }
      PositionsDecrease(g, order, q);
      assert EdgeAt(g, p, |q| - 1);
      var i := Position(order, last);
      assert InTurn(g, order, i);
      var k :| 0 <= k < |order[..i]| && order[..i][k] == p[|q|];
      RespectsDistinct(g, order);
      assert order[Position(order, p[|q|])] == order[k];
    }
  }

  lemma TopologicalMeansAcyclic(g: Graph, order: seq<int>)
    requires Topological(g, order)
    ensures !Cyclic(g)
  {
    forall p | Cycle(g, p) ensures false {
      assert EdgeAt(g, p, 0);
      assert p[0] in Elems(order);
      PositionsDecrease(g, order, p);
    }
  }

  /** When no step is ready every remaining step waits for a remaining one, so there is a cycle among them. */
  lemma StuckMeansCycle(ids: seq<int>, g: Graph, result: seq<int>)
    requires GraphOk(ids, g) && Elems(result) <= g.Keys && Elems(result) != g.Keys
    requires forall s :: !ReadyAt(g, result, s)
    ensures Cyclic(g) && exists p :: Cycle(g, p) && Elems(p) <= g.Keys - Elems(result)
  {
    var stuck := g.Keys - Elems(result);
    forall s | s in stuck ensures WaitsIn(g, stuck, s) {
      assert s !in result;
      assert !ReadyAt(g, result, s);
      var d :| d in g[s] && d !in result;
      assert d in stuck;
    }
    forall x | stuck == {} && x in g.Keys ensures x in Elems(result) { assert x !in stuck; }
    var s := Member(stuck);
    var walk := LongWalk(g, stuck, s, |stuck|);
    WalkRepeats(g, stuck, walk);
  }

  ghost predicate WaitsIn(g: Graph, stuck: set<int>, s: int) {
    s in g && exists d :: d in g[s] && d in stuck
  }

  lemma {:induction false} LongWalk(g: Graph, stuck: set<int>, s: int, n: nat) returns (p: seq<int>)
    requires s in stuck
    requires forall x :: x in stuck ==> WaitsIn(g, stuck, x)
    ensures Walk(g, p) && |p| == n + 1 && Elems(p) <= stuck
  {
    if n == 0 {
      p := [s];
    } else {
      var q := LongWalk(g, stuck, s, n - 1);
      var last := q[|q| - 1];
      assert last in Elems(q);
      assert WaitsIn(g, stuck, last);
      var d :| d in g[last] && d in stuck;
      p := q + [d];
      forall i | 0 <= i < |p| - 1 ensures EdgeAt(g, p, i) {
        if i < |q| - 1 { assert EdgeAt(g, q, i); }
      }
      ElemsAppend(q, d);
    }
  }

  lemma WalkRepeats(g: Graph, stuck: set<int>, p: seq<int>)
    requires Walk(g, p) && Elems(p) <= stuck && |p| == |stuck| + 1
    ensures exists c :: Cycle(g, c) && Elems(c) <= stuck
  {
    if Distinct(p) {
      DistinctCardinality(p);
      SubsetCardinality(Elems(p), stuck);
    } else {
      var i, j :| 0 <= i < j < |p| && p[i] == p[j];
      var c := p[i..j + 1];
      forall k | 0 <= k < |c| - 1 ensures EdgeAt(g, c, k) { assert EdgeAt(g, p, i + k); }
      assert Cycle(g, c);
      forall x | x in Elems(c) ensures x in stuck { assert x in Elems(p); }
    }
  }

  // -------------------------------------------------- the closure

  lemma ReachesUnfold(g: Graph, s: int, t: int)
    requires s in g
    ensures Reaches(g, s, t) <==> exists d :: d in g[s] && (d == t || Reaches(g, d, t))
  {
    if Reaches(g, s, t) {
      var p :| Walk(g, p) && |p| > 1 && p[0] == s && p[|p| - 1] == t;
      assert EdgeAt(g, p, 0);
      if |p| > 2 {
        forall i | 0 <= i < |p[1..]| - 1 ensures EdgeAt(g, p[1..], i) { assert EdgeAt(g, p, i + 1); }
        assert Walk(g, p[1..]);
        assert Reaches(g, p[1], t);
      }
    }
    if d :| d in g[s] && (d == t || Reaches(g, d, t)) {
      if d == t {
        assert EdgeAt(g, [s, d], 0);
        assert Walk(g, [s, d]);
      } else {
        var p :| Walk(g, p) && |p| > 1 && p[0] == d && p[|p| - 1] == t;
        var q := [s] + p;
        forall i | 0 <= i < |q| - 1 ensures EdgeAt(g, q, i) {
          if i > 0 { assert EdgeAt(g, p, i - 1); }
        }
        assert Walk(g, q);
      }
    }
  }

  ghost predicate ReachedVia(g: Graph, parents: seq<int>, t: int) {
    exists d :: d in parents && (d == t || Reaches(g, d, t))
  }

  lemma ReachedViaAppend(g: Graph, parents: seq<int>, parent: int)
    ensures forall t :: ReachedVia(g, parents + [parent], t) <==>
      ReachedVia(g, parents, t) || t == parent || Reaches(g, parent, t)
  {
    forall t ensures ReachedVia(g, parents + [parent], t) <==> ReachedVia(g, parents, t) || t == parent || Reaches(g, parent, t) {
      if ReachedVia(g, parents, t) {
        var d :| d in parents && (d == t || Reaches(g, d, t));
        assert d in parents + [parent];
      }
      if t == parent || Reaches(g, parent, t) {
        assert parent in parents + [parent];
      }
    }
  }

  ghost predicate ClosureOf(g: Graph, s: int, closed: set<int>) {
    forall t :: t in closed <==> Reaches(g, s, t)
  }

  /** The parents loop of `transitive_dependencies` for one step. */
  method CloseStep(g: Graph, closure: map<int, set<int>>, s: int) returns (closed: set<int>)
    requires s in g
    requires forall d :: d in g[s] ==> d in closure && ClosureOf(g, d, closure[d])
    ensures ClosureOf(g, s, closed)
  {
    closed := {};
    for k := 0 to |g[s]|
      invariant forall t :: t in closed <==> ReachedVia(g, g[s][..k], t)
    {
      var parent := g[s][k];
      assert parent in g[s];
      assert g[s][..k + 1] == g[s][..k] + [parent];
      ReachedViaAppend(g, g[s][..k], parent);
      closed := closed + {parent} + closure[parent];
    }
    assert g[s][..|g[s]|] == g[s];
    forall t ensures t in closed <==> Reaches(g, s, t) {
      ReachesUnfold(g, s, t);
    }
  }

  /** `transitive_dependencies`: one pass over the order computes exactly reachability. */
  method TransitiveDependencies(g: Graph, order: seq<int>) returns (closure: map<int, set<int>>)
    requires Topological(g, order)
    ensures closure.Keys == g.Keys
    ensures forall s :: s in g ==> ClosureOf(g, s, closure[s])
  {
    closure := map s | s in g :: {};
    for k := 0 to |order|
      invariant closure.Keys == g.Keys
      invariant forall i :: 0 <= i < k ==> order[i] in g && ClosureOf(g, order[i], closure[order[i]])
    {
      var s := order[k];
      assert InTurn(g, order, k);
      forall d | d in g[s] ensures d in closure && ClosureOf(g, d, closure[d]) {
        var i :| 0 <= i < |order[..k]| && order[..k][i] == d;
      }
      var closed := CloseStep(g, closure, s);
      RespectsDistinct(g, order);
      closure := closure[s := closed];
    }
    forall s | s in g ensures ClosureOf(g, s, closure[s]) {
      assert s in Elems(order);
    }
  }

  // -------------------------------------------------- output links

  predicate Blank(name: string) {
    Strip(name) == ""
  }

  /** When `output_index` does not raise. */
  predicate OutputsAccepted(step: Step) {
    && Distinct(OutputNames(step))
    && forall o :: o in step.outputs ==> !Blank(o.name) && o.verify != []
  }

  /** When `required_outputs` does not raise. */
  predicate RefsAccepted(step: Step) {
    && Distinct(step.requiresOutputs)
    && forall r :: r in step.requiresOutputs ==> r.step >= 1 && !Blank(r.name)
  }

  predicate Linked(step: Step, parent: int) {
    exists r :: r in step.requiresOutputs && r.step == parent
  }

  predicate Declares(steps: seq<Step>, source: int, name: string) {
    exists s :: s in steps && s.id == source && name in OutputNames(s)
  }

  /** `name in outputs.get(source, {})`: a step whose outputs are refused offers nothing. */
  predicate Offers(steps: seq<Step>, source: int, name: string) {
    exists s :: s in steps && s.id == source && OutputsAccepted(s) && name in OutputNames(s)
  }

  /** What `validate_output_links` accepts. */
  ghost predicate LinksValid(steps: seq<Step>) {
    && GraphAccepted(steps)
    && !Cyclic(GraphOf(steps))
    && (forall s :: s in steps ==> OutputsAccepted(s))
    && forall s :: s in steps ==> StepRefsValid(steps, s)
  }

  ghost predicate StepRefsValid(steps: seq<Step>, s: Step) {
    && RefsAccepted(s)
    && (forall d :: d in DeclaredDeps(s) ==> Linked(s, d))
    && forall r :: r in s.requiresOutputs ==> RefGood(steps, s.id, r)
  }

  datatype LinkError =
    | GraphError
    | OutputError(step: int)
    | RefError(step: int)
    | UnlinkedDependency(parent: int, step: int)
    | UnknownSource(step: int, ref: OutputRef)
    | NotADependency(step: int, ref: OutputRef)
    | UndeclaredOutput(step: int, ref: OutputRef)

  /** The errors `validate_output_links` reports about one step's references. */
  ghost predicate StepFault(steps: seq<Step>, s: Step, e: LinkError) {
    match e
    case GraphError => false
    case OutputError(_) => false
    case RefError(id) => id == s.id && !RefsAccepted(s)
    case UnlinkedDependency(parent, id) => id == s.id && RefsAccepted(s) && parent in DeclaredDeps(s) && !Linked(s, parent)
    case UnknownSource(id, r) => id == s.id && RefsAccepted(s) && r in s.requiresOutputs && r.step !in StepIds(steps)
    case NotADependency(id, r) =>
      id == s.id && RefsAccepted(s) && r in s.requiresOutputs && r.step in StepIds(steps) && !Reaches(GraphOf(steps), s.id, r.step)
    case UndeclaredOutput(id, r) =>
      id == s.id && RefsAccepted(s) && r in s.requiresOutputs && Reaches(GraphOf(steps), s.id, r.step) && !Offers(steps, r.step, r.name)
  }

  /** The errors it reports about the whole plan. */
  ghost predicate LinkFault(steps: seq<Step>, e: LinkError) {
    if !GraphAccepted(steps) || Cyclic(GraphOf(steps)) then e == GraphError
    else if e.OutputError? then exists s :: s in steps && s.id == e.step && !OutputsAccepted(s)
    else exists s :: s in steps && StepFault(steps, s, e)
  }

  // -------------------------------------------------- the rules, in terms of what is written in the plan

  ghost predicate Named(name: string) {
    exists k :: 0 <= k < |name| && !IsSpace(name[k])
  }

  /** Positive ids, none twice; only a single step may leave its list out; every listed id is another step's, once. */
  ghost predicate GraphRules(steps: seq<Step>) {
    && (forall i :: 0 <= i < |steps| ==> steps[i].id > 0 && (steps[i].dependsOn == None ==> |steps| == 1))
    && (forall i, j :: 0 <= i < j < |steps| ==> steps[i].id != steps[j].id)
    && forall i, k :: 0 <= i < |steps| && 0 <= k < |DeclaredDeps(steps[i])| ==> DependencyRule(steps, i, k)
  }

  ghost predicate DependencyRule(steps: seq<Step>, i: nat, k: nat)
    requires i < |steps| && k < |DeclaredDeps(steps[i])|
  {
    var deps := DeclaredDeps(steps[i]);
    && (exists j :: 0 <= j < |steps| && j != i && steps[j].id == deps[k])
    && forall l :: 0 <= l < k ==> deps[l] != deps[k]
  }

  /** Every output has a name and a check, and no name occurs twice. */
  ghost predicate OutputRules(s: Step) {
    && (forall k :: 0 <= k < |s.outputs| ==> Named(s.outputs[k].name) && |s.outputs[k].verify| > 0)
    && forall j, k :: 0 <= j < k < |s.outputs| ==> s.outputs[j].name != s.outputs[k].name
  }

  /** Every reference names an output of a positive step, and none is repeated. */
  ghost predicate ReferenceRules(s: Step) {
    && (forall k :: 0 <= k < |s.requiresOutputs| ==> s.requiresOutputs[k].step > 0 && Named(s.requiresOutputs[k].name))
    && forall j, k :: 0 <= j < k < |s.requiresOutputs| ==> s.requiresOutputs[j] != s.requiresOutputs[k]
  }

  /** Every direct dependency is backed by a reference, and every reference is to an output declared by an ancestor. */
  ghost predicate LinkRules(steps: seq<Step>, s: Step) {
    && (forall d :: d in DeclaredDeps(s) ==> exists r :: r in s.requiresOutputs && r.step == d)
    && forall r :: r in s.requiresOutputs ==>
         Reaches(GraphOf(steps), s.id, r.step) && exists t, o :: t in steps && t.id == r.step && o in t.outputs && o.name == r.name
  }

  /** What `validate_output_links` asks of a plan. */
  ghost predicate PlanRules(steps: seq<Step>) {
    GraphRules(steps) && !Cyclic(GraphOf(steps)) && forall s :: s in steps ==> OutputRules(s) && ReferenceRules(s) && LinkRules(steps, s)
  }

  lemma NamedMeans(name: string)
    ensures Blank(name) <==> !Named(name)
  {
    hide Strip, IsSpace;
    StrippedAway(name);
  }

  lemma GraphMeans(steps: seq<Step>)
    ensures GraphAccepted(steps) <==> GraphRules(steps)
  {
    if GraphAccepted(steps) {
      forall i, k | 0 <= i < |steps| && 0 <= k < |DeclaredDeps(steps[i])| ensures DependencyRule(steps, i, k) {
        var deps := DeclaredDeps(steps[i]);
        assert steps[i] in steps && deps[k] in deps;
        var j :| 0 <= j < |StepIds(steps)| && StepIds(steps)[j] == deps[k];
        assert steps[j].id == deps[k];
      }
      forall i | 0 <= i < |steps| ensures steps[i].id > 0 && (steps[i].dependsOn == None ==> |steps| == 1) {
        assert steps[i] in steps;
      }
      forall i, j | 0 <= i < j < |steps| ensures steps[i].id != steps[j].id {
        assert StepIds(steps)[i] != StepIds(steps)[j];
      }
    }
    if GraphRules(steps) {
      forall s | s in steps ensures s.id >= 1 && (|steps| > 1 ==> s.dependsOn.Some?) && DepsAccepted(DeclaredDeps(s), s.id, StepIds(steps)) {
        var i :| 0 <= i < |steps| && steps[i] == s;
        RuleAccepted(steps, i);
      }
    }
  }

  lemma RuleAccepted(steps: seq<Step>, i: nat)
    requires GraphRules(steps) && i < |steps|
    ensures DepsAccepted(DeclaredDeps(steps[i]), steps[i].id, StepIds(steps))
  {
    var deps := DeclaredDeps(steps[i]);
    forall d | d in deps ensures d >= 1 && d != steps[i].id && d in StepIds(steps) {
      var k :| 0 <= k < |deps| && deps[k] == d;
      assert DependencyRule(steps, i, k);
      var j :| 0 <= j < |steps| && j != i && steps[j].id == deps[k];
      assert StepIds(steps)[j] == d;
    }
    forall l, k | 0 <= l < k < |deps| ensures deps[l] != deps[k] { assert DependencyRule(steps, i, k); }
  }

  lemma OutputsMean(s: Step)
    ensures OutputsAccepted(s) <==> OutputRules(s)
  {
    hide Blank, Named;
    forall k | 0 <= k < |s.outputs| ensures s.outputs[k] in s.outputs && (Blank(s.outputs[k].name) <==> !Named(s.outputs[k].name)) {
      NamedMeans(s.outputs[k].name);
    }
    forall j, k | 0 <= j < k < |s.outputs| ensures OutputNames(s)[j] == s.outputs[j].name && OutputNames(s)[k] == s.outputs[k].name {
    }
  }

  lemma ReferencesMean(s: Step)
    ensures RefsAccepted(s) <==> ReferenceRules(s)
  {
    hide Blank, Named;
    var refs := s.requiresOutputs;
    forall k | 0 <= k < |refs| ensures refs[k] in refs && (Blank(refs[k].name) <==> !Named(refs[k].name)) {
      NamedMeans(refs[k].name);
    }
  }

  /** Links are valid exactly when the graph rules hold, there is no cycle, and every step keeps the rules for its outputs,
      references and links. */
  lemma LinksMean(steps: seq<Step>)
    ensures LinksValid(steps) <==> PlanRules(steps)
  {
    hide GraphAccepted, GraphRules, OutputsAccepted, OutputRules, RefsAccepted, ReferenceRules, Reaches, Cyclic, GraphOf;
    GraphMeans(steps);
    forall s | s in steps
      ensures (OutputsAccepted(s) <==> OutputRules(s)) && (RefsAccepted(s) <==> ReferenceRules(s))
    {
      OutputsMean(s);
      ReferencesMean(s);
    }
    forall id, name ensures Declares(steps, id, name) <==> exists t, o :: t in steps && t.id == id && o in t.outputs && o.name == name {
      DeclaredMeans(steps, id, name);
    }
  }

  lemma DeclaredMeans(steps: seq<Step>, id: int, name: string)
    ensures Declares(steps, id, name) <==> exists t, o :: t in steps && t.id == id && o in t.outputs && o.name == name
  {
    if Declares(steps, id, name) {
      var t :| t in steps && t.id == id && name in OutputNames(t);
      var k :| 0 <= k < |OutputNames(t)| && OutputNames(t)[k] == name;
      assert t.outputs[k] in t.outputs && t.outputs[k].name == name;
    }
    if t, o :| t in steps && t.id == id && o in t.outputs && o.name == name {
      var k :| 0 <= k < |t.outputs| && t.outputs[k] == o;
      assert OutputNames(t)[k] == name;
    }
  }

  method DependencyErrors(s: Step) returns (errors: seq<LinkError>)
    ensures forall e :: e in errors <==> e.UnlinkedDependency? && e.step == s.id && e.parent in DeclaredDeps(s) && !Linked(s, e.parent)
  {
    errors := [];
    var deps := DeclaredDeps(s);
    for k := 0 to |deps|
      invariant forall e :: e in errors <==> e.UnlinkedDependency? && e.step == s.id && e.parent in deps[..k] && !Linked(s, e.parent)
    {
      assert deps[..k + 1] == deps[..k] + [deps[k]];
      if !Linked(s, deps[k]) {
        errors := errors + [UnlinkedDependency(deps[k], s.id)];
      }
    }
    assert deps[..|deps|] == deps;
  }

  method ReferenceErrors(steps: seq<Step>, s: Step, closed: set<int>) returns (errors: seq<LinkError>)
    requires GraphAccepted(steps) && ClosureOf(GraphOf(steps), s.id, closed) && RefsAccepted(s)
    ensures forall e :: e in errors <==> (e.UnknownSource? || e.NotADependency? || e.UndeclaredOutput?) && StepFault(steps, s, e)
  {
    hide Reaches, RefsAccepted, GraphOf, GraphAccepted, Offers;
    errors := [];
    var refs := s.requiresOutputs;
    for k := 0 to |refs|
      invariant forall e :: e in errors <==>
        (e.UnknownSource? || e.NotADependency? || e.UndeclaredOutput?) && e.ref in refs[..k] && StepFault(steps, s, e)
    {
      assert refs[..k + 1] == refs[..k] + [refs[k]];
      var r := refs[k];
      ReachedIsListed(steps, s.id, r.step);
      if r.step !in StepIds(steps) {
        errors := errors + [UnknownSource(s.id, r)];
      } else if r.step !in closed {
        errors := errors + [NotADependency(s.id, r)];
      } else if !Offers(steps, r.step, r.name) {
        errors := errors + [UndeclaredOutput(s.id, r)];
      }
    }
    assert refs[..|refs|] == refs;
  }

  /** The second loop of `validate_output_links`, for one step. */
  method StepLinkErrors(steps: seq<Step>, s: Step, closed: set<int>) returns (errors: seq<LinkError>)
    requires GraphAccepted(steps) && ClosureOf(GraphOf(steps), s.id, closed)
    ensures forall e :: e in errors <==> StepFault(steps, s, e)
  {
    hide Reaches, RefsAccepted, GraphOf, GraphAccepted, Offers, Linked;
    if !RefsAccepted(s) {
      return [RefError(s.id)];
    }
    var unlinked := DependencyErrors(s);
    var bad := ReferenceErrors(steps, s, closed);
    errors := unlinked + bad;
  }

  ghost predicate RefGood(steps: seq<Step>, s: int, r: OutputRef) {
    Reaches(GraphOf(steps), s, r.step) && Declares(steps, r.step, r.name)
  }

  lemma ReachedIsListed(steps: seq<Step>, s: int, t: int)
    requires GraphAccepted(steps)
    ensures Reaches(GraphOf(steps), s, t) ==> t in StepIds(steps)
  {
    AcceptedGraphOk(steps);
    var g := GraphOf(steps);
    if Reaches(g, s, t) {
      var p :| Walk(g, p) && |p| > 1 && p[0] == s && p[|p| - 1] == t;
      assert EdgeAt(g, p, |p| - 2);
      assert t in Elems(StepIds(steps));
    }
  }

  method OutputErrors(steps: seq<Step>) returns (errors: seq<LinkError>)
    ensures forall e :: e in errors <==> e.OutputError? && exists s :: s in steps && s.id == e.step && !OutputsAccepted(s)
  {
    hide OutputsAccepted;
    errors := [];
    for k := 0 to |steps|
      invariant forall e :: e in errors <==> e.OutputError? && exists i :: 0 <= i < k && steps[i].id == e.step && !OutputsAccepted(steps[i])
    {
      if !OutputsAccepted(steps[k]) {
        errors := errors + [OutputError(steps[k].id)];
      }
    }
    forall e ensures e in errors <==> e.OutputError? && exists s :: s in steps && s.id == e.step && !OutputsAccepted(s) {
      if e.OutputError? && exists s :: s in steps && s.id == e.step && !OutputsAccepted(s) {
        var s :| s in steps && s.id == e.step && !OutputsAccepted(s);
        var i :| 0 <= i < |steps| && steps[i] == s;
      }
    }
  }

  method LinkErrors(steps: seq<Step>, closure: map<int, set<int>>) returns (errors: seq<LinkError>)
    requires GraphAccepted(steps)
    requires forall s :: s in steps ==> s.id in closure && ClosureOf(GraphOf(steps), s.id, closure[s.id])
    ensures forall e :: e in errors <==> exists s :: s in steps && StepFault(steps, s, e)
  {
    hide StepFault, GraphAccepted, ClosureOf, GraphOf;
    errors := [];
    for k := 0 to |steps|
      invariant forall e :: e in errors <==> exists i :: 0 <= i < k && StepFault(steps, steps[i], e)
    {
      assert steps[k] in steps;
      var more := StepLinkErrors(steps, steps[k], closure[steps[k].id]);
      errors := errors + more;
    }
    forall e ensures e in errors <==> exists s :: s in steps && StepFault(steps, s, e) {
      if s :| s in steps && StepFault(steps, s, e) {
        var i :| 0 <= i < |steps| && steps[i] == s;
      }
    }
  }

  /** `validate_output_links`: reports exactly the faults, so nothing exactly when the links are valid. */
  method ValidateOutputLinks(steps: seq<Step>) returns (errors: seq<LinkError>)
    ensures forall e :: e in errors <==> LinkFault(steps, e)
    ensures errors == [] <==> LinksValid(steps)
    ensures errors == [] <==> PlanRules(steps)
  {
    hide StepFault, Cyclic, OutputsAccepted, LinksValid, DepsAccepted, Respects, Ranks, Reaches, PlanRules;
    FaultlessExactly(steps);
    LinksMean(steps);
    var deps := EffectiveDependencies(steps);
    if deps.Err? {
      assert LinkFault(steps, GraphError);
      return [GraphError];
    }
    var g := deps.value;
    AcceptedGraphOk(steps);
    var order := TopologicalOrder(StepIds(steps), g);
    if order.Err? {
      assert LinkFault(steps, GraphError);
      return [GraphError];
    }
    var closure := TransitiveDependencies(g, order.value);
    GraphEntries(steps);
    var outputErrors := OutputErrors(steps);
    var refErrors := LinkErrors(steps, closure);
    NoOutputFault(steps);
    errors := outputErrors + refErrors;
    if errors != [] {
      assert errors[0] in errors;
    }
  }

  lemma NoOutputFault(steps: seq<Step>)
    ensures forall s, e :: StepFault(steps, s, e) ==> !e.OutputError? && !e.GraphError?
  {
  }

  /** There is no fault exactly when the links are valid. */
  lemma FaultlessExactly(steps: seq<Step>)
    ensures (forall e :: !LinkFault(steps, e)) <==> LinksValid(steps)
  {
    hide Cyclic, Reaches, OutputsAccepted, RefsAccepted, GraphAccepted, Declares, Offers, Linked, GraphOf;
    if forall e :: !LinkFault(steps, e) {
      assert !LinkFault(steps, GraphError);
      forall s | s in steps ensures OutputsAccepted(s) && StepRefsValid(steps, s) {
        assert !LinkFault(steps, OutputError(s.id));
        assert forall e :: StepFault(steps, s, e) ==> LinkFault(steps, e);
        assert !StepFault(steps, s, RefError(s.id));
        forall d | d in DeclaredDeps(s) ensures Linked(s, d) {
          assert !StepFault(steps, s, UnlinkedDependency(d, s.id));
        }
        forall r | r in s.requiresOutputs ensures RefGood(steps, s.id, r) {
          assert !StepFault(steps, s, UnknownSource(s.id, r)) && !StepFault(steps, s, NotADependency(s.id, r));
          assert !StepFault(steps, s, UndeclaredOutput(s.id, r));
          OffersAreDeclared(steps, r.step, r.name);
        }
      }
    }
    if LinksValid(steps) {
      forall e ensures !LinkFault(steps, e) {
        forall s | s in steps ensures !StepFault(steps, s, e) && OutputsAccepted(s) {
          ValidStepFaultless(steps, s, e);
        }
      }
    }
  }

  lemma OffersAreDeclared(steps: seq<Step>, source: int, name: string)
    ensures Offers(steps, source, name) ==> Declares(steps, source, name)
    ensures (forall s :: s in steps ==> OutputsAccepted(s)) && Declares(steps, source, name) ==> Offers(steps, source, name)
  {
  }

  lemma ValidStepFaultless(steps: seq<Step>, s: Step, e: LinkError)
    requires GraphAccepted(steps) && StepRefsValid(steps, s) && forall t :: t in steps ==> OutputsAccepted(t)
    ensures !StepFault(steps, s, e)
  {
    hide Cyclic, Reaches, RefsAccepted, GraphAccepted, Declares, Offers, OutputsAccepted, Linked, GraphOf;
    if (e.UnknownSource? || e.UndeclaredOutput?) && e.ref in s.requiresOutputs {
      assert RefGood(steps, s.id, e.ref);
      ReachedIsListed(steps, s.id, e.ref.step);
      OffersAreDeclared(steps, e.ref.step, e.ref.name);
    }
  }
}

/** The bounded breadth-first solver for contracts with delete effects, and its agreement
    with the greedy pass. */
module Search {
  import opened Sequences
  import opened Planning

  /** What duplicate detection compares: the facts that hold and the steps already done. */
  datatype Key = Key(facts: set<Fact>, done: set<int>)

  datatype Node = Node(facts: set<Fact>, done: set<int>, order: seq<int>)

  function KeyOf(n: Node): Key {
    Key(n.facts, n.done)
  }

  function KeysOf(nodes: seq<Node>): set<Key> {
    set i | 0 <= i < |nodes| :: KeyOf(nodes[i])
  }

  lemma KeysOfConcat(a: seq<Node>, b: seq<Node>)
    ensures KeysOf(a + b) == KeysOf(a) + KeysOf(b)
  {
    forall key | key in KeysOf(a) + KeysOf(b) ensures key in KeysOf(a + b) {
      if key in KeysOf(a) {
        var i :| 0 <= i < |a| && KeyOf(a[i]) == key;
        assert (a + b)[i] == a[i];
      } else {
        var i :| 0 <= i < |b| && KeyOf(b[i]) == key;
        assert (a + b)[|a| + i] == b[i];
      }
    }
  }

  ghost function KeyAfter(c: Contract, order: seq<int>): Key {
    Key(FactsAfter(c, order), Elems(order))
  }

  ghost predicate Reachable(c: Contract, deps: Dependencies, key: Key) {
    exists order :: Executable(c, deps, order) && key == KeyAfter(c, order)
  }

  // -------------------------------------------------- pruning

  function AddsOf(c: Contract, steps: set<int>): (r: set<Fact>)
  {
    set sid, f | sid in steps && sid in c.actions && f in c.actions[sid].addEffects :: f
  }

  /** `_future_impossible`: a goal or precondition that no remaining (other) step can add. */
  predicate FutureImpossible(c: Contract, facts: set<Fact>, done: set<int>) {
    var remaining := c.actions.Keys - done;
    || !(c.goals - facts <= AddsOf(c, remaining))
    || exists sid :: sid in remaining &&
         !(c.actions[sid].preconditions - facts <= AddsOf(c, remaining - {sid}))
  }

  /** No step outside `others` adds the fact. */
  ghost predicate NobodyAdds(c: Contract, others: set<int>, f: Fact) {
    forall sid :: sid in c.actions && sid !in others ==> f !in c.actions[sid].addEffects
  }

  /** A goal is false that no step left adds, or a step left needs a false fact that no other step left adds. */
  ghost predicate Hopeless(c: Contract, facts: set<Fact>, done: set<int>) {
    || (exists f :: f in c.goals && f !in facts && NobodyAdds(c, done, f))
    || exists sid, f :: sid in c.actions && sid !in done && f in c.actions[sid].preconditions && f !in facts
         && NobodyAdds(c, done + {sid}, f)
  }

  /** The dead-state test fires on exactly the hopeless states. */
  lemma PruningExactly(c: Contract, facts: set<Fact>, done: set<int>)
    ensures FutureImpossible(c, facts, done) <==> Hopeless(c, facts, done)
  {
    var remaining := c.actions.Keys - done;
    NotAdded(c, done, remaining);
    if !(c.goals - facts <= AddsOf(c, remaining)) {
      var f :| f in c.goals - facts && f !in AddsOf(c, remaining);
      assert NobodyAdds(c, done, f);
    }
    forall sid | sid in remaining
      ensures !(c.actions[sid].preconditions - facts <= AddsOf(c, remaining - {sid})) <==>
        exists f :: f in c.actions[sid].preconditions && f !in facts && NobodyAdds(c, done + {sid}, f)
    {
      NotAdded(c, done + {sid}, remaining - {sid});
    }
  }

  lemma NotAdded(c: Contract, others: set<int>, steps: set<int>)
    requires steps == c.actions.Keys - others
    ensures forall f :: f !in AddsOf(c, steps) <==> NobodyAdds(c, others, f)
  {
    forall f ensures f !in AddsOf(c, steps) <==> NobodyAdds(c, others, f) {
      if !NobodyAdds(c, others, f) {
        var sid :| sid in c.actions && sid !in others && f in c.actions[sid].addEffects;
        assert sid in steps;
      }
    }
  }

  lemma {:induction false} FactsGrowOnlyByAdds(c: Contract, order: seq<int>, k: nat, m: nat)
    requires k <= m <= |order|
    ensures FactsAfter(c, order[..m]) <= FactsAfter(c, order[..k]) + AddsOf(c, Elems(order[k..m]))
  {
    if k < m {
      FactsGrowOnlyByAdds(c, order, k, m - 1);
      assert order[..m][..m - 1] == order[..m - 1];
      assert order[k..m] == order[k..m - 1] + [order[m - 1]];
      ElemsAppend(order[k..m - 1], order[m - 1]);
    } else {
      assert order[k..m] == [];
    }
  }

  lemma RestOf(c: Contract, deps: Dependencies, whole: seq<int>, k: nat, m: nat)
    requires Executable(c, deps, whole) && k <= m <= |whole|
    ensures Elems(whole[k..m]) <= c.actions.Keys - Elems(whole[..k])
    ensures m < |whole| ==> whole[m] !in Elems(whole[k..m])
  {
    ExecutableDistinct(c, deps, whole);
    forall x | x in Elems(whole[k..m]) ensures x in c.actions.Keys - Elems(whole[..k]) {
      var i :| k <= i < m && whole[i] == x;
      assert x in Elems(whole);
    }
  }

  /** Pruning is sound: it never fires on a state that some solution passes through. */
  lemma PruningIsSound(c: Contract, deps: Dependencies, whole: seq<int>, k: nat)
    requires Solution(c, deps, whole) && k <= |whole|
    ensures !FutureImpossible(c, FactsAfter(c, whole[..k]), Elems(whole[..k]))
  {
    var facts, done := FactsAfter(c, whole[..k]), Elems(whole[..k]);
    var remaining := c.actions.Keys - done;
    assert whole[..|whole|] == whole;
    FactsGrowOnlyByAdds(c, whole, k, |whole|);
    RestOf(c, deps, whole, k, |whole|);
    forall sid | sid in remaining
      ensures c.actions[sid].preconditions - facts <= AddsOf(c, remaining - {sid})
    {
      assert sid in Elems(whole);
      var m :| 0 <= m < |whole| && whole[m] == sid;
      assert forall i :: 0 <= i < k ==> whole[i] == whole[..k][i];
      assert StepAt(c, deps, whole, m);
      FactsGrowOnlyByAdds(c, whole, k, m);
      RestOf(c, deps, whole, k, m);
    }
  }

  // -------------------------------------------------- the invariant of the queue

  ghost predicate NodeOk(c: Contract, deps: Dependencies, n: Node) {
    Executable(c, deps, n.order) && KeyOf(n) == KeyAfter(c, n.order)
  }

  /** Breadth first, and lexicographic within one depth. */
  ghost predicate Before(a: seq<int>, b: seq<int>) {
    |a| < |b| || (|a| == |b| && LexLess(a, b))
  }

  /** `all` lists every node ever queued; the first `p` of them have been taken off the queue. */
  ghost predicate Explored(c: Contract, deps: Dependencies, all: seq<Node>, p: nat) {
    && p <= |all| && 0 < |all|
    && NodesOk(c, deps, all)
    && Sorted(all)
    && KeysDistinct(all)
    && Rooted(all, p)
  }

  ghost predicate NodesOk(c: Contract, deps: Dependencies, nodes: seq<Node>) {
    forall i :: 0 <= i < |nodes| ==> NodeOk(c, deps, nodes[i])
  }

  ghost predicate Sorted(nodes: seq<Node>) {
    forall i, j :: 0 <= i < j < |nodes| ==> Before(nodes[i].order, nodes[j].order)
  }

  ghost predicate KeysDistinct(nodes: seq<Node>) {
    forall i, j :: 0 <= i < j < |nodes| ==> KeyOf(nodes[i]) != KeyOf(nodes[j])
  }

  ghost predicate Rooted(all: seq<Node>, p: nat)
    requires p <= |all| && 0 < |all|
  {
    all[0].order == [] && forall j :: 0 < j < |all| ==> HasParent(all, p, j)
  }

  ghost predicate IsParent(parent: Node, child: Node) {
    |child.order| == |parent.order| + 1 && parent.order == child.order[..|parent.order|]
  }

  ghost predicate HasParent(all: seq<Node>, p: nat, j: nat)
    requires p <= |all| && j < |all|
  {
    exists i :: 0 <= i < p && i < j && IsParent(all[i], all[j])
  }

  /** The node is the best known way into a state on the path of the solution `whole`. */
  ghost predicate Tracks(c: Contract, n: Node, whole: seq<int>) {
    && |n.order| <= |whole|
    && KeyOf(n) == KeyAfter(c, whole[..|n.order|])
    && LexLe(n.order, whole[..|n.order|])
  }

  ghost predicate Tracked(c: Contract, all: seq<Node>, p: nat, whole: seq<int>) {
    exists j :: p <= j < |all| && Tracks(c, all[j], whole)
  }

  ghost predicate AllTracked(c: Contract, deps: Dependencies, all: seq<Node>, p: nat) {
    forall whole :: Solution(c, deps, whole) ==> Tracked(c, all, p, whole)
  }

  // -------------------------------------------------- expanding one node

  function Child(c: Contract, n: Node, sid: int): Node
    requires sid in c.actions
  {
    Node(Apply(c.actions[sid], n.facts), n.done + {sid}, n.order + [sid])
  }

  /** The children put on the queue: unseen successors, by ascending step id. */
  ghost predicate Fresh(c: Contract, deps: Dependencies, n: Node, added: seq<Node>) {
    && (forall i :: 0 <= i < |added| ==> IsParent(n, added[i]))
    && NodesOk(c, deps, added) && Sorted(added) && KeysDistinct(added)
  }

  lemma ChildOk(c: Contract, deps: Dependencies, n: Node, sid: int)
    requires NodeOk(c, deps, n) && StepOk(c, deps, n.order, sid)
    ensures NodeOk(c, deps, Child(c, n, sid)) && IsParent(n, Child(c, n, sid))
  {
    ExecutableExtend(c, deps, n.order, sid);
    assert (n.order + [sid])[..|n.order|] == n.order;
  }

  /** The loop over candidates at the end of each round of `_search_solve`. */
  method Expand(c: Contract, deps: Dependencies, n: Node, queue: seq<Node>, seen: set<Key>)
    returns (ghost added: seq<Node>, queue': seq<Node>, seen': set<Key>)
    requires NodeOk(c, deps, n)
    ensures queue' == queue + added
    ensures Fresh(c, deps, n, added)
    ensures KeysOf(added) !! seen
    ensures seen' == seen + KeysOf(added)
    ensures forall sid :: StepOk(c, deps, n.order, sid) ==> KeyOf(Child(c, n, sid)) in seen'
  {
    hide Executable, FactsAfter, NodesOk, Sorted, KeysDistinct;
    var candidates := Candidates(c, deps, n.facts, n.done);
    assert forall sid :: sid in candidates <==> StepOk(c, deps, n.order, sid);
    queue', seen', added := queue, seen, [];
    NoneFresh(c, deps, n);
    for k := 0 to |candidates|
      invariant queue' == queue + added
      invariant Fresh(c, deps, n, added)
      invariant forall i :: 0 <= i < |added| ==> 0 < k && LastStepOf(n, added[i]) <= candidates[k - 1]
      invariant KeysOf(added) !! seen
      invariant seen' == seen + KeysOf(added)
      invariant forall m :: 0 <= m < k ==> candidates[m] in c.actions && KeyOf(Child(c, n, candidates[m])) in seen'
    {
      var sid := candidates[k];
      assert sid in candidates;
      var child := Child(c, n, sid);
      if KeyOf(child) !in seen' {
        FreshAppend(c, deps, n, added, sid);
        seen' := seen' + {KeyOf(child)};
        queue' := queue' + [child];
        added := added + [child];
      }
    }
    forall sid | StepOk(c, deps, n.order, sid) ensures KeyOf(Child(c, n, sid)) in seen' {
      assert sid in candidates;
      var m :| 0 <= m < |candidates| && candidates[m] == sid;
    }
  }

  lemma NoneFresh(c: Contract, deps: Dependencies, n: Node)
    ensures Fresh(c, deps, n, [])
  {
  }

  ghost function LastStepOf(n: Node, child: Node): int
    requires IsParent(n, child)
  {
    child.order[|n.order|]
  }

  lemma FreshAppend(c: Contract, deps: Dependencies, n: Node, added: seq<Node>, sid: int)
    requires NodeOk(c, deps, n) && Fresh(c, deps, n, added) && StepOk(c, deps, n.order, sid)
    requires forall i :: 0 <= i < |added| ==> LastStepOf(n, added[i]) < sid
    requires KeyOf(Child(c, n, sid)) !in KeysOf(added)
    ensures Fresh(c, deps, n, added + [Child(c, n, sid)])
    ensures KeysOf(added + [Child(c, n, sid)]) == KeysOf(added) + {KeyOf(Child(c, n, sid))}
    ensures IsParent(n, Child(c, n, sid)) && LastStepOf(n, Child(c, n, sid)) == sid
  {
    var child := Child(c, n, sid);
    ChildOk(c, deps, n, sid);
    assert [child][0] == child;
    assert KeysOf([child]) == {KeyOf(child)};
    KeysOfConcat(added, [child]);
    forall i | 0 <= i < |added| ensures Before(added[i].order, child.order) && KeyOf(added[i]) != KeyOf(child) {
      assert KeyOf(added[i]) in KeysOf(added);
      assert added[i].order == n.order + [LastStepOf(n, added[i])];
      LexLessLast(n.order, LastStepOf(n, added[i]), sid);
    }
  }

  lemma ChildAfterAll(all: seq<Node>, p: nat, child: Node, i: nat)
    requires p < |all| && Sorted(all) && Rooted(all, p) && IsParent(all[p], child)
    requires i < |all|
    ensures Before(all[i].order, child.order)
  {
    if i > 0 {
      assert HasParent(all, p, i);
      var q :| 0 <= q < p && q < i && IsParent(all[q], all[i]);
      ChildrenKeepOrder(all[q], all[i], all[p], child);
    }
  }

  lemma ChildrenKeepOrder(a: Node, a': Node, b: Node, b': Node)
    requires IsParent(a, a') && IsParent(b, b') && Before(a.order, b.order)
    ensures Before(a'.order, b'.order)
  {
    if |a'.order| == |b'.order| {
      assert a'.order == a.order + a'.order[|a.order|..];
      assert b'.order == b.order + b'.order[|b.order|..];
      LexLessExtend(a.order, b.order, a'.order[|a.order|..], b'.order[|b.order|..]);
    }
  }

  lemma SortedStep(all: seq<Node>, p: nat, added: seq<Node>)
    requires p < |all| && Sorted(all) && Rooted(all, p) && Sorted(added)
    requires forall i :: 0 <= i < |added| ==> IsParent(all[p], added[i])
    ensures Sorted(all + added)
  {
    var more := all + added;
    forall i, j | 0 <= i < j < |more| ensures Before(more[i].order, more[j].order) {
      if i < |all| <= j {
        assert more[j] == added[j - |all|];
        ChildAfterAll(all, p, more[j], i);
      }
    }
  }

  lemma RootedStep(all: seq<Node>, p: nat, added: seq<Node>)
    requires p < |all| && Rooted(all, p)
    requires forall i :: 0 <= i < |added| ==> IsParent(all[p], added[i])
    ensures Rooted(all + added, p + 1)
  {
    var more, p' := all + added, p + 1;
    forall j | 0 < j < |more| ensures HasParent(more, p', j) {
      if j < |all| {
        assert HasParent(all, p, j);
        var i :| 0 <= i < p && i < j && IsParent(all[i], all[j]);
        assert IsParent(more[i], more[j]);
      } else {
        assert more[j] == added[j - |all|];
        assert IsParent(more[p], more[j]);
      }
    }
  }

  lemma ExploredStep(c: Contract, deps: Dependencies, all: seq<Node>, p: nat, added: seq<Node>)
    requires Explored(c, deps, all, p) && p < |all| && Fresh(c, deps, all[p], added)
    requires KeysOf(all) !! KeysOf(added)
    ensures Explored(c, deps, all + added, p + 1)
  {
    var more := all + added;
    SortedStep(all, p, added);
    RootedStep(all, p, added);
    forall i, j | 0 <= i < j < |more| ensures KeyOf(more[i]) != KeyOf(more[j]) {
      if i < |all| <= j {
        assert more[j] == added[j - |all|];
        assert KeyOf(all[i]) in KeysOf(all) && KeyOf(added[j - |all|]) in KeysOf(added);
      }
    }
  }

  /** The next state on the path of a solution is a child of the node that tracks it. */
  lemma NextOnPath(c: Contract, deps: Dependencies, n: Node, whole: seq<int>)
    requires Executable(c, deps, whole) && Tracks(c, n, whole) && |n.order| < |whole|
    requires Elems(n.order) == n.done && n.facts == FactsAfter(c, n.order)
    ensures var sid := whole[|n.order|];
      && StepOk(c, deps, n.order, sid)
      && KeyOf(Child(c, n, sid)) == KeyAfter(c, whole[..|n.order| + 1])
      && LexLe(n.order + [sid], whole[..|n.order| + 1])
  {
    var k := |n.order|;
    var sid := whole[k];
    NextStep(c, deps, whole, k);
    FactsAfterAppend(c, whole[..k], sid);
    ElemsAppend(whole[..k], sid);
    assert sid !in Elems(n.order);
    LexLeExtend(n.order, whole[..k], sid, sid);
  }

  /** Taking node p off the queue loses no solution: its successor on the path is queued behind it. */
  lemma TrackedAfterExpansion(c: Contract, deps: Dependencies, all: seq<Node>, p: nat, added: seq<Node>, whole: seq<int>)
    requires p < |all| && Explored(c, deps, all + added, p + 1)
    requires Solution(c, deps, whole) && Tracks(c, all[p], whole)
    requires |all[p].order| < |whole|
    requires forall sid :: StepOk(c, deps, all[p].order, sid) ==>
      KeyOf(Child(c, all[p], sid)) in KeysOf(all + added)
    ensures Tracked(c, all + added, p + 1, whole)
  {
    var more := all + added;
    var n := more[p];
    assert n == all[p] && NodeOk(c, deps, n);
    NextOnPath(c, deps, n, whole);
    var child := Child(c, n, whole[|n.order|]);
    var j :| 0 <= j < |more| && KeyOf(more[j]) == KeyOf(child);
    QueuedChildTracks(c, deps, more, p, j, whole);
  }

  lemma QueuedChildTracks(c: Contract, deps: Dependencies, more: seq<Node>, p: nat, j: nat, whole: seq<int>)
    requires p < |more| && j < |more| && Explored(c, deps, more, p + 1)
    requires Solution(c, deps, whole) && Tracks(c, more[p], whole) && |more[p].order| < |whole|
    requires whole[|more[p].order|] in c.actions
    requires KeyOf(more[j]) == KeyOf(Child(c, more[p], whole[|more[p].order|]))
    ensures p < j && Tracks(c, more[j], whole)
  {
    var n, m, k := more[p], more[j], |more[p].order|;
    assert NodeOk(c, deps, n) && NodeOk(c, deps, m);
    NextOnPath(c, deps, n, whole);
    SameDepth(c, deps, m, k + 1, whole);
    assert j < p ==> Before(m.order, n.order);
    assert j != p;
    assert HasParent(more, p + 1, j);
    var q :| 0 <= q < p + 1 && q < j && IsParent(more[q], m);
    BestWayIn(c, deps, more[q], n, m, whole[k]);
    LexLeTransitive(m.order, n.order + [whole[k]], whole[..k + 1]);
  }

  lemma SameDepth(c: Contract, deps: Dependencies, n: Node, k: nat, whole: seq<int>)
    requires NodeOk(c, deps, n)
    requires Executable(c, deps, whole) && k <= |whole| && n.done == Elems(whole[..k])
    ensures |n.order| == k
  {
    ExecutableDistinct(c, deps, n.order);
    ExecutablePrefix(c, deps, whole, k);
    ExecutableDistinct(c, deps, whole[..k]);
  }

  /** Whichever queued node `m` (with parent `q`) first reached the state of a child of `n`
      did so by an order no worse. */
  lemma BestWayIn(c: Contract, deps: Dependencies, q: Node, n: Node, m: Node, sid: int)
    requires NodeOk(c, deps, m) && NodeOk(c, deps, n)
    requires StepOk(c, deps, n.order, sid)
    requires KeyOf(m) == KeyOf(Child(c, n, sid))
    requires IsParent(q, m) && |m.order| == |n.order| + 1
    requires q == n || Before(q.order, n.order)
    ensures LexLe(m.order, n.order + [sid])
  {
    if q == n {
      ExecutableDistinct(c, deps, m.order);
      LastStep(m.order, n.order, sid);
    } else {
      assert m.order == q.order + m.order[|q.order|..];
      LexLessExtend(q.order, n.order, m.order[|q.order|..], [sid]);
    }
  }

  lemma LastStep(m: seq<int>, n: seq<int>, sid: int)
    requires Distinct(m) && |m| == |n| + 1 && n == m[..|n|]
    requires Elems(m) == Elems(n) + {sid} && sid !in Elems(n)
    ensures m == n + [sid]
  {
    var x := m[|n|];
    assert m == n + [x];
    assert x in Elems(m);
    assert forall i :: 0 <= i < |n| ==> n[i] == m[i];
  }

  // -------------------------------------------------- the verdicts

  ghost predicate AllReachable(c: Contract, deps: Dependencies, states: set<Key>) {
    forall key :: key in states ==> Reachable(c, deps, key)
  }

  ghost predicate MoreStatesThan(c: Contract, deps: Dependencies, bound: nat) {
    exists states :: |states| > bound && AllReachable(c, deps, states)
  }

  lemma FirstFoundIsLeast(c: Contract, deps: Dependencies, all: seq<Node>, p: nat)
    requires Explored(c, deps, all, p) && p < |all| && AllTracked(c, deps, all, p)
    requires |all[p].done| == |c.actions.Keys| && c.goals <= all[p].facts
    ensures LeastSolution(c, deps, all[p].order)
  {
    var n := all[p];
    assert NodeOk(c, deps, n);
    ExecutableDistinct(c, deps, n.order);
    SubsetCardinality(n.done, c.actions.Keys);
    forall other | Solution(c, deps, other) ensures LexLe(n.order, other) {
      SolutionLength(c, deps, other);
      assert Tracked(c, all, p, other);
      NothingBetterQueued(c, all, p, other);
    }
  }

  lemma NothingBetterQueued(c: Contract, all: seq<Node>, p: nat, other: seq<int>)
    requires p < |all| && Sorted(all) && Tracked(c, all, p, other)
    requires |all[p].order| == |other|
    ensures LexLe(all[p].order, other)
  {
    var j :| p <= j < |all| && Tracks(c, all[j], other);
    if j > p {
      assert Before(all[p].order, all[j].order);
      assert other[..|all[j].order|] == other;
      LexLeTransitive(all[p].order, all[j].order, other);
    } else {
      assert other[..|other|] == other;
    }
  }

  /** A node that is dropped (full without the goals, or pruned) is on no solution's path. */
  lemma DroppedNode(c: Contract, deps: Dependencies, all: seq<Node>, p: nat)
    requires Explored(c, deps, all, p) && p < |all| && AllTracked(c, deps, all, p)
    requires FutureImpossible(c, all[p].facts, all[p].done)
      || (|all[p].done| == |c.actions.Keys| && !(c.goals <= all[p].facts))
    ensures Explored(c, deps, all, p + 1) && AllTracked(c, deps, all, p + 1)
  {
    var p' := p + 1;
    forall j | 0 < j < |all| ensures HasParent(all, p', j) {
      assert HasParent(all, p, j);
    }
    forall whole | Solution(c, deps, whole) ensures Tracked(c, all, p + 1, whole) {
      assert Tracked(c, all, p, whole);
      var j :| p <= j < |all| && Tracks(c, all[j], whole);
      if Tracks(c, all[p], whole) {
        NotDropped(c, deps, all[p], whole);
      }
    }
  }

  lemma NotDropped(c: Contract, deps: Dependencies, n: Node, whole: seq<int>)
    requires NodeOk(c, deps, n) && Solution(c, deps, whole) && Tracks(c, n, whole)
    ensures !FutureImpossible(c, n.facts, n.done)
    ensures |n.done| == |c.actions.Keys| ==> c.goals <= n.facts
  {
    PruningIsSound(c, deps, whole, |n.order|);
    SolutionLength(c, deps, whole);
    ExecutableDistinct(c, deps, n.order);
    if |n.order| == |whole| {
      assert whole[..|n.order|] == whole;
    }
  }

  lemma ExpandedNode(c: Contract, deps: Dependencies, all: seq<Node>, p: nat, added: seq<Node>)
    requires Explored(c, deps, all, p) && p < |all| && AllTracked(c, deps, all, p)
    requires Fresh(c, deps, all[p], added)
    requires |all[p].done| != |c.actions.Keys|
    requires KeysOf(all) !! KeysOf(added)
    requires forall sid :: StepOk(c, deps, all[p].order, sid) ==>
      KeyOf(Child(c, all[p], sid)) in KeysOf(all + added)
    ensures Explored(c, deps, all + added, p + 1) && AllTracked(c, deps, all + added, p + 1)
  {
    hide Explored, Solution, Tracked, StepOk, Fresh;
    ExploredStep(c, deps, all, p, added);
    forall whole | Solution(c, deps, whole) ensures Tracked(c, all + added, p + 1, whole) {
      StillTracked(c, deps, all, p, added, whole);
    }
  }

  lemma StillTracked(c: Contract, deps: Dependencies, all: seq<Node>, p: nat, added: seq<Node>, whole: seq<int>)
    requires p < |all| && Explored(c, deps, all + added, p + 1) && Solution(c, deps, whole) && Tracked(c, all, p, whole)
    requires |all[p].done| != |c.actions.Keys|
    requires forall sid :: StepOk(c, deps, all[p].order, sid) ==>
      KeyOf(Child(c, all[p], sid)) in KeysOf(all + added)
    ensures Tracked(c, all + added, p + 1, whole)
  {
    hide Executable, FactsAfter, StepOk, Tracks, Sorted, KeysDistinct, Rooted;
    var more := all + added;
    if Tracks(c, all[p], whole) {
      assert more[p] == all[p] && NodeOk(c, deps, more[p]);
      NotYetWhole(c, deps, all[p], whole);
      TrackedAfterExpansion(c, deps, all, p, added, whole);
    } else {
      var j :| p <= j < |all| && Tracks(c, all[j], whole);
      assert more[j] == all[j];
    }
  }

  lemma NotYetWhole(c: Contract, deps: Dependencies, n: Node, whole: seq<int>)
    requires NodeOk(c, deps, n) && Solution(c, deps, whole) && Tracks(c, n, whole) && |n.done| != |c.actions.Keys|
    ensures |n.order| < |whole|
  {
    hide Executable;
    ExecutableDistinct(c, deps, n.order);
    SolutionLength(c, deps, whole);
  }

  lemma StartTracked(c: Contract, deps: Dependencies)
    ensures Explored(c, deps, [Node(c.initial, {}, [])], 0)
    ensures AllTracked(c, deps, [Node(c.initial, {}, [])], 0)
  {
    var all := [Node(c.initial, {}, [])];
    forall whole | Solution(c, deps, whole) ensures Tracked(c, all, 0, whole) {
      assert whole[..0] == [];
      assert Tracks(c, all[0], whole);
    }
  }

  // -------------------------------------------------- exactly which states are looked at

  ghost predicate HopelessAfter(c: Contract, order: seq<int>) {
    Hopeless(c, FactsAfter(c, order), Elems(order))
  }

  /** No state before the last is hopeless. */
  ghost predicate Live(c: Contract, order: seq<int>) {
    forall k :: 0 <= k < |order| ==> !HopelessAfter(c, order[..k])
  }

  ghost predicate LiveReachable(c: Contract, deps: Dependencies, key: Key) {
    exists order :: Executable(c, deps, order) && Live(c, order) && key == KeyAfter(c, order)
  }

  ghost predicate AllLive(c: Contract, deps: Dependencies, states: set<Key>) {
    forall key :: key in states ==> LiveReachable(c, deps, key)
  }

  /** The states that can be reached without passing through a hopeless one. */
  ghost predicate LiveStatesAre(c: Contract, deps: Dependencies, states: set<Key>) {
    forall key :: key in states <==> LiveReachable(c, deps, key)
  }

  ghost predicate MoreLiveStatesThan(c: Contract, deps: Dependencies, bound: nat) {
    exists states :: |states| > bound && AllLive(c, deps, states)
  }

  lemma LiveIsReachable(c: Contract, deps: Dependencies, bound: nat)
    ensures MoreLiveStatesThan(c, deps, bound) ==> MoreStatesThan(c, deps, bound)
  {
    hide Executable, KeyAfter;
    if MoreLiveStatesThan(c, deps, bound) {
      var states: set<Key> :| |states| > bound && AllLive(c, deps, states);
      assert AllReachable(c, deps, states);
    }
  }

  ghost predicate Followed(c: Contract, deps: Dependencies, all: seq<Node>, n: Node) {
    !Hopeless(c, n.facts, n.done) ==> forall sid :: StepOk(c, deps, n.order, sid) ==> KeyOf(Child(c, n, sid)) in KeysOf(all)
  }

  /** Every queued node was reached live, and every live successor of a node taken off the queue is known. */
  ghost predicate LiveExplored(c: Contract, deps: Dependencies, all: seq<Node>, p: nat) {
    && p <= |all|
    && (forall i :: 0 <= i < |all| ==> Live(c, all[i].order))
    && forall i :: 0 <= i < p ==> Followed(c, deps, all, all[i])
  }

  lemma LiveStart(c: Contract, deps: Dependencies)
    ensures LiveExplored(c, deps, [Node(c.initial, {}, [])], 0)
    ensures KeysOf([Node(c.initial, {}, [])]) == {Key(c.initial, {})}
  {
    assert KeyOf([Node(c.initial, {}, [])][0]) == Key(c.initial, {});
  }

  lemma LiveDropped(c: Contract, deps: Dependencies, all: seq<Node>, p: nat)
    requires LiveExplored(c, deps, all, p) && p < |all| && NodeOk(c, deps, all[p])
    requires Hopeless(c, all[p].facts, all[p].done) || |all[p].done| == |c.actions.Keys|
    ensures LiveExplored(c, deps, all, p + 1)
  {
    hide Hopeless;
    var n := all[p];
    if |n.done| == |c.actions.Keys| {
      ExecutableDistinct(c, deps, n.order);
      SubsetCardinality(n.done, c.actions.Keys);
      forall sid ensures !StepOk(c, deps, n.order, sid) {
        assert sid in c.actions ==> sid in Elems(n.order);
      }
    }
  }

  lemma LiveExpanded(c: Contract, deps: Dependencies, all: seq<Node>, p: nat, added: seq<Node>)
    requires LiveExplored(c, deps, all, p) && p < |all| && NodeOk(c, deps, all[p])
    requires !Hopeless(c, all[p].facts, all[p].done) && Fresh(c, deps, all[p], added)
    requires forall sid :: StepOk(c, deps, all[p].order, sid) ==> KeyOf(Child(c, all[p], sid)) in KeysOf(all + added)
    ensures LiveExplored(c, deps, all + added, p + 1)
  {
    hide Hopeless, StepOk, NodesOk, Sorted, KeysDistinct, FactsAfter;
    var more := all + added;
    KeysOfConcat(all, added);
    forall i | 0 <= i < |more| ensures Live(c, more[i].order) {
      if i >= |all| {
        var n, child := all[p], more[i];
        assert IsParent(n, added[i - |all|]);
        forall k | 0 <= k < |child.order| ensures !HopelessAfter(c, child.order[..k]) {
          assert child.order[..k] == n.order[..k];
          if k == |n.order| { assert n.order[..k] == n.order; }
        }
      }
    }
    forall i | 0 <= i < p + 1 ensures Followed(c, deps, more, more[i]) {
      if i < p { assert Followed(c, deps, all, all[i]); }
    }
  }

  /** What can be done next depends on the state only. */
  lemma SameKeySteps(c: Contract, deps: Dependencies, n: Node, order: seq<int>, sid: int)
    requires NodeOk(c, deps, n) && KeyOf(n) == KeyAfter(c, order) && StepOk(c, deps, order, sid)
    ensures StepOk(c, deps, n.order, sid) && KeyOf(Child(c, n, sid)) == KeyAfter(c, order + [sid])
  {
    assert sid !in Elems(order);
    FactsAfterAppend(c, order, sid);
    ElemsAppend(order, sid);
  }

  lemma {:induction false} LiveIsQueued(c: Contract, deps: Dependencies, all: seq<Node>, order: seq<int>)
    requires Explored(c, deps, all, |all|) && LiveExplored(c, deps, all, |all|)
    requires Executable(c, deps, order) && Live(c, order)
    ensures KeyAfter(c, order) in KeysOf(all)
  {
    hide Hopeless, FactsAfter, StepOk;
    assert NodeOk(c, deps, all[0]);
    if order == [] {
      assert KeyAfter(c, []) == KeyOf(all[0]);
    } else {
      var k := |order| - 1;
      var before := order[..k];
      ExecutablePrefix(c, deps, order, k);
      forall i | 0 <= i < k ensures before[..i] == order[..i] {}
      LiveIsQueued(c, deps, all, before);
      var i :| 0 <= i < |all| && KeyOf(all[i]) == KeyAfter(c, before);
      assert NodeOk(c, deps, all[i]) && Followed(c, deps, all, all[i]);
      assert !HopelessAfter(c, before) && StepAt(c, deps, order, k);
      SameKeySteps(c, deps, all[i], before, order[k]);
      assert before + [order[k]] == order;
    }
  }

  /** Once the queue is empty, the nodes taken off it are the live states, one each. */
  lemma LiveStatesCounted(c: Contract, deps: Dependencies, all: seq<Node>)
    requires Explored(c, deps, all, |all|) && LiveExplored(c, deps, all, |all|)
    ensures |KeysOf(all)| == |all| && LiveStatesAre(c, deps, KeysOf(all))
  {
    hide Hopeless, FactsAfter, Executable;
    CountKeys(all, |all|);
    assert all[..|all|] == all;
    forall key ensures key in KeysOf(all) <==> LiveReachable(c, deps, key) {
      if key in KeysOf(all) {
        var i :| 0 <= i < |all| && KeyOf(all[i]) == key;
        assert NodeOk(c, deps, all[i]) && Live(c, all[i].order);
      }
      if LiveReachable(c, deps, key) {
        var order :| Executable(c, deps, order) && Live(c, order) && key == KeyAfter(c, order);
        LiveIsQueued(c, deps, all, order);
      }
    }
  }

  lemma CountKeys(all: seq<Node>, p: nat)
    requires KeysDistinct(all) && p <= |all|
    ensures |KeysOf(all[..p])| == p
  {
    var keys := seq(p, i requires 0 <= i < p => KeyOf(all[i]));
    DistinctCardinality(keys);
    forall key ensures key in Elems(keys) <==> key in KeysOf(all[..p]) {
      if key in Elems(keys) {
        var i :| 0 <= i < p && keys[i] == key;
        assert all[..p][i] == all[i];
      }
      if key in KeysOf(all[..p]) {
        var i :| 0 <= i < p && KeyOf(all[..p][i]) == key;
        assert keys[i] == key;
      }
    }
    assert Elems(keys) == KeysOf(all[..p]);
  }

  lemma UnknownMeansManyLiveStates(c: Contract, deps: Dependencies, all: seq<Node>, p: nat, bound: nat)
    requires Explored(c, deps, all, p) && LiveExplored(c, deps, all, 0) && p > bound
    ensures MoreLiveStatesThan(c, deps, bound)
  {
    hide Hopeless, FactsAfter, Executable;
    CountKeys(all, p);
    forall key | key in KeysOf(all[..p]) ensures LiveReachable(c, deps, key) {
      var i :| 0 <= i < p && KeyOf(all[..p][i]) == key;
      assert NodeOk(c, deps, all[i]) && Live(c, all[i].order);
    }
    assert AllLive(c, deps, KeysOf(all[..p]));
  }

  lemma LiveNodesOnly(c: Contract, deps: Dependencies, all: seq<Node>, p: nat)
    requires LiveExplored(c, deps, all, p)
    ensures LiveExplored(c, deps, all, 0)
  {
  }

  /** A contract that is hopeless from the start has one live state, and no solution. */
  lemma HopelessStart(c: Contract, deps: Dependencies)
    requires Hopeless(c, c.initial, {})
    ensures !Solvable(c, deps)
    ensures forall key :: LiveReachable(c, deps, key) ==> key == Key(c.initial, {})
    ensures forall states :: AllLive(c, deps, states) ==> |states| <= 1
    ensures forall states :: LiveStatesAre(c, deps, states) ==> |states| == 1
  {
    hide Hopeless;
    var start := Key(c.initial, {});
    var none: seq<int> := [];
    assert Elems(none) == {} && HopelessAfter(c, none);
    PruningExactly(c, c.initial, {});
    forall whole ensures !Solution(c, deps, whole) {
      assert whole[..0] == none;
      if Solution(c, deps, whole) { PruningIsSound(c, deps, whole, 0); }
    }
    forall key | LiveReachable(c, deps, key) ensures key == start {
      var order :| Executable(c, deps, order) && Live(c, order) && key == KeyAfter(c, order);
      assert order[..0] == none;
      assert order == none || !(0 < |order|);
    }
    assert Live(c, []) && Executable(c, deps, []) && KeyAfter(c, []) == start;
    forall states | AllLive(c, deps, states) ensures |states| <= 1 {
      SubsetCardinality(states, {start});
    }
    forall states | LiveStatesAre(c, deps, states) ensures |states| == 1 {
      assert states == {start};
    }
  }

  lemma DroppedFull(c: Contract, deps: Dependencies, all: seq<Node>, p: nat)
    requires Explored(c, deps, all, p) && AllTracked(c, deps, all, p) && LiveExplored(c, deps, all, p) && p < |all|
    requires |all[p].done| == |c.actions.Keys| && !(c.goals <= all[p].facts)
    ensures Explored(c, deps, all, p + 1) && AllTracked(c, deps, all, p + 1) && LiveExplored(c, deps, all, p + 1)
  {
    hide LiveExplored, AllTracked, FutureImpossible, Hopeless;
    DroppedNode(c, deps, all, p);
    assert NodeOk(c, deps, all[p]);
    LiveDropped(c, deps, all, p);
  }

  /** The second half of a round: prune the state, or queue its unseen successors. */
  method PruneOrExpand(c: Contract, deps: Dependencies, n: Node, queue: seq<Node>, seen: set<Key>,
                       ghost all: seq<Node>, ghost p: nat)
    returns (queue': seq<Node>, seen': set<Key>, ghost all': seq<Node>)
    requires p < |all| && n == all[p] && queue == all[p + 1..] && seen == KeysOf(all)
    requires Explored(c, deps, all, p) && AllTracked(c, deps, all, p) && LiveExplored(c, deps, all, p)
    requires |n.done| != |c.actions.Keys|
    ensures p < |all'| && queue' == all'[p + 1..] && seen' == KeysOf(all')
    ensures Explored(c, deps, all', p + 1) && AllTracked(c, deps, all', p + 1) && LiveExplored(c, deps, all', p + 1)
  {
    hide Hopeless, LiveExplored, AllTracked, FutureImpossible;
    PruningExactly(c, n.facts, n.done);
    assert NodeOk(c, deps, n);
    if FutureImpossible(c, n.facts, n.done) {
      DroppedNode(c, deps, all, p);
      LiveDropped(c, deps, all, p);
      return queue, seen, all;
    }
    ghost var added;
    added, queue', seen' := Expand(c, deps, n, queue, seen);
    KeysOfConcat(all, added);
    ExpandedNode(c, deps, all, p, added);
    LiveExpanded(c, deps, all, p, added);
    all' := all + added;
  }

  /** `_search_solve`. A rejection has looked at every state that can be reached without passing through a hopeless one,
      each exactly once; UNKNOWN means that there are more of them than the bound. */
  method SearchSolve(c: Contract, deps: Dependencies, maxStates: nat)
    returns (verdict: Verdict, order: seq<int>, explored: nat)
    ensures verdict == Pass ==> LeastSolution(c, deps, order)
    ensures verdict == Reject ==> !Solvable(c, deps) && order == []
    ensures verdict == Reject ==> exists states :: |states| == explored && LiveStatesAre(c, deps, states)
    ensures verdict == Unknown ==> explored == maxStates + 1 && MoreLiveStatesThan(c, deps, maxStates) && MoreStatesThan(c, deps, maxStates)
    ensures Hopeless(c, c.initial, {}) && maxStates > 0 ==> verdict == Reject && explored == 1
    ensures explored <= maxStates + 1
  {
    hide Hopeless, Explored, LiveExplored, AllTracked, Tracked, FutureImpossible, LiveStatesAre, AllLive, Solution, LeastSolution;
    if Hopeless(c, c.initial, {}) { HopelessStart(c, deps); }
    var start := Node(c.initial, {}, []);
    var queue := [start];
    var seen := {KeyOf(start)};
    explored := 0;
    ghost var all := [start];
    StartTracked(c, deps);
    LiveStart(c, deps);
    while queue != []
      invariant explored <= |all| && queue == all[explored..]
      invariant explored <= maxStates
      invariant Explored(c, deps, all, explored) && AllTracked(c, deps, all, explored) && LiveExplored(c, deps, all, explored)
      invariant seen == KeysOf(all)
      decreases maxStates + 1 - explored
    {
      var n := queue[0];
      queue := queue[1..];
      explored := explored + 1;
      assert n == all[explored - 1];
      if explored > maxStates {
        PopOne(c, deps, all, explored - 1);
        LiveNodesOnly(c, deps, all, explored - 1);
        UnknownMeansManyLiveStates(c, deps, all, explored, maxStates);
        LiveIsReachable(c, deps, maxStates);
        return Unknown, n.order, explored;
      }
      if |n.done| == |c.actions.Keys| {
        if c.goals <= n.facts {
          FirstFoundIsLeast(c, deps, all, explored - 1);
          return Pass, n.order, explored;
        }
        DroppedFull(c, deps, all, explored - 1);
        continue;
      }
      queue, seen, all := PruneOrExpand(c, deps, n, queue, seen, all, explored - 1);
    }
    NothingTracked(c, deps, all, explored);
    LiveStatesCounted(c, deps, all);
    verdict, order := Reject, [];
  }

  lemma NothingTracked(c: Contract, deps: Dependencies, all: seq<Node>, p: nat)
    requires AllTracked(c, deps, all, p) && p >= |all|
    ensures !Solvable(c, deps)
  {
    forall whole ensures !Solution(c, deps, whole) {
      assert !Tracked(c, all, p, whole);
    }
  }

  lemma PopOne(c: Contract, deps: Dependencies, all: seq<Node>, p: nat)
    requires Explored(c, deps, all, p) && p < |all|
    ensures Explored(c, deps, all, p + 1)
  {
    var p' := p + 1;
    forall j | 0 < j < |all| ensures HasParent(all, p', j) {
      assert HasParent(all, p, j);
    }
  }

  // -------------------------------------------------- the bound, and agreement

  function Vocabulary(c: Contract): (r: set<Fact>) {
    c.initial + AddsOf(c, c.actions.Keys)
  }

  ghost function AllStates(c: Contract): set<Key> {
    set facts, done | facts <= Vocabulary(c) && done <= c.actions.Keys :: Key(facts, done)
  }

  lemma {:induction false} FactsInVocabulary(c: Contract, order: seq<int>)
    requires Elems(order) <= c.actions.Keys
    ensures FactsAfter(c, order) <= Vocabulary(c)
  {
    if order != [] {
      var n := |order| - 1;
      assert order == order[..n] + [order[n]];
      ElemsAppend(order[..n], order[n]);
      FactsInVocabulary(c, order[..n]);
    }
  }

  /** With a bound no smaller than the finite state space the search always decides. */
  lemma StateSpaceIsFinite(c: Contract, deps: Dependencies, bound: nat)
    requires MoreStatesThan(c, deps, bound)
    ensures bound < |AllStates(c)|
  {
    var states: set<Key> :| |states| > bound && AllReachable(c, deps, states);
    forall key | key in states ensures key in AllStates(c) {
      var order :| Executable(c, deps, order) && key == KeyAfter(c, order);
      ExecutableDistinct(c, deps, order);
      FactsInVocabulary(c, order);
      assert key == Key(key.facts, key.done);
    }
    SubsetCardinality(states, AllStates(c));
  }

  lemma LeastSolutionUnique(c: Contract, deps: Dependencies, a: seq<int>, b: seq<int>)
    requires LeastSolution(c, deps, a) && LeastSolution(c, deps, b)
    ensures a == b
  {
    LexAntisymmetric(a, b);
  }

  /** On a delete-free contract both solvers give the same verdict, and the same order on PASS,
      whenever the search bound is not hit. */
  method BothSolvers(c: Contract, deps: Dependencies, maxStates: nat)
    returns (greedy: Verdict, greedyOrder: seq<int>, search: Verdict, searchOrder: seq<int>)
    requires c.Monotonic()
    ensures search != Unknown ==> greedy == search
    ensures greedy == Pass && search == Pass ==> greedyOrder == searchOrder
    ensures !MoreLiveStatesThan(c, deps, maxStates) ==> search != Unknown
  {
    var e1, e2;
    greedy, greedyOrder, e1 := MonotonicSolve(c, deps);
    search, searchOrder, e2 := SearchSolve(c, deps, maxStates);
    if greedy == Pass && search == Pass {
      LeastSolutionUnique(c, deps, greedyOrder, searchOrder);
    }
  }

  /** The solver choice of `analyze_formal_contract`. */
  method Solve(c: Contract, deps: Dependencies, maxStates: nat)
    returns (verdict: Verdict, order: seq<int>, explored: nat)
    ensures verdict == Pass ==> LeastSolution(c, deps, order)
    ensures verdict == Reject ==> !Solvable(c, deps)
    ensures verdict == Unknown ==> !c.Monotonic() && MoreLiveStatesThan(c, deps, maxStates) && MoreStatesThan(c, deps, maxStates)
    ensures Hopeless(c, c.initial, {}) && maxStates > 0 ==> verdict == Reject
  {
    if Hopeless(c, c.initial, {}) { HopelessStart(c, deps); }
    if c.Monotonic() {
      verdict, order, explored := MonotonicSolve(c, deps);
    } else {
      verdict, order, explored := SearchSolve(c, deps, maxStates);
    }
  }
}

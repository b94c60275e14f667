/** Grounded STRIPS planning: the contract, what a solution is, and the two solvers
    of supervisor/formal_planning.py. */
module Planning {
  import opened Sequences

  type Fact = string

  datatype Action = Action(preconditions: set<Fact>, addEffects: set<Fact>, delEffects: set<Fact>)

  /** A parsed contract. Parsing rejects repeated step ids, so the actions are kept by step id. */
  datatype Contract = Contract(initial: set<Fact>, goals: set<Fact>, actions: map<int, Action>) {
    predicate Monotonic() {
      forall sid :: sid in actions ==> actions[sid].delEffects == {}
    }
  }

  type Dependencies = map<int, seq<int>>

  datatype Verdict = Pass | Reject | Unknown

  function DepsOf(deps: Dependencies, sid: int): seq<int> {
    if sid in deps then deps[sid] else []
  }

  predicate Applicable(c: Contract, deps: Dependencies, facts: set<Fact>, done: set<int>, sid: int)
    requires sid in c.actions
  {
    && (forall d :: d in DepsOf(deps, sid) ==> d in done)
    && c.actions[sid].preconditions <= facts
  }

  function Apply(a: Action, facts: set<Fact>): set<Fact> {
    (facts - a.delEffects) + a.addEffects
  }

  // -------------------------------------------------- what a solution is

  /** The facts that hold after executing `order` from the initial facts. */
  function FactsAfter(c: Contract, order: seq<int>): set<Fact> {
    if order == [] then c.initial
    else
      var before := FactsAfter(c, order[..|order| - 1]);
      var last := order[|order| - 1];
      if last in c.actions then Apply(c.actions[last], before) else before
  }

  ghost predicate StepOk(c: Contract, deps: Dependencies, before: seq<int>, sid: int) {
    && sid in c.actions
    && sid !in before
    && Applicable(c, deps, FactsAfter(c, before), Elems(before), sid)
  }

  ghost predicate StepAt(c: Contract, deps: Dependencies, order: seq<int>, i: nat)
    requires i < |order|
  {
    StepOk(c, deps, order[..i], order[i])
  }

  ghost predicate Executable(c: Contract, deps: Dependencies, order: seq<int>) {
    forall i :: 0 <= i < |order| ==> StepAt(c, deps, order, i)
  }

  /** Every step executed exactly once, in its turn, ending in all goals. */
  ghost predicate Solution(c: Contract, deps: Dependencies, order: seq<int>) {
    && Executable(c, deps, order)
    && Elems(order) == c.actions.Keys
    && c.goals <= FactsAfter(c, order)
  }

  ghost predicate Solvable(c: Contract, deps: Dependencies) {
    exists order :: Solution(c, deps, order)
  }

  ghost predicate LeastSolution(c: Contract, deps: Dependencies, order: seq<int>) {
    && Solution(c, deps, order)
    && forall other :: Solution(c, deps, other) ==> LexLe(order, other)
  }

  lemma ExecutableDistinct(c: Contract, deps: Dependencies, order: seq<int>)
    requires Executable(c, deps, order)
    ensures Distinct(order)
    ensures Elems(order) <= c.actions.Keys
    ensures |order| == |Elems(order)| <= |c.actions.Keys|
  {
    forall i, j | 0 <= i < j < |order| ensures order[i] != order[j] {
      assert StepAt(c, deps, order, j);
      assert order[..j][i] == order[i];
    }
    DistinctCardinality(order);
    forall x | x in Elems(order) ensures x in c.actions.Keys {
      var i :| 0 <= i < |order| && order[i] == x;
      assert StepAt(c, deps, order, i);
    }
    SubsetCardinality(Elems(order), c.actions.Keys);
  }

  lemma FactsAfterAppend(c: Contract, order: seq<int>, sid: int)
    requires sid in c.actions
    ensures FactsAfter(c, order + [sid]) == Apply(c.actions[sid], FactsAfter(c, order))
  {
    assert (order + [sid])[..|order|] == order;
  }

  lemma ExecutableExtend(c: Contract, deps: Dependencies, order: seq<int>, sid: int)
    requires Executable(c, deps, order) && StepOk(c, deps, order, sid)
    ensures Executable(c, deps, order + [sid])
    ensures FactsAfter(c, order + [sid]) == Apply(c.actions[sid], FactsAfter(c, order))
    ensures Elems(order + [sid]) == Elems(order) + {sid}
  {
    var longer := order + [sid];
    forall i | 0 <= i < |longer| ensures StepAt(c, deps, longer, i) {
      if i < |order| {
        assert longer[..i] == order[..i];
        assert StepAt(c, deps, order, i);
      } else {
        assert longer[..i] == order;
      }
    }
    FactsAfterAppend(c, order, sid);
    ElemsAppend(order, sid);
  }

  lemma ExecutablePrefix(c: Contract, deps: Dependencies, order: seq<int>, k: nat)
    requires Executable(c, deps, order) && k <= |order|
    ensures Executable(c, deps, order[..k])
  {
    forall i | 0 <= i < k ensures StepAt(c, deps, order[..k], i) {
      assert order[..k][..i] == order[..i];
      assert StepAt(c, deps, order, i);
    }
  }

  lemma SolutionLength(c: Contract, deps: Dependencies, order: seq<int>)
    requires Solution(c, deps, order)
    ensures |order| == |c.actions.Keys|
  {
    ExecutableDistinct(c, deps, order);
  }

  /** The prefix of length k+1 of an executable order is its k-prefix plus one more step. */
  lemma NextStep(c: Contract, deps: Dependencies, order: seq<int>, k: nat)
    requires Executable(c, deps, order) && k < |order|
    ensures StepOk(c, deps, order[..k], order[k])
    ensures order[..k + 1] == order[..k] + [order[k]]
  {
    assert StepAt(c, deps, order, k);
  }

  // -------------------------------------------------- candidates, as both loops collect them

  /** The applicable steps that are not yet done, by ascending id. */
  method Candidates(c: Contract, deps: Dependencies, facts: set<Fact>, done: set<int>) returns (r: seq<int>)
    ensures Ascending(r)
    ensures forall sid :: sid in r <==>
      sid in c.actions && sid !in done && Applicable(c, deps, facts, done, sid)
  {
    var ids := SortedIds(c.actions.Keys - done);
    r := [];
    for k := 0 to |ids|
      invariant Ascending(r)
      invariant forall x :: x in r ==> exists m :: 0 <= m < k && ids[m] == x
      invariant forall x :: x in r ==> x in c.actions && x !in done && Applicable(c, deps, facts, done, x)
      invariant forall m :: 0 <= m < k && ids[m] in c.actions && Applicable(c, deps, facts, done, ids[m]) ==> ids[m] in r
    {
      assert ids[k] in Elems(ids);
      if Applicable(c, deps, facts, done, ids[k]) {
        forall i | 0 <= i < |r| ensures r[i] < ids[k] {
          assert r[i] in r;
        }
        r := r + [ids[k]];
      }
    }
    forall sid | sid in c.actions && sid !in done && Applicable(c, deps, facts, done, sid) ensures sid in r {
      assert sid in Elems(ids);
      var m :| 0 <= m < |ids| && ids[m] == sid;
    }
  }

  // -------------------------------------------------- the greedy forward pass

  /** No complete executable order is lexicographically below the ones that start with `order`. */
  ghost predicate LeastPrefix(c: Contract, deps: Dependencies, order: seq<int>) {
    forall other :: Executable(c, deps, other) && Elems(other) == c.actions.Keys && |order| <= |other|
      ==> LexLe(order, other[..|order|])
  }

  lemma LeastPrefixExtend(c: Contract, deps: Dependencies, order: seq<int>, sid: int)
    requires Executable(c, deps, order) && LeastPrefix(c, deps, order)
    requires forall x :: StepOk(c, deps, order, x) ==> sid <= x
    ensures LeastPrefix(c, deps, order + [sid])
  {
    var k := |order|;
    forall other | Executable(c, deps, other) && Elems(other) == c.actions.Keys && k + 1 <= |other|
      ensures LexLe(order + [sid], other[..k + 1])
    {
      NextStep(c, deps, other, k);
      if order == other[..k] {
        LexLeExtend(order, other[..k], sid, other[k]);
      } else {
        LexLessExtend(order, other[..k], [sid], [other[k]]);
      }
    }
  }

  /** Without delete effects the facts are the initial ones and everything added so far. */
  lemma {:induction false} MonotonicFacts(c: Contract, order: seq<int>)
    requires c.Monotonic()
    ensures FactsAfter(c, order) ==
      c.initial + set sid, f | sid in order && sid in c.actions && f in c.actions[sid].addEffects :: f
  {
    if order != [] {
      var n := |order| - 1;
      MonotonicFacts(c, order[..n]);
      assert order == order[..n] + [order[n]];
      ElemsAppend(order[..n], order[n]);
      assert forall x :: x in order <==> x in order[..n] || x == order[n];
    }
  }

  lemma MonotonicFactsMono(c: Contract, a: seq<int>, b: seq<int>)
    requires c.Monotonic() && Elems(a) <= Elems(b)
    ensures FactsAfter(c, a) <= FactsAfter(c, b)
  {
    MonotonicFacts(c, a);
    MonotonicFacts(c, b);
    assert forall x :: x in a ==> x in Elems(b);
  }

  /** The greedy dead end: when nothing applies after `order`, no order at all executes every step. */
  lemma DeadEnd(c: Contract, deps: Dependencies, order: seq<int>, other: seq<int>)
    requires c.Monotonic()
    requires Executable(c, deps, other) && Elems(other) == c.actions.Keys
    requires forall sid :: !StepOk(c, deps, order, sid)
    ensures c.actions.Keys <= Elems(order)
  {
    forall missing | missing in c.actions.Keys ensures missing in Elems(order) {
      assert missing in Elems(other);
      var at :| 0 <= at < |other| && other[at] == missing;
      if missing !in Elems(order) {
        var j := FirstMissing(other, Elems(order), at);
        assert StepAt(c, deps, other, j);
        assert Elems(other[..j]) <= Elems(order);
        MonotonicFactsMono(c, other[..j], order);
        assert StepOk(c, deps, order, other[j]);
      }
    }
  }

  lemma {:induction false} FirstMissing(s: seq<int>, have: set<int>, at: nat) returns (j: nat)
    requires at < |s| && s[at] !in have
    ensures j <= at && s[j] !in have && forall i :: 0 <= i < j ==> s[i] in have
  {
    j := 0;
    while s[j] in have
      invariant j <= at && forall i :: 0 <= i < j ==> s[i] in have
      decreases at - j
    {
      j := j + 1;
    }
  }

  lemma StuckIsComplete(c: Contract, deps: Dependencies, prefix: seq<int>, whole: seq<int>)
    requires c.Monotonic() && Solution(c, deps, whole) && Executable(c, deps, prefix)
    requires forall sid :: !StepOk(c, deps, prefix, sid)
    ensures Solution(c, deps, prefix)
  {
    ExecutableDistinct(c, deps, prefix);
    DeadEnd(c, deps, prefix, whole);
    MonotonicFactsMono(c, whole, prefix);
  }

  lemma StepExtends(c: Contract, deps: Dependencies, prefix: seq<int>, sid: int)
    requires Executable(c, deps, prefix) && StepOk(c, deps, prefix, sid)
    ensures Executable(c, deps, prefix + [sid])
    ensures |prefix| < |prefix + [sid]| <= |c.actions.Keys|
  {
    ExecutableExtend(c, deps, prefix, sid);
    ExecutableDistinct(c, deps, prefix + [sid]);
  }

  /** Completeness of the forward pass: in a solvable delete-free contract every executable
      prefix extends to a solution. */
  lemma {:induction false} EveryPrefixExtends(c: Contract, deps: Dependencies, prefix: seq<int>, whole: seq<int>)
    requires c.Monotonic()
    requires Solution(c, deps, whole)
    requires Executable(c, deps, prefix)
    ensures exists full :: Solution(c, deps, full) && prefix <= full
    decreases |c.actions.Keys| - |prefix|
  {
    if forall sid :: !StepOk(c, deps, prefix, sid) {
      StuckIsComplete(c, deps, prefix, whole);
    } else {
      var sid :| StepOk(c, deps, prefix, sid);
      StepExtends(c, deps, prefix, sid);
      EveryPrefixExtends(c, deps, prefix + [sid], whole);
      var full :| Solution(c, deps, full) && prefix + [sid] <= full;
      assert prefix <= full;
    }
  }

  /** `_monotonic_solve`. Whatever the contract, PASS means the order is a solution; on a
      delete-free contract PASS returns the least one and REJECT means there is none. */
  method MonotonicSolve(c: Contract, deps: Dependencies)
    returns (verdict: Verdict, order: seq<int>, explored: nat)
    ensures verdict != Unknown && explored == |order| + 1
    ensures Executable(c, deps, order)
    ensures verdict == Pass ==> Solution(c, deps, order)
    ensures c.Monotonic() && verdict == Pass ==> LeastSolution(c, deps, order)
    ensures c.Monotonic() && verdict == Reject ==> !Solvable(c, deps)
  {
    var facts := c.initial;
    var done: set<int> := {};
    order := [];
    explored := 1;
    while |done| < |c.actions.Keys|
      invariant facts == FactsAfter(c, order) && done == Elems(order)
      invariant Executable(c, deps, order) && LeastPrefix(c, deps, order)
      invariant explored == |order| + 1
      invariant done <= c.actions.Keys
      decreases |c.actions.Keys| - |order|
    {
      var candidates := Candidates(c, deps, facts, done);
      assert forall sid :: sid in candidates <==> StepOk(c, deps, order, sid);
      if candidates == [] {
        if c.Monotonic() {
          NoneAfterDeadEnd(c, deps, order);
        }
        return Reject, order, explored;
      }
      var sid := candidates[0];
      forall x | StepOk(c, deps, order, x) ensures sid <= x {
        assert x in candidates;
      }
      LeastPrefixExtend(c, deps, order, sid);
      ExecutableExtend(c, deps, order, sid);
      ExecutableDistinct(c, deps, order + [sid]);
      facts := Apply(c.actions[sid], facts);
      done := done + {sid};
      order := order + [sid];
      explored := explored + 1;
    }
    SubsetCardinality(done, c.actions.Keys);
    if c.Monotonic() {
      GreedyIsLeast(c, deps, order);
    }
    verdict := if c.goals <= facts then Pass else Reject;
  }

  lemma NoneAfterDeadEnd(c: Contract, deps: Dependencies, order: seq<int>)
    requires c.Monotonic()
    requires |Elems(order)| < |c.actions.Keys|
    requires forall sid :: !StepOk(c, deps, order, sid)
    ensures !Solvable(c, deps)
  {
    forall other | Solution(c, deps, other) ensures false {
      DeadEnd(c, deps, order, other);
      SubsetCardinality(c.actions.Keys, Elems(order));
    }
  }

  lemma GreedyIsLeast(c: Contract, deps: Dependencies, order: seq<int>)
    requires c.Monotonic()
    requires Executable(c, deps, order) && LeastPrefix(c, deps, order) && Elems(order) == c.actions.Keys
    ensures c.goals <= FactsAfter(c, order) ==> LeastSolution(c, deps, order)
    ensures !(c.goals <= FactsAfter(c, order)) ==> !Solvable(c, deps)
  {
    forall other | Solution(c, deps, other)
      ensures c.goals <= FactsAfter(c, order) && LexLe(order, other)
    {
      GreedyBelow(c, deps, order, other);
    }
  }

  lemma GreedyBelow(c: Contract, deps: Dependencies, order: seq<int>, other: seq<int>)
    requires c.Monotonic()
    requires Executable(c, deps, order) && LeastPrefix(c, deps, order) && Elems(order) == c.actions.Keys
    requires Solution(c, deps, other)
    ensures c.goals <= FactsAfter(c, order) && LexLe(order, other)
  {
    MonotonicFactsMono(c, other, order);
    SolutionLength(c, deps, other);
    ExecutableDistinct(c, deps, order);
    assert other[..|order|] == other;
  }
}

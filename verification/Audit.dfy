/** The final audit and the independent checker of what it recorded
    (scripts/audit_check.py, supervisor/orchestrator.py). */
module Audit {
  import opened Sequences
  import opened Plans
  import opened PlanGraph

  /** The fingerprint of the product files. */
  type World = string

  datatype Outcome = Outcome(passed: bool, world: World)

  /** A check run: what is checked, in which workspace, at which time. It may change the workspace. */
  type Oracle = (Check, World, nat) -> Outcome

  datatype CheckResult = CheckResult(check: Check, passed: bool)

  datatype OutputResult = OutputResult(name: string, passed: bool, results: seq<CheckResult>)

  datatype RefResult = RefResult(ref: OutputRef, passed: bool, results: seq<CheckResult>)

  datatype AuditRecord =
    | StepAudit(plan: string, step: int, dependencies: seq<int>, requiredOutputs: seq<RefResult>,
                outputs: seq<OutputResult>, results: seq<CheckResult>, verified: bool)
    | AuditComplete(plan: string, verified: bool, order: seq<int>, contract: Plan, world: World)
    | OtherRecord(plan: string)
    | ArchiveAnchor(plan: string)

  // -------------------------------------------------- look-ups and matching

  function StepById(steps: seq<Step>, id: int): (r: Option<Step>)
    ensures r.Some? ==> r.value in steps && r.value.id == id
    ensures id in StepIds(steps) ==> r.Some?
  {
    if steps == [] then None
    else if steps[0].id == id then Some(steps[0])
    else
      assert id in StepIds(steps) ==> id in StepIds(steps[1..]) by {
        if id in StepIds(steps) {
          var i :| 0 <= i < |steps| && StepIds(steps)[i] == id;
          assert StepIds(steps[1..])[i - 1] == id;
        }
      }
      StepById(steps[1..], id)
  }

  function OutputByName(outputs: seq<Output>, name: string): (r: Option<Output>)
    ensures r.Some? ==> r.value in outputs && r.value.name == name
    ensures (exists o :: o in outputs && o.name == name) ==> r.Some?
  {
    if outputs == [] then None
    else if outputs[0].name == name then Some(outputs[0])
    else
      assert outputs == [outputs[0]] + outputs[1..];
      OutputByName(outputs[1..], name)
  }

  function RefChecks(steps: seq<Step>, ref: OutputRef): Option<seq<Check>> {
    match StepById(steps, ref.step)
    case None => None
    case Some(source) =>
      match OutputByName(source.outputs, ref.name)
      case None => None
      case Some(output) => Some(output.verify)
  }

  predicate ResultAt(norm: Check -> Check, checks: seq<Check>, results: seq<CheckResult>, i: nat)
    requires i < |checks| && i < |results|
  {
    results[i].check == norm(checks[i]) && results[i].passed
  }

  /** `_result_checks_match`. */
  predicate ResultsMatch(norm: Check -> Check, checks: seq<Check>, results: seq<CheckResult>) {
    |results| == |checks| && forall i :: 0 <= i < |checks| ==> ResultAt(norm, checks, results, i)
  }

  predicate OutputsMatch(norm: Check -> Check, outputs: seq<Output>, actual: seq<OutputResult>) {
    |actual| == |outputs| && forall i :: 0 <= i < |outputs| ==> OutputMatch(norm, outputs[i], actual[i])
  }

  predicate OutputMatch(norm: Check -> Check, output: Output, actual: OutputResult) {
    actual.name == output.name && actual.passed && ResultsMatch(norm, output.verify, actual.results)
  }

  predicate RefsMatch(norm: Check -> Check, steps: seq<Step>, refs: seq<OutputRef>, actual: seq<RefResult>) {
    |actual| == |refs| && forall i :: 0 <= i < |refs| ==> RefMatch(norm, steps, refs[i], actual[i])
  }

  predicate RefMatch(norm: Check -> Check, steps: seq<Step>, ref: OutputRef, actual: RefResult) {
    && actual.ref == ref && actual.passed
    && RefChecks(steps, ref).Some? && ResultsMatch(norm, RefChecks(steps, ref).value, actual.results)
  }

  /** `_checks_match`. */
  predicate ChecksMatch(norm: Check -> Check, steps: seq<Step>, s: Step, r: AuditRecord) {
    && r.StepAudit?
    && ResultsMatch(norm, s.verify, r.results)
    && r.dependencies == DeclaredDeps(s)
    && OutputsMatch(norm, s.outputs, r.outputs)
    && RefsMatch(norm, steps, s.requiresOutputs, r.requiredOutputs)
  }

  /** The record vouches for the step: verified, with every declared check passed. */
  predicate Vouches(norm: Check -> Check, steps: seq<Step>, id: int, r: AuditRecord) {
    && r.StepAudit? && r.step == id && r.verified
    && StepById(steps, id).Some? && ChecksMatch(norm, steps, StepById(steps, id).value, r)
  }

  predicate VouchesAt(norm: Check -> Check, steps: seq<Step>, order: seq<int>, records: seq<AuditRecord>, i: nat)
    requires i < |order| && i < |records|
  {
    Vouches(norm, steps, order[i], records[i])
  }

  /** One vouching record per step, in the order of the steps. */
  predicate Credited(norm: Check -> Check, steps: seq<Step>, order: seq<int>, records: seq<AuditRecord>) {
    |records| == |order| && forall i :: 0 <= i < |order| ==> VouchesAt(norm, steps, order, records, i)
  }

  // -------------------------------------------------- what a vouching record says

  /** One passed result for each check, in order. */
  ghost predicate PassedEach(norm: Check -> Check, checks: seq<Check>, results: seq<CheckResult>) {
    |results| == |checks| && forall i :: 0 <= i < |checks| ==> results[i] == CheckResult(norm(checks[i]), true)
  }

  ghost predicate OutputPassed(norm: Check -> Check, output: Output, r: OutputResult) {
    r.name == output.name && r.passed && PassedEach(norm, output.verify, r.results)
  }

  /** The referenced output is declared by its step, and its checks passed. */
  ghost predicate RefPassed(norm: Check -> Check, steps: seq<Step>, ref: OutputRef, r: RefResult) {
    && r.ref == ref && r.passed
    && exists t, o :: StepById(steps, ref.step) == Some(t) && OutputByName(t.outputs, ref.name) == Some(o) && PassedEach(norm, o.verify, r.results)
  }

  /** A record vouches for a step exactly when it is a verified record of the step with its dependencies and a passed result
      for each of its checks, each check of its outputs, and each check of the outputs it requires. */
  lemma VouchesMeans(norm: Check -> Check, steps: seq<Step>, id: int, r: AuditRecord, s: Step)
    requires StepById(steps, id) == Some(s)
    ensures Vouches(norm, steps, id, r) <==>
      && r.StepAudit? && r.step == id && r.verified && r.dependencies == DeclaredDeps(s)
      && PassedEach(norm, s.verify, r.results)
      && |r.outputs| == |s.outputs| && (forall k :: 0 <= k < |s.outputs| ==> OutputPassed(norm, s.outputs[k], r.outputs[k]))
      && |r.requiredOutputs| == |s.requiresOutputs|
      && forall k :: 0 <= k < |s.requiresOutputs| ==> RefPassed(norm, steps, s.requiresOutputs[k], r.requiredOutputs[k])
  {
    hide StepById, OutputByName, ResultsMatch, PassedEach;
    forall checks, results ensures ResultsMatch(norm, checks, results) <==> PassedEach(norm, checks, results) {
      ResultsMean(norm, checks, results);
    }
    if r.StepAudit? && |r.requiredOutputs| == |s.requiresOutputs| {
      forall k | 0 <= k < |s.requiresOutputs|
        ensures RefMatch(norm, steps, s.requiresOutputs[k], r.requiredOutputs[k]) <==>
          RefPassed(norm, steps, s.requiresOutputs[k], r.requiredOutputs[k])
      {
        RefMeans(norm, steps, s.requiresOutputs[k], r.requiredOutputs[k]);
      }
    }
  }

  lemma ResultsMean(norm: Check -> Check, checks: seq<Check>, results: seq<CheckResult>)
    ensures ResultsMatch(norm, checks, results) <==> PassedEach(norm, checks, results)
  {
    if ResultsMatch(norm, checks, results) {
      forall i | 0 <= i < |checks| ensures results[i] == CheckResult(norm(checks[i]), true) { assert ResultAt(norm, checks, results, i); }
    }
  }

  lemma RefMeans(norm: Check -> Check, steps: seq<Step>, ref: OutputRef, r: RefResult)
    ensures RefMatch(norm, steps, ref, r) <==> RefPassed(norm, steps, ref, r)
  {
    hide StepById, OutputByName, ResultsMatch, PassedEach;
    if RefChecks(steps, ref).Some? {
      var t := StepById(steps, ref.step).value;
      var o := OutputByName(t.outputs, ref.name).value;
      ResultsMean(norm, o.verify, r.results);
    }
  }

  // -------------------------------------------------- the order both sides agree on

  lemma LeastTopologicalUnique(ids: seq<int>, g: Graph, a: seq<int>, b: seq<int>)
    requires LeastTopological(ids, g, a) && LeastTopological(ids, g, b)
    ensures a == b
  {
    LexAntisymmetric(Ranks(ids, a), Ranks(ids, b));
    RespectsDistinct(g, a);
    RespectsDistinct(g, b);
    assert Ranks(ids, b)[..|a|] == Ranks(ids, b);
    RanksPrefix(ids, a, b);
    assert b[..|a|] == b;
  }

  ghost predicate IsOrder(steps: seq<Step>, order: seq<int>) {
    GraphAccepted(steps) && LeastTopological(StepIds(steps), GraphOf(steps), order)
  }

  /** `topological_order` of a plan, with the validation it starts from. */
  method PlanOrder(steps: seq<Step>) returns (order: Option<seq<int>>)
    ensures order.Some? ==> IsOrder(steps, order.value)
    ensures order.None? ==> !GraphAccepted(steps) || Cyclic(GraphOf(steps))
    ensures order.None? ==> forall o :: !IsOrder(steps, o)
  {
    if EffectiveDependencies(steps).Err? {
      return None;
    }
    AcceptedGraphOk(steps);
    var r := TopologicalOrder(StepIds(steps), GraphOf(steps));
    if r.Err? {
      forall o ensures !IsOrder(steps, o) {
        if Topological(GraphOf(steps), o) { TopologicalMeansAcyclic(GraphOf(steps), o); }
      }
      return None;
    }
    order := Some(r.value);
  }

  lemma OrderListsSteps(steps: seq<Step>, order: seq<int>, i: nat)
    requires IsOrder(steps, order) && i < |order|
    ensures StepById(steps, order[i]).Some?
    ensures forall d :: d in DeclaredDeps(StepById(steps, order[i]).value) ==> d in order[..i]
  {
    AcceptedGraphOk(steps);
    GraphEntries(steps);
    assert order[i] in Elems(order);
    assert order[i] in Elems(StepIds(steps));
    assert InTurn(GraphOf(steps), order, i);
  }

  lemma OrderCovers(steps: seq<Step>, order: seq<int>, s: Step)
    requires IsOrder(steps, order) && s in steps
    ensures s.id in order
  {
    hide Respects, GraphOf, Ranks;
    GraphEntries(steps);
    assert s.id in Elems(order);
  }

  lemma StepInOrder(steps: seq<Step>, order: seq<int>, s: Step) returns (i: nat)
    requires IsOrder(steps, order) && s in steps
    ensures i < |order| && order[i] == s.id && StepById(steps, s.id) == Some(s)
  {
    hide LeastTopological, Respects, StepById, GraphOf;
    OrderCovers(steps, order, s);
    i :| 0 <= i < |order| && order[i] == s.id;
    OrderListsSteps(steps, order, i);
    var t := StepById(steps, s.id).value;
    var k :| 0 <= k < |steps| && steps[k] == s;
    var j :| 0 <= j < |steps| && steps[j] == t;
    assert StepIds(steps)[k] == StepIds(steps)[j];
  }

  // -------------------------------------------------- what one audit leaves in the log

  /** Step records for the first steps of the order, then guard records; all steps unless a guard stopped the loop. */
  ghost predicate StepPrefix(records: seq<AuditRecord>, order: seq<int>, j: nat) {
    && j <= |order| && j <= |records|
    && (forall i :: 0 <= i < j ==> records[i].StepAudit? && records[i].step == order[i])
    && (forall i :: j <= i < |records| ==> records[i].OtherRecord?)
    && (j < |order| ==> j < |records|)
  }

  /** The records one audit of `plan` appends: one step record after the other in topological order, guard records if
      the workspace changed, one completion marker; and the marker is verified exactly when there are vouching records of
      all steps before it and nothing else, in an unchanged workspace. */
  ghost predicate AuditRun(norm: Check -> Check, plan: Plan, key: string, baseline: World, records: seq<AuditRecord>) {
    records != [] &&
    var n := |records| - 1;
    var marker := records[n];
    && marker.AuditComplete? && marker.contract == plan && IsOrder(plan.steps, marker.order)
    && (forall i :: 0 <= i < |records| ==> records[i].plan == key)
    && (exists j :: StepPrefix(records[..n], marker.order, j))
    && (marker.verified <==> marker.world == baseline && Credited(norm, plan.steps, marker.order, records[..n]))
  }

  // -------------------------------------------------- what an audit does, step by step

  /** The workspace and the time. */
  datatype Now = Now(world: World, clock: nat)

  datatype Ran<T> = Ran(result: T, now: Now)

  function RunChecks(o: Oracle, norm: Check -> Check, checks: seq<Check>, now: Now): Ran<seq<CheckResult>> {
    if checks == [] then Ran([], now)
    else
      var before := RunChecks(o, norm, checks[..|checks| - 1], now);
      var check := norm(checks[|checks| - 1]);
      var outcome := o(check, before.now.world, before.now.clock);
      Ran(before.result + [CheckResult(check, outcome.passed)], Now(outcome.world, before.now.clock + 1))
  }

  predicate AllPass(results: seq<CheckResult>) {
    forall i :: 0 <= i < |results| ==> results[i].passed
  }

  function ChecksOf(steps: seq<Step>, ref: OutputRef): seq<Check> {
    match RefChecks(steps, ref) case Some(checks) => checks case None => []
  }

  function RunRefs(o: Oracle, norm: Check -> Check, steps: seq<Step>, refs: seq<OutputRef>, now: Now): Ran<seq<RefResult>> {
    if refs == [] then Ran([], now)
    else
      var before := RunRefs(o, norm, steps, refs[..|refs| - 1], now);
      var ref := refs[|refs| - 1];
      var checks := RunChecks(o, norm, ChecksOf(steps, ref), before.now);
      Ran(before.result + [RefResult(ref, AllPass(checks.result), checks.result)], checks.now)
  }

  function RunOutputs(o: Oracle, norm: Check -> Check, outputs: seq<Output>, now: Now): Ran<seq<OutputResult>> {
    if outputs == [] then Ran([], now)
    else
      var before := RunOutputs(o, norm, outputs[..|outputs| - 1], now);
      var output := outputs[|outputs| - 1];
      var checks := RunChecks(o, norm, output.verify, before.now);
      Ran(before.result + [OutputResult(output.name, AllPass(checks.result), checks.result)], checks.now)
  }

  predicate RefsPass(results: seq<RefResult>) {
    forall i :: 0 <= i < |results| ==> results[i].passed
  }

  predicate OutputsPass(results: seq<OutputResult>) {
    forall i :: 0 <= i < |results| ==> results[i].passed
  }

  predicate DepsPassed(s: Step, passed: map<int, bool>) {
    forall d :: d in DeclaredDeps(s) ==> d in passed && passed[d]
  }

  const PURITY_FAILURE := CheckResult(Check("audit_purity", None, None, ""), false)

  /** One round: gate, checks, outputs, purity. A blocked step runs none of its own checks. */
  function StepRun(o: Oracle, norm: Check -> Check, steps: seq<Step>, key: string, s: Step,
                   passed: map<int, bool>, baseline: World, now: Now): Ran<AuditRecord> {
    var deps := DeclaredDeps(s);
    if !DepsPassed(s, passed) then Ran(StepAudit(key, s.id, deps, [], [], [], false), now)
    else
      var refs := RunRefs(o, norm, steps, s.requiresOutputs, now);
      if !RefsPass(refs.result) then Ran(StepAudit(key, s.id, deps, refs.result, [], [], false), refs.now)
      else
        var checks := RunChecks(o, norm, s.verify, refs.now);
        var outputs := RunOutputs(o, norm, s.outputs, checks.now);
        var pure := outputs.now.world == refs.now.world && outputs.now.world == baseline;
        var ok := AllPass(checks.result) && OutputsPass(outputs.result) && pure;
        var results := if pure then checks.result else checks.result + [PURITY_FAILURE];
        Ran(StepAudit(key, s.id, deps, refs.result, outputs.result, results, ok), outputs.now)
  }

  datatype Loop = Loop(records: seq<AuditRecord>, passed: map<int, bool>, allOk: bool, now: Now, stopped: bool)

  function LoopStep(o: Oracle, norm: Check -> Check, plan: Plan, key: string, sid: int, baseline: World, l: Loop): Loop {
    if l.stopped then l
    else if l.now.world != baseline || StepById(plan.steps, sid).None?
    then Loop(l.records + [OtherRecord(key)], l.passed, false, l.now, true)
    else
      var r := StepRun(o, norm, plan.steps, key, StepById(plan.steps, sid).value, l.passed, baseline, l.now);
      var ok := r.result.StepAudit? && r.result.verified;
      Loop(l.records + [r.result], l.passed[sid := ok], l.allOk && ok, r.now, false)
  }

  function LoopRun(o: Oracle, norm: Check -> Check, plan: Plan, key: string, order: seq<int>, baseline: World, now: Now): Loop {
    if order == [] then Loop([], map[], true, now, false)
    else LoopStep(o, norm, plan, key, order[|order| - 1], baseline,
                  LoopRun(o, norm, plan, key, order[..|order| - 1], baseline, now))
  }

  datatype Audited = Audited(records: seq<AuditRecord>, allOk: bool, now: Now)

  /** A whole audit: the loop, the final comparison of the workspace, the completion marker. */
  function AuditOutcome(o: Oracle, norm: Check -> Check, plan: Plan, key: string, order: seq<int>, now: Now): Audited {
    var l := LoopRun(o, norm, plan, key, order, now.world, now);
    var changed := l.now.world != now.world;
    var allOk := l.allOk && !changed;
    Audited(l.records + (if changed then [OtherRecord(key)] else [])
            + [AuditComplete(key, allOk, order, plan, l.now.world)], allOk, l.now)
  }

  lemma {:induction false} RunChecksMatch(o: Oracle, norm: Check -> Check, checks: seq<Check>, now: Now)
    ensures var r := RunChecks(o, norm, checks, now).result;
      |r| == |checks| && (ResultsMatch(norm, checks, r) <==> AllPass(r))
  {
    if checks != [] {
      var n := |checks| - 1;
      RunChecksMatch(o, norm, checks[..n], now);
      var before, r := RunChecks(o, norm, checks[..n], now).result, RunChecks(o, norm, checks, now).result;
      if AllPass(r) {
        assert forall i :: 0 <= i < n ==> r[i] == before[i];
        forall i | 0 <= i < |checks| ensures ResultAt(norm, checks, r, i) {
          if i < n { assert ResultAt(norm, checks[..n], before, i); }
        }
      } else {
        var i :| 0 <= i < |r| && !r[i].passed;
        assert !ResultAt(norm, checks, r, i);
      }
    }
  }

  lemma {:induction false} RunRefsMatch(o: Oracle, norm: Check -> Check, steps: seq<Step>, refs: seq<OutputRef>, now: Now)
    requires forall r :: r in refs ==> RefChecks(steps, r).Some?
    ensures var r := RunRefs(o, norm, steps, refs, now).result;
      |r| == |refs| && (RefsPass(r) ==> RefsMatch(norm, steps, refs, r))
  {
    hide RefChecks;
    if refs != [] {
      var n := |refs| - 1;
      RunRefsMatch(o, norm, steps, refs[..n], now);
      var before, r := RunRefs(o, norm, steps, refs[..n], now), RunRefs(o, norm, steps, refs, now).result;
      RunChecksMatch(o, norm, ChecksOf(steps, refs[n]), before.now);
      AppendRefPasses(before.result, r[n]);
      assert refs[n] in refs;
      if RefsPass(r) {
        AppendRefMatch(norm, steps, refs[..n], refs[n], before.result, r[n]);
        assert refs == refs[..n] + [refs[n]];
      }
    }
  }

  lemma AppendRefMatch(norm: Check -> Check, steps: seq<Step>, refs: seq<OutputRef>, ref: OutputRef, actual: seq<RefResult>, r: RefResult)
    requires RefsMatch(norm, steps, refs, actual) && RefMatch(norm, steps, ref, r)
    ensures RefsMatch(norm, steps, refs + [ref], actual + [r])
  {
    hide RefMatch;
  }

  lemma AppendOutputMatch(norm: Check -> Check, outputs: seq<Output>, output: Output, actual: seq<OutputResult>, r: OutputResult)
    requires OutputsMatch(norm, outputs, actual) && OutputMatch(norm, output, r)
    ensures OutputsMatch(norm, outputs + [output], actual + [r])
  {
    hide OutputMatch;
  }

  lemma {:induction false} RunOutputsMatch(o: Oracle, norm: Check -> Check, outputs: seq<Output>, now: Now)
    ensures var r := RunOutputs(o, norm, outputs, now).result;
      |r| == |outputs| && (OutputsPass(r) ==> OutputsMatch(norm, outputs, r))
  {
    if outputs != [] {
      var n := |outputs| - 1;
      RunOutputsMatch(o, norm, outputs[..n], now);
      var before, r := RunOutputs(o, norm, outputs[..n], now), RunOutputs(o, norm, outputs, now).result;
      RunChecksMatch(o, norm, outputs[n].verify, before.now);
      AppendOutputPasses(before.result, r[n]);
      if OutputsPass(r) {
        AppendOutputMatch(norm, outputs[..n], outputs[n], before.result, r[n]);
        assert outputs == outputs[..n] + [outputs[n]];
      }
    }
  }

  /** A round that ends verified leaves a record the independent checker accepts. */
  lemma VerifiedStepVouches(o: Oracle, norm: Check -> Check, steps: seq<Step>, key: string, s: Step,
                            passed: map<int, bool>, baseline: World, now: Now)
    requires StepById(steps, s.id) == Some(s)
    requires forall r :: r in s.requiresOutputs ==> RefChecks(steps, r).Some?
    ensures var r := StepRun(o, norm, steps, key, s, passed, baseline, now);
      && r.result.StepAudit? && r.result.plan == key && r.result.step == s.id
      && (r.result.verified ==> Vouches(norm, steps, s.id, r.result) && r.now.world == baseline)
      && (r.result.verified ==> forall d :: d in DeclaredDeps(s) ==> d in passed && passed[d])
  {
    hide RefChecks, StepById, RunChecks, RunRefs, RunOutputs;
    var refs := RunRefs(o, norm, steps, s.requiresOutputs, now);
    RunRefsMatch(o, norm, steps, s.requiresOutputs, now);
    RunChecksMatch(o, norm, s.verify, refs.now);
    RunOutputsMatch(o, norm, s.outputs, RunChecks(o, norm, s.verify, refs.now).now);
  }

  lemma {:induction false} LoopCredits(o: Oracle, norm: Check -> Check, plan: Plan, key: string, order: seq<int>, k: nat, baseline: World, now: Now)
    requires LinksValid(plan.steps) && IsOrder(plan.steps, order) && k <= |order|
    ensures var l := LoopRun(o, norm, plan, key, order[..k], baseline, now);
      && (forall i :: 0 <= i < |l.records| ==> l.records[i].plan == key && !l.records[i].AuditComplete?)
      && (l.allOk ==> !l.stopped && Credited(norm, plan.steps, order[..k], l.records))
  {
    hide LinksValid, IsOrder, StepById, RefChecks, StepRun, Vouches;
    if k > 0 {
      LoopCredits(o, norm, plan, key, order, k - 1, baseline, now);
      assert order[..k][..k - 1] == order[..k - 1];
      var before := LoopRun(o, norm, plan, key, order[..k - 1], baseline, now);
      var l := LoopRun(o, norm, plan, key, order[..k], baseline, now);
      OrderListsSteps(plan.steps, order, k - 1);
      var s := StepById(plan.steps, order[k - 1]).value;
      RefsResolve(plan.steps, s);
      VerifiedStepVouches(o, norm, plan.steps, key, s, before.passed, baseline, before.now);
      LoopAppends(o, norm, plan, key, order[k - 1], baseline, before);
      if l.allOk {
        forall i | 0 <= i < k ensures VouchesAt(norm, plan.steps, order[..k], l.records, i) {
          if i < k - 1 { assert VouchesAt(norm, plan.steps, order[..k - 1], before.records, i); }
        }
      }
    }
  }

  lemma LoopAppends(o: Oracle, norm: Check -> Check, plan: Plan, key: string, sid: int, baseline: World, before: Loop)
    requires before.allOk ==> !before.stopped
    ensures var l := LoopStep(o, norm, plan, key, sid, baseline, before);
      && before.records <= l.records && |l.records| <= |before.records| + 1
      && (l.allOk ==> !l.stopped && before.allOk && |l.records| == |before.records| + 1 && StepById(plan.steps, sid).Some?)
      && (l.allOk ==> l.records[|before.records|].StepAudit? && l.records[|before.records|].verified)
      && (StepById(plan.steps, sid).Some? && |l.records| > |before.records| ==>
            l.records[|before.records|] == OtherRecord(key)
            || l.records[|before.records|] == StepRun(o, norm, plan.steps, key, StepById(plan.steps, sid).value, before.passed, baseline, before.now).result)
  {
    hide StepRun, StepById;
  }

  lemma {:induction false} LoopShape(o: Oracle, norm: Check -> Check, plan: Plan, key: string, order: seq<int>, k: nat, baseline: World, now: Now)
    requires LinksValid(plan.steps) && IsOrder(plan.steps, order) && k <= |order|
    ensures var l := LoopRun(o, norm, plan, key, order[..k], baseline, now);
      if l.stopped then exists j :: 0 <= j < k && |l.records| == j + 1 && StepPrefix(l.records, order, j)
      else |l.records| == k && forall i :: 0 <= i < k ==> l.records[i].StepAudit? && l.records[i].step == order[i]
  {
    hide LinksValid, IsOrder, StepById, RefChecks, StepRun;
    if k > 0 {
      LoopShape(o, norm, plan, key, order, k - 1, baseline, now);
      assert order[..k][..k - 1] == order[..k - 1];
      var before := LoopRun(o, norm, plan, key, order[..k - 1], baseline, now);
      OrderListsSteps(plan.steps, order, k - 1);
      var s := StepById(plan.steps, order[k - 1]).value;
      RefsResolve(plan.steps, s);
      VerifiedStepVouches(o, norm, plan.steps, key, s, before.passed, baseline, before.now);
      var l := LoopRun(o, norm, plan, key, order[..k], baseline, now);
      if !before.stopped && l.stopped {
        assert l.records == before.records + [OtherRecord(key)];
        assert StepPrefix(l.records, order, k - 1);
      }
    }
  }

  lemma LoopPrefix(o: Oracle, norm: Check -> Check, plan: Plan, key: string, order: seq<int>, baseline: World, now: Now, guard: seq<AuditRecord>)
    requires LinksValid(plan.steps) && IsOrder(plan.steps, order) && forall r :: r in guard ==> r.OtherRecord?
    ensures exists j :: StepPrefix(LoopRun(o, norm, plan, key, order, baseline, now).records + guard, order, j)
  {
    hide LinksValid, IsOrder, LoopRun;
    assert order[..|order|] == order;
    LoopShape(o, norm, plan, key, order, |order|, baseline, now);
    var l := LoopRun(o, norm, plan, key, order, baseline, now);
    var all := l.records + guard;
    assert forall i :: |l.records| <= i < |all| ==> all[i] == guard[i - |l.records|] && all[i] in guard;
    if l.stopped {
      var j :| 0 <= j < |order| && |l.records| == j + 1 && StepPrefix(l.records, order, j);
      assert StepPrefix(all, order, j);
    } else {
      assert StepPrefix(all, order, |order|);
    }
  }

  predicate AllVerified(records: seq<AuditRecord>) {
    forall i :: 0 <= i < |records| ==> records[i].StepAudit? && records[i].verified
  }

  lemma VerifiedAppend(records: seq<AuditRecord>, r: AuditRecord)
    ensures AllVerified(records + [r]) <==> AllVerified(records) && r.StepAudit? && r.verified
  {
    var more := records + [r];
    assert more[|records|] == r && forall i :: 0 <= i < |records| ==> more[i] == records[i];
  }

  /** The loop's verdict is that it was not stopped and every round was verified. */
  lemma {:induction false} LoopVerdict(o: Oracle, norm: Check -> Check, plan: Plan, key: string, order: seq<int>, baseline: World, now: Now)
    ensures var l := LoopRun(o, norm, plan, key, order, baseline, now); l.allOk <==> !l.stopped && AllVerified(l.records)
    decreases |order|
  {
    hide StepById, StepRun, AllVerified;
    if order == [] {
      assert AllVerified([]) by { NothingUnverified(); }
    } else {
      var n := |order| - 1;
      LoopVerdict(o, norm, plan, key, order[..n], baseline, now);
      var before := LoopRun(o, norm, plan, key, order[..n], baseline, now);
      if !before.stopped && before.now.world == baseline && StepById(plan.steps, order[n]).Some? {
        VerifiedAppend(before.records, StepRun(o, norm, plan.steps, key, StepById(plan.steps, order[n]).value, before.passed, baseline, before.now).result);
      }
    }
  }

  lemma NothingUnverified()
    ensures AllVerified([])
  {
  }

  /** The loop was not stopped if there is one step record for each step. */
  lemma CreditedVerdict(o: Oracle, norm: Check -> Check, plan: Plan, key: string, order: seq<int>, baseline: World, now: Now)
    requires LinksValid(plan.steps) && IsOrder(plan.steps, order)
    ensures var l := LoopRun(o, norm, plan, key, order, baseline, now); Credited(norm, plan.steps, order, l.records) ==> l.allOk
  {
    hide LinksValid, IsOrder, LoopRun, ChecksMatch;
    assert order[..|order|] == order;
    LoopShape(o, norm, plan, key, order, |order|, baseline, now);
    LoopVerdict(o, norm, plan, key, order, baseline, now);
    var l := LoopRun(o, norm, plan, key, order, baseline, now);
    if l.stopped {
      var j :| 0 <= j < |order| && |l.records| == j + 1 && StepPrefix(l.records, order, j);
      assert !VouchesAt(norm, plan.steps, order, l.records, j);
    } else if Credited(norm, plan.steps, order, l.records) {
      forall i | 0 <= i < |l.records| ensures l.records[i].StepAudit? && l.records[i].verified {
        assert VouchesAt(norm, plan.steps, order, l.records, i);
      }
    }
  }

  /** Every audit of a valid plan leaves an audit run whose verified marker is its verdict. */
  lemma OutcomeIsAuditRun(o: Oracle, norm: Check -> Check, plan: Plan, key: string, order: seq<int>, now: Now)
    requires LinksValid(plan.steps) && IsOrder(plan.steps, order)
    ensures var a := AuditOutcome(o, norm, plan, key, order, now);
      AuditRun(norm, plan, key, now.world, a.records) && a.records[|a.records| - 1].verified == a.allOk
    ensures AuditOutcome(o, norm, plan, key, order, now).allOk ==> AuditOutcome(o, norm, plan, key, order, now).now.world == now.world
  {
    hide LinksValid, IsOrder, Credited, LoopRun;
    assert order[..|order|] == order;
    LoopCredits(o, norm, plan, key, order, |order|, now.world, now);
    var l := LoopRun(o, norm, plan, key, order, now.world, now);
    var a := AuditOutcome(o, norm, plan, key, order, now);
    var guard := if l.now.world != now.world then [OtherRecord(key)] else [];
    LoopPrefix(o, norm, plan, key, order, now.world, now, guard);
    assert a.records[..|a.records| - 1] == l.records + guard;
    CreditedVerdict(o, norm, plan, key, order, now.world, now);
    if guard == [] { assert l.records + guard == l.records; }
  }

  lemma OutcomeOfLoop(o: Oracle, norm: Check -> Check, plan: Plan, key: string, order: seq<int>, now: Now)
    ensures var l := LoopRun(o, norm, plan, key, order, now.world, now);
      var allOk := l.allOk && l.now.world == now.world;
      AuditOutcome(o, norm, plan, key, order, now)
        == Audited(l.records + (if l.now.world != now.world then [OtherRecord(key)] else [])
                   + [AuditComplete(key, allOk, order, plan, l.now.world)], allOk, l.now)
  {
  }

  lemma AppendPasses(results: seq<CheckResult>, r: CheckResult)
    ensures AllPass(results + [r]) <==> AllPass(results) && r.passed
  {
    var more := results + [r];
    assert more[|results|] == r && forall i :: 0 <= i < |results| ==> more[i] == results[i];
  }

  lemma AppendRefPasses(results: seq<RefResult>, r: RefResult)
    ensures RefsPass(results + [r]) <==> RefsPass(results) && r.passed
  {
    var more := results + [r];
    assert more[|results|] == r && forall i :: 0 <= i < |results| ==> more[i] == results[i];
  }

  lemma AppendOutputPasses(results: seq<OutputResult>, r: OutputResult)
    ensures OutputsPass(results + [r]) <==> OutputsPass(results) && r.passed
  {
    var more := results + [r];
    assert more[|results|] == r && forall i :: 0 <= i < |results| ==> more[i] == results[i];
  }

  // -------------------------------------------------- when an audit succeeds

  /** The checks, run one after the other from the given moment, all pass and take the workspace through `worlds`. */
  ghost predicate Observed(o: Oracle, norm: Check -> Check, checks: seq<Check>, clock: nat, worlds: seq<World>) {
    |worlds| == |checks| + 1 && forall i :: 0 <= i < |checks| ==> o(norm(checks[i]), worlds[i], clock + i) == Outcome(true, worlds[i + 1])
  }

  ghost predicate PassesAndRestores(o: Oracle, norm: Check -> Check, checks: seq<Check>, world: World, clock: nat) {
    exists worlds :: Observed(o, norm, checks, clock, worlds) && worlds[0] == world && worlds[|checks|] == world
  }

  function RefsChecks(steps: seq<Step>, refs: seq<OutputRef>): seq<Check> {
    if refs == [] then [] else RefsChecks(steps, refs[..|refs| - 1]) + ChecksOf(steps, refs[|refs| - 1])
  }

  function OutputsChecks(outputs: seq<Output>): seq<Check> {
    if outputs == [] then [] else OutputsChecks(outputs[..|outputs| - 1]) + outputs[|outputs| - 1].verify
  }

  /** For each step in order: the checks of the outputs it requires, then its own and those of its outputs. */
  function Groups(steps: seq<Step>, order: seq<int>): seq<seq<Check>> {
    if order == [] then []
    else Groups(steps, order[..|order| - 1]) + match StepById(steps, order[|order| - 1])
      case None => []
      case Some(s) => [RefsChecks(steps, s.requiresOutputs), s.verify + OutputsChecks(s.outputs)]
  }

  function Total(groups: seq<seq<Check>>): nat {
    if groups == [] then 0 else Total(groups[..|groups| - 1]) + |groups[|groups| - 1]|
  }

  /** Every check of every group passes in its turn, and each group leaves the workspace as it was. */
  ghost predicate CleanRun(o: Oracle, norm: Check -> Check, groups: seq<seq<Check>>, world: World, clock: nat) {
    groups != [] ==>
      var before := groups[..|groups| - 1];
      && CleanRun(o, norm, before, world, clock)
      && PassesAndRestores(o, norm, groups[|groups| - 1], world, clock + Total(before))
  }

  lemma {:induction false} RunChecksTrace(o: Oracle, norm: Check -> Check, checks: seq<Check>, now: Now) returns (worlds: seq<World>)
    ensures var r := RunChecks(o, norm, checks, now);
      && |worlds| == |checks| + 1 && |r.result| == |checks| && worlds[0] == now.world
      && r.now == Now(worlds[|checks|], now.clock + |checks|)
      && forall i :: 0 <= i < |checks| ==> o(norm(checks[i]), worlds[i], now.clock + i) == Outcome(r.result[i].passed, worlds[i + 1])
  {
    if checks == [] {
      worlds := [now.world];
    } else {
      var n := |checks| - 1;
      worlds := RunChecksTrace(o, norm, checks[..n], now);
      worlds := worlds + [RunChecks(o, norm, checks, now).now.world];
    }
  }

  lemma {:induction false} TraceUnique(o: Oracle, norm: Check -> Check, checks: seq<Check>, clock: nat, a: seq<World>, b: seq<World>, k: nat)
    requires |a| == |b| == |checks| + 1 && a[0] == b[0] && k <= |checks|
    requires Observed(o, norm, checks, clock, a)
    requires forall i :: 0 <= i < |checks| ==> o(norm(checks[i]), b[i], clock + i).world == b[i + 1]
    ensures a[k] == b[k]
  {
    if k > 0 { TraceUnique(o, norm, checks, clock, a, b, k - 1); }
  }

  /** Running the checks one by one is what `Observed` says. */
  lemma RunChecksObserved(o: Oracle, norm: Check -> Check, checks: seq<Check>, now: Now)
    ensures var r := RunChecks(o, norm, checks, now);
      && r.now.clock == now.clock + |checks|
      && (AllPass(r.result) && r.now.world == now.world <==> PassesAndRestores(o, norm, checks, now.world, now.clock))
  {
    hide RunChecks;
    var r := RunChecks(o, norm, checks, now);
    var worlds := RunChecksTrace(o, norm, checks, now);
    if AllPass(r.result) { assert Observed(o, norm, checks, now.clock, worlds); }
    if PassesAndRestores(o, norm, checks, now.world, now.clock) {
      var seen :| Observed(o, norm, checks, now.clock, seen) && seen[0] == now.world && seen[|checks|] == now.world;
      forall i | 0 <= i < |checks| ensures r.result[i].passed {
        TraceUnique(o, norm, checks, now.clock, seen, worlds, i);
        assert o(norm(checks[i]), seen[i], now.clock + i) == Outcome(true, seen[i + 1]);
        assert o(norm(checks[i]), worlds[i], now.clock + i) == Outcome(r.result[i].passed, worlds[i + 1]);
      }
      TraceUnique(o, norm, checks, now.clock, seen, worlds, |checks|);
    }
  }

  lemma {:induction false} RunChecksConcat(o: Oracle, norm: Check -> Check, a: seq<Check>, b: seq<Check>, now: Now)
    ensures var r := RunChecks(o, norm, a, now);
      var s := RunChecks(o, norm, b, r.now);
      RunChecks(o, norm, a + b, now) == Ran(r.result + s.result, s.now)
    decreases |b|
  {
    if b == [] {
      assert a + b == a;
      var r := RunChecks(o, norm, a, now);
      NothingRun(o, norm, r.now);
      assert r.result + [] == r.result;
    } else {
      var n := |b| - 1;
      assert (a + b)[..|a + b| - 1] == a + b[..n] && (a + b)[|a + b| - 1] == b[n];
      RunChecksConcat(o, norm, a, b[..n], now);
      var r := RunChecks(o, norm, a, now);
      var before := RunChecks(o, norm, b[..n], r.now);
      var last := CheckResult(norm(b[n]), o(norm(b[n]), before.now.world, before.now.clock).passed);
      assert RunChecks(o, norm, b, r.now).result == before.result + [last];
      assert r.result + (before.result + [last]) == (r.result + before.result) + [last];
    }
  }

  lemma AllPassConcat(a: seq<CheckResult>, b: seq<CheckResult>)
    ensures AllPass(a + b) <==> AllPass(a) && AllPass(b)
  {
    var c := a + b;
    assert forall i :: 0 <= i < |a| ==> c[i] == a[i];
    assert forall i :: 0 <= i < |b| ==> c[|a| + i] == b[i];
  }

  lemma {:induction false} RunRefsFlat(o: Oracle, norm: Check -> Check, steps: seq<Step>, refs: seq<OutputRef>, now: Now)
    ensures var r := RunRefs(o, norm, steps, refs, now);
      var flat := RunChecks(o, norm, RefsChecks(steps, refs), now);
      r.now == flat.now && (RefsPass(r.result) <==> AllPass(flat.result))
  {
    hide RunChecks, ChecksOf, AllPass;
    if refs == [] {
      NothingRun(o, norm, now);
    } else {
      var n := |refs| - 1;
      RunRefsFlat(o, norm, steps, refs[..n], now);
      var before := RunRefs(o, norm, steps, refs[..n], now);
      var checks := RunChecks(o, norm, ChecksOf(steps, refs[n]), before.now);
      RunChecksConcat(o, norm, RefsChecks(steps, refs[..n]), ChecksOf(steps, refs[n]), now);
      AppendRefPasses(before.result, RefResult(refs[n], AllPass(checks.result), checks.result));
      AllPassConcat(RunChecks(o, norm, RefsChecks(steps, refs[..n]), now).result, checks.result);
    }
  }

  lemma {:induction false} RunOutputsFlat(o: Oracle, norm: Check -> Check, outputs: seq<Output>, now: Now)
    ensures var r := RunOutputs(o, norm, outputs, now);
      var flat := RunChecks(o, norm, OutputsChecks(outputs), now);
      r.now == flat.now && (OutputsPass(r.result) <==> AllPass(flat.result))
  {
    hide RunChecks, AllPass;
    if outputs == [] {
      NothingRun(o, norm, now);
    } else {
      var n := |outputs| - 1;
      RunOutputsFlat(o, norm, outputs[..n], now);
      var before := RunOutputs(o, norm, outputs[..n], now);
      var checks := RunChecks(o, norm, outputs[n].verify, before.now);
      RunChecksConcat(o, norm, OutputsChecks(outputs[..n]), outputs[n].verify, now);
      AppendOutputPasses(before.result, OutputResult(outputs[n].name, AllPass(checks.result), checks.result));
      AllPassConcat(RunChecks(o, norm, OutputsChecks(outputs[..n]), now).result, checks.result);
    }
  }

  lemma NothingRun(o: Oracle, norm: Check -> Check, now: Now)
    ensures RunChecks(o, norm, [], now) == Ran([], now) && AllPass([])
  {
  }

  /** A round that its dependencies admit, in the workspace the audit began with. */
  lemma StepVerdict(o: Oracle, norm: Check -> Check, steps: seq<Step>, key: string, s: Step, passed: map<int, bool>, now: Now)
    requires DepsPassed(s, passed)
    ensures var r := StepRun(o, norm, steps, key, s, passed, now.world, now);
      var refs, own := RefsChecks(steps, s.requiresOutputs), s.verify + OutputsChecks(s.outputs);
      && r.result.StepAudit?
      && (r.result.verified <==>
            && PassesAndRestores(o, norm, refs, now.world, now.clock)
            && PassesAndRestores(o, norm, own, now.world, now.clock + |refs|))
      && (r.result.verified ==> r.now == Now(now.world, now.clock + |refs| + |own|))
  {
    hide RunChecks, RunRefs, RunOutputs, AllPass, PassesAndRestores;
    var refs, own := RefsChecks(steps, s.requiresOutputs), s.verify + OutputsChecks(s.outputs);
    var gate := RunRefs(o, norm, steps, s.requiresOutputs, now);
    RunRefsFlat(o, norm, steps, s.requiresOutputs, now);
    RunChecksObserved(o, norm, refs, now);
    var checks := RunChecks(o, norm, s.verify, gate.now);
    RunOutputsFlat(o, norm, s.outputs, checks.now);
    RunChecksConcat(o, norm, s.verify, OutputsChecks(s.outputs), gate.now);
    AllPassConcat(checks.result, RunChecks(o, norm, OutputsChecks(s.outputs), checks.now).result);
    RunChecksObserved(o, norm, own, gate.now);
  }

  /** The loop over a prefix of the order: its verdict is a clean run of the prefix's checks. */
  lemma {:induction false} LoopIsCleanRun(o: Oracle, norm: Check -> Check, plan: Plan, key: string, order: seq<int>, k: nat, now: Now)
    requires IsOrder(plan.steps, order) && k <= |order|
    ensures var l, groups := LoopRun(o, norm, plan, key, order[..k], now.world, now), Groups(plan.steps, order[..k]);
      && (l.allOk <==> CleanRun(o, norm, groups, now.world, now.clock))
      && (l.allOk ==> !l.stopped && l.now == Now(now.world, now.clock + Total(groups)))
      && (l.allOk ==> forall i :: 0 <= i < k ==> order[i] in l.passed && l.passed[order[i]])
  {
    hide IsOrder, StepById, StepRun, PassesAndRestores, RefsChecks, OutputsChecks;
    if k > 0 {
      LoopIsCleanRun(o, norm, plan, key, order, k - 1, now);
      assert order[..k][..k - 1] == order[..k - 1];
      var before := LoopRun(o, norm, plan, key, order[..k - 1], now.world, now);
      OrderListsSteps(plan.steps, order, k - 1);
      var s := StepById(plan.steps, order[k - 1]).value;
      var groups := Groups(plan.steps, order[..k - 1]);
      TwoMoreGroups(o, norm, groups, RefsChecks(plan.steps, s.requiresOutputs), s.verify + OutputsChecks(s.outputs), now.world, now.clock);
      if before.allOk {
        assert DepsPassed(s, before.passed);
        StepVerdict(o, norm, plan.steps, key, s, before.passed, before.now);
      }
    }
  }

  lemma TwoMoreGroups(o: Oracle, norm: Check -> Check, groups: seq<seq<Check>>, a: seq<Check>, b: seq<Check>, world: World, clock: nat)
    ensures CleanRun(o, norm, groups + [a, b], world, clock) <==>
      && CleanRun(o, norm, groups, world, clock)
      && PassesAndRestores(o, norm, a, world, clock + Total(groups))
      && PassesAndRestores(o, norm, b, world, clock + Total(groups) + |a|)
    ensures Total(groups + [a, b]) == Total(groups) + |a| + |b|
  {
    hide PassesAndRestores;
    var one := groups + [a];
    assert (groups + [a, b])[..|groups| + 1] == one && one[..|groups|] == groups;
  }

  /** An audit succeeds exactly when its checks, run in order, all pass and leave the workspace alone. */
  lemma AuditSucceedsExactly(o: Oracle, norm: Check -> Check, plan: Plan, key: string, order: seq<int>, now: Now)
    requires IsOrder(plan.steps, order)
    ensures AuditOutcome(o, norm, plan, key, order, now).allOk <==> CleanRun(o, norm, Groups(plan.steps, order), now.world, now.clock)
  {
    hide IsOrder, LoopRun, Groups;
    LoopIsCleanRun(o, norm, plan, key, order, |order|, now);
    assert order[..|order|] == order;
    OutcomeOfLoop(o, norm, plan, key, order, now);
  }

  // -------------------------------------------------- two readings of it

  /** A check that a step or one of its outputs declares. */
  ghost predicate Declared(steps: seq<Step>, c: Check) {
    exists s :: s in steps && (c in s.verify || exists output :: output in s.outputs && c in output.verify)
  }

  /** Whenever it runs in this workspace it passes and leaves the workspace alone. */
  ghost predicate Benign(o: Oracle, norm: Check -> Check, c: Check, world: World) {
    forall clock: nat :: o(norm(c), world, clock) == Outcome(true, world)
  }

  ghost predicate NeverPasses(o: Oracle, norm: Check -> Check, c: Check) {
    forall world, clock: nat :: !o(norm(c), world, clock).passed
  }

  lemma {:induction false} OutputsChecksAre(outputs: seq<Output>)
    ensures forall c :: c in OutputsChecks(outputs) <==> exists output :: output in outputs && c in output.verify
  {
    if outputs != [] {
      var n := |outputs| - 1;
      OutputsChecksAre(outputs[..n]);
      assert outputs == outputs[..n] + [outputs[n]];
    }
  }

  lemma {:induction false} RefsChecksDeclared(steps: seq<Step>, refs: seq<OutputRef>)
    ensures forall c :: c in RefsChecks(steps, refs) ==> Declared(steps, c)
  {
    if refs != [] { RefsChecksDeclared(steps, refs[..|refs| - 1]); }
  }

  lemma {:induction false} GroupsDeclared(steps: seq<Step>, order: seq<int>)
    ensures forall g, c :: g in Groups(steps, order) && c in g ==> Declared(steps, c)
    ensures forall id :: id in order && StepById(steps, id).Some? ==>
      var s := StepById(steps, id).value; s.verify + OutputsChecks(s.outputs) in Groups(steps, order)
  {
    hide RefsChecks, OutputsChecks, StepById;
    if order != [] {
      var n := |order| - 1;
      GroupsDeclared(steps, order[..n]);
      assert order == order[..n] + [order[n]];
      if StepById(steps, order[n]).Some? {
        var s := StepById(steps, order[n]).value;
        RefsChecksDeclared(steps, s.requiresOutputs);
        OutputsChecksAre(s.outputs);
        FoundStep(steps, order[n]);
      }
    }
  }

  lemma FoundStep(steps: seq<Step>, id: int)
    ensures StepById(steps, id).Some? ==> StepById(steps, id).value in steps
  {
  }

  lemma {:induction false} BenignRun(o: Oracle, norm: Check -> Check, groups: seq<seq<Check>>, world: World, clock: nat)
    requires forall g, c :: g in groups && c in g ==> Benign(o, norm, c, world)
    ensures CleanRun(o, norm, groups, world, clock)
  {
    if groups != [] {
      var n := |groups| - 1;
      BenignRun(o, norm, groups[..n], world, clock);
      var worlds := seq(|groups[n]| + 1, i => world);
      assert forall i :: 0 <= i < |groups[n]| ==> groups[n][i] in groups[n];
      assert Observed(o, norm, groups[n], clock + Total(groups[..n]), worlds);
    }
  }

  lemma {:induction false} FailingRun(o: Oracle, norm: Check -> Check, groups: seq<seq<Check>>, world: World, clock: nat, g: seq<Check>, c: Check)
    requires g in groups && c in g && NeverPasses(o, norm, c)
    ensures !CleanRun(o, norm, groups, world, clock)
  {
    var n := |groups| - 1;
    if g in groups[..n] {
      FailingRun(o, norm, groups[..n], world, clock, g, c);
    } else {
      assert groups == groups[..n] + [groups[n]];
      NotPassing(o, norm, g, c, world, clock + Total(groups[..n]));
    }
  }

  lemma ObservedPasses(o: Oracle, norm: Check -> Check, checks: seq<Check>, clock: nat, i: nat)
    requires i < |checks|
    ensures forall worlds :: Observed(o, norm, checks, clock, worlds) ==> o(norm(checks[i]), worlds[i], clock + i).passed
  {
    forall worlds | Observed(o, norm, checks, clock, worlds) ensures o(norm(checks[i]), worlds[i], clock + i).passed {
      assert o(norm(checks[i]), worlds[i], clock + i) == Outcome(true, worlds[i + 1]);
    }
  }

  lemma NotPassing(o: Oracle, norm: Check -> Check, checks: seq<Check>, c: Check, world: World, clock: nat)
    requires c in checks && NeverPasses(o, norm, c)
    ensures !PassesAndRestores(o, norm, checks, world, clock)
  {
    var i :| 0 <= i < |checks| && checks[i] == c;
    ObservedPasses(o, norm, checks, clock, i);
  }

  /** If every declared check is benign the audit succeeds; if a declared check never passes it fails. */
  lemma AuditVerdicts(o: Oracle, norm: Check -> Check, plan: Plan, key: string, order: seq<int>, now: Now)
    requires IsOrder(plan.steps, order)
    ensures (forall c :: Declared(plan.steps, c) ==> Benign(o, norm, c, now.world)) ==> AuditOutcome(o, norm, plan, key, order, now).allOk
    ensures (exists c :: Declared(plan.steps, c) && NeverPasses(o, norm, c)) ==> !AuditOutcome(o, norm, plan, key, order, now).allOk
  {
    hide IsOrder, Groups, AuditOutcome, Benign, NeverPasses, CleanRun, StepById, OutputsChecks;
    AuditSucceedsExactly(o, norm, plan, key, order, now);
    var groups := Groups(plan.steps, order);
    GroupsDeclared(plan.steps, order);
    if forall c :: Declared(plan.steps, c) ==> Benign(o, norm, c, now.world) {
      BenignRun(o, norm, groups, now.world, now.clock);
    }
    if c :| Declared(plan.steps, c) && NeverPasses(o, norm, c) {
      var s :| s in plan.steps && (c in s.verify || exists output :: output in s.outputs && c in output.verify);
      var i := StepInOrder(plan.steps, order, s);
      OutputsChecksAre(s.outputs);
      assert order[i] in order;
      FailingRun(o, norm, groups, now.world, now.clock, s.verify + OutputsChecks(s.outputs), c);
    }
  }

  // -------------------------------------------------- the log, with the anchors that rotation puts into it

  function Entries(log: seq<AuditRecord>): seq<AuditRecord> {
    if log == [] then []
    else Entries(log[..|log| - 1]) + if log[|log| - 1].ArchiveAnchor? then [] else [log[|log| - 1]]
  }

  lemma {:induction false} EntriesConcat(a: seq<AuditRecord>, b: seq<AuditRecord>)
    ensures Entries(a + b) == Entries(a) + Entries(b)
    decreases |b|
  {
    if b == [] {
      assert a + b == a;
    } else {
      assert (a + b)[..|a + b| - 1] == a + b[..|b| - 1];
      EntriesConcat(a, b[..|b| - 1]);
    }
  }

  /** `after` is `before` with the given records appended, and archive anchors wherever the log rotated. */
  ghost predicate Extends(before: seq<AuditRecord>, after: seq<AuditRecord>, records: seq<AuditRecord>) {
    before <= after && Entries(after[|before|..]) == records
  }

  lemma ExtendsTwice(a: seq<AuditRecord>, b: seq<AuditRecord>, c: seq<AuditRecord>, r: seq<AuditRecord>, s: seq<AuditRecord>)
    requires Extends(a, b, r) && Extends(b, c, s)
    ensures Extends(a, c, r + s)
  {
    assert c[|a|..] == b[|a|..] + c[|b|..];
    EntriesConcat(b[|a|..], c[|b|..]);
  }

  lemma ExtendsNone(log: seq<AuditRecord>)
    ensures Extends(log, log, [])
  {
  }

  class Auditor {
    const oracle: Oracle
    const norm: Check -> Check
    /** Whether the log has reached the rotation limit, by the number of records written so far. */
    const full: nat -> bool
    var world: World
    var clock: nat
    var log: seq<AuditRecord>

    constructor (oracle: Oracle, norm: Check -> Check, full: nat -> bool, world: World)
      ensures this.oracle == oracle && this.norm == norm && this.full == full && this.world == world && log == []
    {
      this.oracle, this.norm, this.full, this.world, clock, log := oracle, norm, full, world, 0, [];
    }

    /** `append_evidence`: a full log first gets its archive anchor. */
    method Append(rec: AuditRecord)
      requires !rec.ArchiveAnchor?
      modifies this`log
      ensures Extends(old(log), log, [rec]) && log[|log| - 1] == rec
    {
      ghost var before := log;
      if log != [] && full(|log|) {
        log := log + [ArchiveAnchor("default")];
      }
      log := log + [rec];
      ghost var added := log[|before|..];
      assert added[..|added| - 1] == [] || added[..|added| - 1] == [ArchiveAnchor("default")];
      assert [ArchiveAnchor("default")][..0] == [];
      assert Entries([ArchiveAnchor("default")]) == [];
    }

    ghost function Moment(): Now
      reads this
    {
      Now(world, clock)
    }

    /** `_run_check_list`. */
    method RunCheckList(checks: seq<Check>) returns (ok: bool, results: seq<CheckResult>)
      modifies this`world, this`clock
      ensures Ran(results, Moment()) == RunChecks(oracle, norm, checks, old(Moment()))
      ensures ok <==> AllPass(results)
    {
      ok, results := true, [];
      for k := 0 to |checks|
        invariant Ran(results, Moment()) == RunChecks(oracle, norm, checks[..k], old(Moment()))
        invariant ok <==> AllPass(results)
      {
        assert checks[..k + 1][..k] == checks[..k];
        var check := norm(checks[k]);
        var outcome := oracle(check, world, clock);
        world, clock := outcome.world, clock + 1;
        ok := ok && outcome.passed;
        AppendPasses(results, CheckResult(check, outcome.passed));
        results := results + [CheckResult(check, outcome.passed)];
      }
      assert checks[..|checks|] == checks;
    }

    /** The required-output half of `_prerequisite_gate`. */
    method CheckRequired(steps: seq<Step>, refs: seq<OutputRef>) returns (ok: bool, required: seq<RefResult>)
      modifies this`world, this`clock
      ensures Ran(required, Moment()) == RunRefs(oracle, norm, steps, refs, old(Moment()))
      ensures ok <==> RefsPass(required)
    {
      hide RefChecks, ChecksOf, RunChecks;
      ok, required := true, [];
      for k := 0 to |refs|
        invariant Ran(required, Moment()) == RunRefs(oracle, norm, steps, refs[..k], old(Moment()))
        invariant ok <==> RefsPass(required)
      {
        assert refs[..k + 1][..k] == refs[..k];
        var passed, results := RunCheckList(ChecksOf(steps, refs[k]));
        AppendRefPasses(required, RefResult(refs[k], passed, results));
        required := required + [RefResult(refs[k], passed, results)];
        ok := ok && passed;
      }
      assert refs[..|refs|] == refs;
    }

    /** The outputs of a step, each run against its own checks. */
    method CheckOutputs(outputs: seq<Output>) returns (ok: bool, actual: seq<OutputResult>)
      modifies this`world, this`clock
      ensures Ran(actual, Moment()) == RunOutputs(oracle, norm, outputs, old(Moment()))
      ensures ok <==> OutputsPass(actual)
    {
      ok, actual := true, [];
      for k := 0 to |outputs|
        invariant Ran(actual, Moment()) == RunOutputs(oracle, norm, outputs[..k], old(Moment()))
        invariant ok <==> OutputsPass(actual)
      {
        assert outputs[..k + 1][..k] == outputs[..k];
        var passed, results := RunCheckList(outputs[k].verify);
        AppendOutputPasses(actual, OutputResult(outputs[k].name, passed, results));
        actual := actual + [OutputResult(outputs[k].name, passed, results)];
        ok := ok && passed;
      }
      assert outputs[..|outputs|] == outputs;
    }

    /** One round of the audit loop. */
    method AuditStep(plan: Plan, key: string, s: Step, passed: map<int, bool>, baseline: World) returns (ok: bool)
      modifies this
      ensures var r := StepRun(oracle, norm, plan.steps, key, s, passed, baseline, old(Moment()));
        && Extends(old(log), log, [r.result]) && Moment() == r.now
        && r.result.StepAudit? && ok == r.result.verified
    {
      hide RunChecks, RunRefs, RunOutputs, Extends;
      var deps := DeclaredDeps(s);
      if !DepsPassed(s, passed) {
        Append(StepAudit(key, s.id, deps, [], [], [], false));
        return false;
      }
      var gate, required := CheckRequired(plan.steps, s.requiresOutputs);
      if !gate {
        Append(StepAudit(key, s.id, deps, required, [], [], false));
        return false;
      }
      var before := world;
      var checksOk, results := RunCheckList(s.verify);
      var outputsOk, outputs := CheckOutputs(s.outputs);
      ok := checksOk && outputsOk;
      if world != before || world != baseline {
        ok := false;
        results := results + [PURITY_FAILURE];
      }
      Append(StepAudit(key, s.id, deps, required, outputs, results, ok));
    }

    /** The loop of `audit_steps` over the steps in order. */
    method AuditLoop(plan: Plan, key: string, order: seq<int>, baseline: World) returns (allOk: bool)
      requires LinksValid(plan.steps) && IsOrder(plan.steps, order)
      modifies this
      ensures var l := LoopRun(oracle, norm, plan, key, order, baseline, old(Moment()));
        Extends(old(log), log, l.records) && allOk == l.allOk && Moment() == l.now
    {
      hide LinksValid, IsOrder, StepById, StepRun, Extends;
      ExtendsNone(log);
      allOk := true;
      var passed: map<int, bool> := map[];
      var k, stopped := 0, false;
      while k < |order| && !stopped
        invariant k <= |order|
        invariant var l := LoopRun(oracle, norm, plan, key, order[..k], baseline, old(Moment()));
          Extends(old(log), log, l.records) && l == Loop(l.records, passed, allOk, Moment(), stopped)
        decreases |order| - k
      {
        ghost var l := LoopRun(oracle, norm, plan, key, order[..k], baseline, old(Moment()));
        assert order[..k + 1][..k] == order[..k];
        OrderListsSteps(plan.steps, order, k);
        ghost var mid := log;
        if world != baseline {
          allOk, stopped := false, true;
          Append(OtherRecord(key));
          ExtendsTwice(old(log), mid, log, l.records, [OtherRecord(key)]);
        } else {
          var s := StepById(plan.steps, order[k]).value;
          ghost var rec := StepRun(oracle, norm, plan.steps, key, s, passed, baseline, Moment()).result;
          var ok := AuditStep(plan, key, s, passed, baseline);
          ExtendsTwice(old(log), mid, log, l.records, [rec]);
          passed := passed[order[k] := ok];
          allOk := allOk && ok;
        }
        k := k + 1;
      }
      if stopped {
        StoppedStays(oracle, norm, plan, key, order, k, baseline, old(Moment()));
      }
      assert order[..|order|] == order;
    }

    /** `audit_steps` in audit mode: nothing at all for an invalid plan; otherwise one audit run, among which rotation
        may put its anchors, ending in the marker whose verdict is the result. */
    method AuditSteps(plan: Plan, key: string) returns (allOk: bool)
      modifies this
      ensures !LinksValid(plan.steps) ==> log == old(log) && Moment() == old(Moment()) && !allOk
      ensures old(log) <= log
      ensures LinksValid(plan.steps) ==>
        exists order :: IsOrder(plan.steps, order) &&
          Audited(Entries(log[|old(log)|..]), allOk, Moment()) == AuditOutcome(oracle, norm, plan, key, order, old(Moment()))
      ensures LinksValid(plan.steps) ==>
        && AuditRun(norm, plan, key, old(world), Entries(log[|old(log)|..]))
        && log != [] && log[|log| - 1].AuditComplete? && log[|log| - 1].verified == allOk
      ensures allOk ==> LinksValid(plan.steps) && world == old(world)
      ensures LinksValid(plan.steps) ==>
        exists order :: IsOrder(plan.steps, order) &&
          (allOk <==> CleanRun(oracle, norm, Groups(plan.steps, order), old(world), old(clock)))
      ensures LinksValid(plan.steps) && (forall c :: Declared(plan.steps, c) ==> Benign(oracle, norm, c, old(world))) ==> allOk
      ensures (exists c :: Declared(plan.steps, c) && NeverPasses(oracle, norm, c)) ==> !allOk
    {
      hide LinksValid, IsOrder, Credited, LoopRun, AuditRun, Entries, StepPrefix, GraphAccepted, Cyclic, AuditOutcome, CleanRun,
        Groups, Declared, Benign, NeverPasses;
      var problems := ValidateOutputLinks(plan.steps);
      var maybeOrder := PlanOrder(plan.steps);
      ValidPlanHasOrder(plan.steps, maybeOrder);
      if maybeOrder.None? || problems != [] {
        return false;
      }
      var order := maybeOrder.value;
      var baseline := world;
      allOk := AuditLoop(plan, key, order, baseline);
      ghost var records := LoopRun(oracle, norm, plan, key, order, baseline, old(Moment())).records;
      if world != baseline {
        allOk := false;
        ghost var mid := log;
        Append(OtherRecord(key));
        ExtendsTwice(old(log), mid, log, records, [OtherRecord(key)]);
        records := records + [OtherRecord(key)];
      }
      ghost var last := log;
      Append(AuditComplete(key, allOk, order, plan, world));
      ExtendsTwice(old(log), last, log, records, [AuditComplete(key, allOk, order, plan, world)]);
      OutcomeIsAuditRun(oracle, norm, plan, key, order, old(Moment()));
      OutcomeOfLoop(oracle, norm, plan, key, order, old(Moment()));
      AuditSucceedsExactly(oracle, norm, plan, key, order, old(Moment()));
      AuditVerdicts(oracle, norm, plan, key, order, old(Moment()));
      assert AuditOutcome(oracle, norm, plan, key, order, old(Moment())).records
        == records + [AuditComplete(key, allOk, order, plan, world)];
    }
  }

  lemma {:induction false} StoppedStays(o: Oracle, norm: Check -> Check, plan: Plan, key: string, order: seq<int>, k: nat, baseline: World, now: Now)
    requires k <= |order| && LoopRun(o, norm, plan, key, order[..k], baseline, now).stopped
    ensures LoopRun(o, norm, plan, key, order, baseline, now) == LoopRun(o, norm, plan, key, order[..k], baseline, now)
    decreases |order|
  {
    if k < |order| {
      assert order[..|order| - 1][..k] == order[..k];
      StoppedStays(o, norm, plan, key, order[..|order| - 1], k, baseline, now);
    } else {
      assert order[..k] == order;
    }
  }

  lemma ValidPlanHasOrder(steps: seq<Step>, maybeOrder: Option<seq<int>>)
    requires maybeOrder.None? ==> !GraphAccepted(steps) || Cyclic(GraphOf(steps))
    ensures LinksValid(steps) ==> maybeOrder.Some?
  {
  }

  lemma RefsResolve(steps: seq<Step>, s: Step)
    requires LinksValid(steps) && s in steps
    ensures forall r :: r in s.requiresOutputs ==> RefChecks(steps, r).Some?
  {
    forall r | r in s.requiresOutputs ensures RefChecks(steps, r).Some? {
      assert StepRefsValid(steps, s);
      assert RefGood(steps, s.id, r);
      DeclaredResolves(steps, r);
    }
  }

  lemma DeclaredResolves(steps: seq<Step>, r: OutputRef)
    requires Distinct(StepIds(steps)) && Declares(steps, r.step, r.name)
    ensures RefChecks(steps, r).Some?
  {
    hide StepById, OutputByName;
    var source :| source in steps && source.id == r.step && r.name in OutputNames(source);
    var j :| 0 <= j < |steps| && steps[j] == source;
    assert StepIds(steps)[j] == r.step;
    var t := StepById(steps, r.step).value;
    var k :| 0 <= k < |steps| && steps[k] == t;
    assert StepIds(steps)[k] == r.step;
    var o :| 0 <= o < |source.outputs| && OutputNames(source)[o] == r.name;
    assert source.outputs[o] in source.outputs && source.outputs[o].name == r.name;
  }

  // -------------------------------------------------- the checker's single pass

  /** The bounded deque, the last candidate list and the last marker after reading a log. */
  datatype Scan = Scan(pending: seq<AuditRecord>, candidate: seq<AuditRecord>, marker: Option<AuditRecord>)

  function Push(pending: seq<AuditRecord>, r: AuditRecord, limit: nat): seq<AuditRecord> {
    var more := pending + [r];
    if |more| > limit then more[|more| - limit..] else more
  }

  function Read(scan: Scan, r: AuditRecord, key: string, limit: nat): Scan {
    if r.plan != key then scan
    else match r
      case AuditComplete(_, _, _, _, _) => scan.(candidate := scan.pending, marker := Some(r))
      case StepAudit(_, _, _, _, _, _, _) => scan.(pending := Push(scan.pending, r, limit))
      case _ => scan
  }

  function ScanLog(log: seq<AuditRecord>, key: string, limit: nat): Scan {
    if log == [] then Scan([], [], None)
    else Read(ScanLog(log[..|log| - 1], key, limit), log[|log| - 1], key, limit)
  }

  /** `_iter_evidence_records` feeding the deque of `fresh_full_audit_proof`. */
  method ScanRecords(log: seq<AuditRecord>, key: string, limit: nat) returns (scan: Scan)
    ensures scan == ScanLog(log, key, limit)
  {
    scan := Scan([], [], None);
    for k := 0 to |log|
      invariant scan == ScanLog(log[..k], key, limit)
    {
      assert log[..k + 1][..k] == log[..k];
      scan := Read(scan, log[k], key, limit);
    }
    assert log[..|log|] == log;
  }

  /** What `fresh_full_audit_proof` accepts, crediting the records of the last marker. */
  ghost predicate ProofValid(norm: Check -> Check, chainOk: bool, log: seq<AuditRecord>, plan: Plan, key: string,
                             world: World, order: seq<int>) {
    var scan := ScanLog(log, key, |order|);
    && chainOk && IsOrder(plan.steps, order) && order != []
    && scan.marker.Some? && scan.marker.value.AuditComplete?
    && scan.marker.value.verified && scan.marker.value.order == order
    && scan.marker.value.contract == plan && scan.marker.value.world == world
    && Credited(norm, plan.steps, order, scan.candidate)
  }

  /** `fresh_full_audit_proof`. */
  method FreshFullAuditProof(norm: Check -> Check, chainOk: bool, log: seq<AuditRecord>, plan: Plan, key: string, world: World)
    returns (valid: bool, steps: nat)
    ensures valid <==> exists order :: ProofValid(norm, chainOk, log, plan, key, world, order)
    ensures valid ==> steps == |plan.steps|
  {
    valid, steps := false, 0;
    var maybeOrder := PlanOrder(plan.steps);
    if maybeOrder.None? {
      return;
    }
    var order := maybeOrder.value;
    forall o | IsOrder(plan.steps, o) ensures o == order {
      LeastTopologicalUnique(StepIds(plan.steps), GraphOf(plan.steps), o, order);
    }
    if !chainOk || order == [] {
      return;
    }
    var scan := ScanRecords(log, key, |order|);
    if scan.marker.None? {
      return;
    }
    var marker := scan.marker.value;
    if !marker.AuditComplete? || !marker.verified || marker.order != order || marker.contract != plan || marker.world != world {
      return;
    }
    if !Credited(norm, plan.steps, order, scan.candidate) {
      return;
    }
    OrderLength(plan.steps, order);
    assert ProofValid(norm, chainOk, log, plan, key, world, order);
    valid, steps := true, |order|;
  }

  lemma OrderLength(steps: seq<Step>, order: seq<int>)
    requires IsOrder(steps, order)
    ensures |order| == |steps|
  {
    RespectsDistinct(GraphOf(steps), order);
    GraphEntries(steps);
    DistinctCardinality(StepIds(steps));
  }

  // -------------------------------------------------- what else is in the log does not matter

  predicate Own(r: AuditRecord, key: string) {
    r.plan == key && (r.StepAudit? || r.AuditComplete?)
  }

  /** The audit records of one plan: no other plan's, no anchors, no records of other modes. */
  function OfPlan(log: seq<AuditRecord>, key: string): seq<AuditRecord> {
    if log == [] then []
    else OfPlan(log[..|log| - 1], key) + if Own(log[|log| - 1], key) then [log[|log| - 1]] else []
  }

  lemma {:induction false} OfPlanConcat(a: seq<AuditRecord>, b: seq<AuditRecord>, key: string)
    ensures OfPlan(a + b, key) == OfPlan(a, key) + OfPlan(b, key)
    decreases |b|
  {
    if b == [] {
      assert a + b == a;
    } else {
      assert (a + b)[..|a + b| - 1] == a + b[..|b| - 1];
      OfPlanConcat(a, b[..|b| - 1], key);
    }
  }

  lemma {:induction false} AnchorsAreNotOwn(log: seq<AuditRecord>, key: string)
    ensures OfPlan(Entries(log), key) == OfPlan(log, key)
  {
    if log != [] {
      var n := |log| - 1;
      AnchorsAreNotOwn(log[..n], key);
      OfPlanConcat(Entries(log[..n]), [log[n]], key);
      assert [log[n]][..0] == [] && OfPlan([], key) == [];
      assert Entries(log[..n]) + [] == Entries(log[..n]) && OfPlan(log[..n], key) + [] == OfPlan(log[..n], key);
    }
  }

  lemma {:induction false} ScanReadsOwn(log: seq<AuditRecord>, key: string, limit: nat)
    ensures ScanLog(log, key, limit) == ScanLog(OfPlan(log, key), key, limit)
  {
    if log != [] {
      var n := |log| - 1;
      ScanReadsOwn(log[..n], key, limit);
      var own := OfPlan(log[..n], key);
      if Own(log[n], key) {
        assert OfPlan(log, key) == own + [log[n]] && (own + [log[n]])[..|own + [log[n]]| - 1] == own;
        assert (own + [log[n]])[|own + [log[n]]| - 1] == log[n];
      } else {
        assert OfPlan(log, key) == own + [] == own;
      }
    }
  }

  /** Two logs with the same audit records of a plan are read alike. */
  lemma SameScan(log: seq<AuditRecord>, more: seq<AuditRecord>, records: seq<AuditRecord>, key: string, limit: nat)
    requires OfPlan(more, key) == OfPlan(records, key)
    ensures ScanLog(log + more, key, limit) == ScanLog(log + records, key, limit)
  {
    ScanReadsOwn(log + more, key, limit);
    ScanReadsOwn(log + records, key, limit);
    OfPlanConcat(log, more, key);
    OfPlanConcat(log, records, key);
  }

  // -------------------------------------------------- reading an audit run

  lemma {:induction false} ScanConcat(a: seq<AuditRecord>, b: seq<AuditRecord>, key: string, limit: nat)
    requires b != []
    ensures ScanLog(a + b, key, limit) == Read(ScanLog(a + b[..|b| - 1], key, limit), b[|b| - 1], key, limit)
  {
    assert (a + b)[..|a + b| - 1] == a + b[..|b| - 1];
  }

  lemma {:induction false} ScanForeign(log: seq<AuditRecord>, more: seq<AuditRecord>, key: string, limit: nat)
    requires forall i :: 0 <= i < |more| ==> more[i].plan != key
    ensures ScanLog(log + more, key, limit) == ScanLog(log, key, limit)
    decreases |more|
  {
    if more == [] {
      assert log + more == log;
    } else {
      ScanConcat(log, more, key, limit);
      ScanForeign(log, more[..|more| - 1], key, limit);
    }
  }

  function LastOnes(s: seq<AuditRecord>, limit: nat): seq<AuditRecord> {
    if |s| > limit then s[|s| - limit..] else s
  }

  lemma AllLast(s: seq<AuditRecord>, limit: nat)
    requires |s| <= limit
    ensures LastOnes(s, limit) == s
  {
  }

  lemma PushLast(before: seq<AuditRecord>, rest: seq<AuditRecord>, last: AuditRecord, limit: nat)
    ensures Push(LastOnes(before + rest, limit), last, limit) == LastOnes(before + (rest + [last]), limit)
  {
    var all := before + rest;
    assert before + (rest + [last]) == all + [last];
  }

  lemma {:induction false} ScanSteps(log: seq<AuditRecord>, more: seq<AuditRecord>, key: string, limit: nat)
    requires forall i :: 0 <= i < |more| ==> more[i].StepAudit? && more[i].plan == key
    requires |more| <= limit
    ensures var scan := ScanLog(log + more, key, limit);
      && scan.pending == LastOnes(ScanLog(log, key, limit).pending + more, limit)
      && scan.marker == ScanLog(log, key, limit).marker
    decreases |more|
  {
    hide Push, LastOnes, ScanLog;
    var before := ScanLog(log, key, limit).pending;
    PendingBounded(log, key, limit);
    if more == [] {
      assert log + more == log && before + more == before;
      AllLast(before, limit);
    } else {
      var rest, last := more[..|more| - 1], more[|more| - 1];
      ScanConcat(log, more, key, limit);
      ScanSteps(log, rest, key, limit);
      assert more == rest + [last];
      PushLast(before, rest, last, limit);
    }
  }

  lemma {:induction false} PendingBounded(log: seq<AuditRecord>, key: string, limit: nat)
    ensures |ScanLog(log, key, limit).pending| <= limit
  {
    if log != [] { PendingBounded(log[..|log| - 1], key, limit); }
  }

  /** After a verified run the marker is the run's and the candidates are exactly its step records. */
  lemma ScanVerifiedRun(norm: Check -> Check, log: seq<AuditRecord>, plan: Plan, key: string, baseline: World, records: seq<AuditRecord>)
    requires AuditRun(norm, plan, key, baseline, records) && records[|records| - 1].verified
    ensures var n := |records| - 1;
      var scan := ScanLog(log + records, key, |records[n].order|);
      scan.marker == Some(records[n]) && scan.candidate == records[..n]
  {
    var n := |records| - 1;
    var limit := |records[n].order|;
    var steps := records[..n];
    forall i | 0 <= i < |steps| ensures steps[i].StepAudit? && steps[i].plan == key {
      assert VouchesAt(norm, plan.steps, records[n].order, steps, i);
    }
    ScanConcat(log, records, key, limit);
    ScanSteps(log, steps, key, limit);
    var before := ScanLog(log, key, limit).pending;
    assert (before + steps)[|before + steps| - limit..] == steps;
  }

  /** Audit and proof agree: a passing audit of a non-empty plan leaves a log on which the proof is valid, until the
      plan or the workspace changes, whatever anchors and foreign records stand before, between and after its own. */
  lemma PassingAuditProves(norm: Check -> Check, log: seq<AuditRecord>, more: seq<AuditRecord>, plan: Plan, key: string,
                           world: World, records: seq<AuditRecord>)
    requires AuditRun(norm, plan, key, world, records) && records[|records| - 1].verified
    requires OfPlan(more, key) == OfPlan(records, key)
    ensures ProofValid(norm, true, log + more, plan, key, world, records[|records| - 1].order) <==> plan.steps != []
  {
    SameScan(log, more, records, key, |records[|records| - 1].order|);
    ScanVerifiedRun(norm, log, plan, key, world, records);
    OrderLength(plan.steps, records[|records| - 1].order);
  }

  lemma ProofNeedsSteps(norm: Check -> Check, log: seq<AuditRecord>, plan: Plan, key: string, world: World, order: seq<int>)
    requires ProofValid(norm, true, log, plan, key, world, order)
    ensures plan.steps != []
  {
    hide Credited, IsOrder, ScanLog;
    OrderLength(plan.steps, order);
  }

  /** After a failing audit no proof is valid: its marker is the last one. */
  lemma FailingAuditRefutes(norm: Check -> Check, log: seq<AuditRecord>, more: seq<AuditRecord>, plan: Plan, key: string,
                            baseline: World, world: World, records: seq<AuditRecord>, order: seq<int>)
    requires AuditRun(norm, plan, key, baseline, records) && !records[|records| - 1].verified
    requires OfPlan(more, key) == OfPlan(records, key)
    ensures !ProofValid(norm, true, log + more, plan, key, world, order)
  {
    hide Credited, IsOrder, StepPrefix;
    SameScan(log, more, records, key, |order|);
    ScanMarkerIsLast(log, records, key, |order|);
  }

  /** `audit_steps` followed by `fresh_full_audit_proof` on the same plan and files: the two agree. */
  method AuditThenProve(a: Auditor, plan: Plan, key: string) returns (passed: bool, proved: bool)
    modifies a
    ensures LinksValid(plan.steps) && plan.steps != [] ==> passed == proved
    ensures passed && plan.steps == [] ==> !proved
  {
    hide LinksValid, IsOrder, Credited, AuditOutcome, ScanLog, AuditRun, ProofValid, Entries, OfPlan;
    ghost var log0, world0 := a.log, a.world;
    passed := a.AuditSteps(plan, key);
    var steps;
    proved, steps := FreshFullAuditProof(a.norm, true, a.log, plan, key, a.world);
    ghost var more := a.log[|log0|..];
    ghost var records := Entries(more);
    assert a.log == log0 + more;
    AnchorsAreNotOwn(more, key);
    MarkerOfRun(a.norm, plan, key, world0, more);
    RunEnds(a.norm, plan, key, world0, records);
    forall order ensures ProofValid(a.norm, true, a.log, plan, key, a.world, order) ==> plan.steps != [] {
      if ProofValid(a.norm, true, a.log, plan, key, a.world, order) {
        ProofNeedsSteps(a.norm, a.log, plan, key, a.world, order);
      }
    }
    if passed {
      PassingAuditProves(a.norm, log0, more, plan, key, world0, records);
    } else if AuditRun(a.norm, plan, key, world0, records) {
      forall order ensures !ProofValid(a.norm, true, a.log, plan, key, a.world, order) {
        FailingAuditRefutes(a.norm, log0, more, plan, key, world0, a.world, records, order);
      }
    }
  }

  lemma MarkerOfRun(norm: Check -> Check, plan: Plan, key: string, baseline: World, more: seq<AuditRecord>)
    ensures AuditRun(norm, plan, key, baseline, Entries(more)) ==> more != []
    ensures more != [] && more[|more| - 1].AuditComplete? ==>
      Entries(more) != [] && Entries(more)[|Entries(more)| - 1] == more[|more| - 1]
  {
  }

  lemma RunEnds(norm: Check -> Check, plan: Plan, key: string, baseline: World, records: seq<AuditRecord>)
    ensures AuditRun(norm, plan, key, baseline, records) ==> records != [] && records[|records| - 1].AuditComplete?
  {
  }

  // -------------------------------------------------- logs of non-overlapping audits

  datatype Run = Run(plan: Plan, key: string, baseline: World, records: seq<AuditRecord>)

  function RunsLog(runs: seq<Run>): seq<AuditRecord> {
    if runs == [] then [] else RunsLog(runs[..|runs| - 1]) + runs[|runs| - 1].records
  }

  ghost predicate AllRuns(norm: Check -> Check, runs: seq<Run>) {
    forall i :: 0 <= i < |runs| ==> AuditRun(norm, runs[i].plan, runs[i].key, runs[i].baseline, runs[i].records)
  }

  lemma ScanMarkerIsLast(log: seq<AuditRecord>, records: seq<AuditRecord>, key: string, limit: nat)
    requires records != [] && records[|records| - 1].AuditComplete? && records[|records| - 1].plan == key
    ensures ScanLog(log + records, key, limit).marker == Some(records[|records| - 1])
  {
    ScanConcat(log, records, key, limit);
  }

  /** The last run for the plan's key, if there is one. */
  function LastRunOf(runs: seq<Run>, key: string): (r: Option<Run>)
    ensures r.Some? ==> r.value in runs && r.value.key == key
  {
    if runs == [] then None
    else if runs[|runs| - 1].key == key then Some(runs[|runs| - 1])
    else LastRunOf(runs[..|runs| - 1], key)
  }

  /** The audits of each plan follow one another in the log; anchors, records of other modes and audits of other plans
      may stand anywhere. */
  ghost predicate LogOf(log: seq<AuditRecord>, runs: seq<Run>, key: string) {
    OfPlan(log, key) == OfPlan(RunsLog(runs), key)
  }

  /** A valid proof over a log whose audits of that plan do not overlap credits exactly the step records of the last
      audit run of that plan: one run, its verified marker, topological order, every check passed. */
  lemma ProofCreditsOneRun(norm: Check -> Check, runs: seq<Run>, log: seq<AuditRecord>, plan: Plan, key: string, world: World, order: seq<int>)
    requires AllRuns(norm, runs) && LogOf(log, runs, key)
    requires ProofValid(norm, true, log, plan, key, world, order)
    ensures LastRunOf(runs, key).Some?
    ensures var run := LastRunOf(runs, key).value;
      var n := |run.records| - 1;
      && AuditRun(norm, run.plan, key, run.baseline, run.records)
      && run.plan == plan && run.records[n].verified && run.records[n].order == order && run.baseline == world
      && ScanLog(log, key, |order|).candidate == run.records[..n]
      && Credited(norm, plan.steps, order, run.records[..n])
  {
    hide Credited, IsOrder, OfPlan, RunsLog, AuditRun, LastRunOf;
    ScanReadsOwn(log, key, |order|);
    ScanReadsOwn(RunsLog(runs), key, |order|);
    RunsCredit(norm, runs, plan, key, world, order);
  }

  lemma {:induction false} RunsCredit(norm: Check -> Check, runs: seq<Run>, plan: Plan, key: string, world: World, order: seq<int>)
    requires AllRuns(norm, runs)
    requires ProofValid(norm, true, RunsLog(runs), plan, key, world, order)
    ensures LastRunOf(runs, key).Some?
    ensures var run := LastRunOf(runs, key).value;
      var n := |run.records| - 1;
      && AuditRun(norm, run.plan, key, run.baseline, run.records)
      && run.plan == plan && run.records[n].verified && run.records[n].order == order && run.baseline == world
      && ScanLog(RunsLog(runs), key, |order|).candidate == run.records[..n]
      && Credited(norm, plan.steps, order, run.records[..n])
  {
    hide Credited, IsOrder, StepPrefix;
    assert runs != [];
    var n := |runs| - 1;
    var last, before := runs[n], RunsLog(runs[..n]);
    if last.key == key {
      assert AuditRun(norm, last.plan, key, last.baseline, last.records);
      ScanMarkerIsLast(before, last.records, key, |order|);
      ScanVerifiedRun(norm, before, last.plan, key, last.baseline, last.records);
    } else {
      assert AuditRun(norm, last.plan, last.key, last.baseline, last.records);
      ScanForeign(before, last.records, key, |order|);
      RunsCredit(norm, runs[..n], plan, key, world, order);
    }
  }
}

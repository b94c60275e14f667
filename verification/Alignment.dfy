/** The host's request against the active plans, and what valid proofs of all plans say about it
    (supervisor/request_contract.py, supervisor/orchestrator.py). */
module Alignment {
  import opened Sequences
  import opened Plans
  import opened PlanGraph
  import opened Audit
  import opened Text

  datatype RequestItem = RequestItem(id: string, description: string, priority: string, acceptance: seq<Check>)

  datatype NamedPlan = NamedPlan(name: string, plan: Plan)

  datatype CoveringStep = CoveringStep(plan: string, step: int)

  datatype AlignmentError =
    | EmptyRequest
    | InvalidId
    | Missing(id: string)
    | Modified(id: string)
    | NotCovered(id: string)
    | NotExecuted(id: string, check: Check)

  predicate Binding(r: RequestItem) {
    r.priority == "must" || r.priority == "should"
  }

  // -------------------------------------------------- what alignment means

  predicate NamesRequirement(p: Plan, r: RequestItem) {
    exists q :: q in p.requirements && q.id == r.id
  }

  predicate StatesRequirement(p: Plan, r: RequestItem) {
    exists q :: q in p.requirements && q.id == r.id && q.description == r.description && q.priority == r.priority
  }

  predicate CoveredBy(p: Plan, r: RequestItem) {
    exists s :: s in p.steps && r.id in s.covers
  }

  predicate ExecutedBy(norm: Check -> Check, p: Plan, r: RequestItem, check: Check) {
    exists s, c :: s in p.steps && r.id in s.covers && c in s.verify && norm(c) == norm(check)
  }

  ghost predicate CheckCovered(norm: Check -> Check, plans: seq<NamedPlan>, r: RequestItem, check: Check) {
    exists np :: np in plans && StatesRequirement(np.plan, r) && ExecutedBy(norm, np.plan, r, check)
  }

  /** One requirement is stated unchanged, covered, and all its acceptance checks are executed. */
  ghost predicate ItemAligned(norm: Check -> Check, plans: seq<NamedPlan>, r: RequestItem) {
    && !Blank(r.id)
    && (exists np :: np in plans && StatesRequirement(np.plan, r))
    && (Binding(r) ==>
          && (exists np :: np in plans && StatesRequirement(np.plan, r) && CoveredBy(np.plan, r))
          && forall check :: check in r.acceptance ==> CheckCovered(norm, plans, r, check))
  }

  ghost predicate RequestAligned(norm: Check -> Check, plans: seq<NamedPlan>, request: seq<RequestItem>) {
    request != [] && forall r :: r in request ==> ItemAligned(norm, plans, r)
  }

  /** A plan's own requirement says what the request says, word for word. */
  ghost predicate SameWords(p: Plan, q: Requirement, r: RequestItem) {
    q in p.requirements && q.id == r.id && q.description == r.description && q.priority == r.priority
  }

  /** The requirement has an id and some plan states it; if it must or should be met, a step of such a plan covers it, and
      each acceptance check is, once normalised, a check of a covering step of such a plan. */
  ghost predicate Meets(norm: Check -> Check, plans: seq<NamedPlan>, r: RequestItem) {
    && (exists k :: 0 <= k < |r.id| && !IsSpace(r.id[k]))
    && (exists np, q :: np in plans && SameWords(np.plan, q, r))
    && (r.priority == "must" || r.priority == "should" ==>
          && (exists np, q, s :: np in plans && SameWords(np.plan, q, r) && s in np.plan.steps && r.id in s.covers)
          && forall check :: check in r.acceptance ==> CheckedSomewhere(norm, plans, r, check))
  }

  ghost predicate CheckedSomewhere(norm: Check -> Check, plans: seq<NamedPlan>, r: RequestItem, check: Check) {
    exists np, q, s, c :: np in plans && SameWords(np.plan, q, r) && s in np.plan.steps && r.id in s.covers
                          && c in s.verify && norm(c) == norm(check)
  }

  lemma StatesMeans(p: Plan, r: RequestItem)
    ensures StatesRequirement(p, r) <==> exists q :: SameWords(p, q, r)
  {
    if StatesRequirement(p, r) {
      var q :| q in p.requirements && q.id == r.id && q.description == r.description && q.priority == r.priority;
      assert SameWords(p, q, r);
    }
  }

  lemma AlignedMeans(norm: Check -> Check, plans: seq<NamedPlan>, r: RequestItem)
    ensures ItemAligned(norm, plans, r) <==> Meets(norm, plans, r)
  {
    hide SameWords, StatesRequirement, Strip, IsSpace;
    StrippedAway(r.id);
    forall np | np in plans ensures StatesRequirement(np.plan, r) <==> exists q :: SameWords(np.plan, q, r) {
      StatesMeans(np.plan, r);
    }
    forall check ensures CheckCovered(norm, plans, r, check) <==> CheckedSomewhere(norm, plans, r, check) {
      if CheckCovered(norm, plans, r, check) {
        var np :| np in plans && StatesRequirement(np.plan, r) && ExecutedBy(norm, np.plan, r, check);
        var q :| SameWords(np.plan, q, r);
      }
      if CheckedSomewhere(norm, plans, r, check) {
        var np, q, s, c :| np in plans && SameWords(np.plan, q, r) && s in np.plan.steps && r.id in s.covers && c in s.verify && norm(c) == norm(check);
        assert StatesRequirement(np.plan, r) && ExecutedBy(norm, np.plan, r, check);
      }
    }
  }

  // -------------------------------------------------- analyze_request_alignment

  /** The step loop: covering steps and their normalised checks, of one plan. */
  method CollectPlan(norm: Check -> Check, np: NamedPlan, r: RequestItem)
    returns (covered: seq<CoveringStep>, actual: seq<Check>)
    ensures forall x :: x in covered <==> CoversAs(np, r, x)
    ensures forall check :: norm(check) in actual <==> ExecutedBy(norm, np.plan, r, check)
  {
    var steps := np.plan.steps;
    covered, actual := [], [];
    for k := 0 to |steps|
      invariant forall x :: x in covered <==> exists i :: 0 <= i < k && r.id in steps[i].covers && x == CoveringStep(np.name, steps[i].id)
      invariant forall x :: x in actual <==> exists i :: 0 <= i < k && StepExecutes(norm, steps[i], r, x)
    {
      var s := steps[k];
      if r.id in s.covers {
        covered := covered + [CoveringStep(np.name, s.id)];
        var checks := NormAll(norm, s.verify);
        actual := actual + checks;
      }
    }
    forall x ensures x in covered <==> CoversAs(np, r, x) {
      if CoversAs(np, r, x) {
        var s :| s in steps && r.id in s.covers && s.id == x.step;
        var i :| 0 <= i < |steps| && steps[i] == s;
      }
    }
    forall check ensures norm(check) in actual <==> ExecutedBy(norm, np.plan, r, check) {
      if ExecutedBy(norm, np.plan, r, check) {
        var s, c :| s in steps && r.id in s.covers && c in s.verify && norm(c) == norm(check);
        var i :| 0 <= i < |steps| && steps[i] == s;
        assert StepExecutes(norm, steps[i], r, norm(check));
      }
      if i :| 0 <= i < |steps| && StepExecutes(norm, steps[i], r, norm(check)) {
        assert steps[i] in steps;
      }
    }
  }

  predicate CoversAs(np: NamedPlan, r: RequestItem, c: CoveringStep) {
    c.plan == np.name && exists s :: s in np.plan.steps && r.id in s.covers && s.id == c.step
  }

  predicate StepExecutes(norm: Check -> Check, s: Step, r: RequestItem, normal: Check) {
    r.id in s.covers && exists c :: c in s.verify && norm(c) == normal
  }

  method NormAll(norm: Check -> Check, checks: seq<Check>) returns (normal: seq<Check>)
    ensures forall x :: x in normal <==> exists c :: c in checks && norm(c) == x
  {
    normal := [];
    for k := 0 to |checks|
      invariant forall x :: x in normal <==> exists i :: 0 <= i < k && norm(checks[i]) == x
    {
      normal := normal + [norm(checks[k])];
    }
    forall x ensures x in normal <==> exists c :: c in checks && norm(c) == x {
      if c :| c in checks && norm(c) == x {
        var i :| 0 <= i < |checks| && checks[i] == c;
        assert norm(checks[i]) == x;
      }
    }
  }

  /** A step that covers the requirement, in a plan that states it unchanged. */
  predicate Covers(plans: seq<NamedPlan>, r: RequestItem, x: CoveringStep) {
    exists np :: np in plans && StatesRequirement(np.plan, r) && CoversAs(np, r, x)
  }

  /** The plan loop over the plans that state the requirement unchanged. */
  method CollectAll(norm: Check -> Check, plans: seq<NamedPlan>, r: RequestItem)
    returns (covered: seq<CoveringStep>, actual: seq<Check>)
    ensures forall x :: x in covered <==> Covers(plans, r, x)
    ensures forall check :: norm(check) in actual <==> CheckCovered(norm, plans, r, check)
  {
    hide StatesRequirement, CoversAs, ExecutedBy;
    covered, actual := [], [];
    for k := 0 to |plans|
      invariant forall x :: x in covered <==>
        exists i :: 0 <= i < k && StatesRequirement(plans[i].plan, r) && CoversAs(plans[i], r, x)
      invariant forall check :: norm(check) in actual <==>
        exists i :: 0 <= i < k && StatesRequirement(plans[i].plan, r) && ExecutedBy(norm, plans[i].plan, r, check)
    {
      if StatesRequirement(plans[k].plan, r) {
        var more, checks := CollectPlan(norm, plans[k], r);
        covered := covered + more;
        actual := actual + checks;
      }
    }
    forall x ensures x in covered <==> Covers(plans, r, x) {
      if Covers(plans, r, x) {
        var np :| np in plans && StatesRequirement(np.plan, r) && CoversAs(np, r, x);
        var i :| 0 <= i < |plans| && plans[i] == np;
      }
    }
    forall check ensures norm(check) in actual <==> CheckCovered(norm, plans, r, check) {
      if CheckCovered(norm, plans, r, check) {
        var np :| np in plans && StatesRequirement(np.plan, r) && ExecutedBy(norm, np.plan, r, check);
        var i :| 0 <= i < |plans| && plans[i] == np;
      }
    }
  }

  ghost predicate Stated(plans: seq<NamedPlan>, r: RequestItem) {
    exists np :: np in plans && StatesRequirement(np.plan, r)
  }

  ghost predicate CoveredSomewhere(plans: seq<NamedPlan>, r: RequestItem) {
    exists np :: np in plans && StatesRequirement(np.plan, r) && CoveredBy(np.plan, r)
  }

  /** Which errors one requirement gives rise to. */
  ghost predicate Reports(norm: Check -> Check, plans: seq<NamedPlan>, r: RequestItem, e: AlignmentError) {
    match e
    case EmptyRequest => false
    case InvalidId => Blank(r.id)
    case Missing(id) => id == r.id && !Blank(r.id) && forall np :: np in plans ==> !NamesRequirement(np.plan, r)
    case Modified(id) => id == r.id && !Blank(r.id) && !Stated(plans, r) && exists np :: np in plans && NamesRequirement(np.plan, r)
    case NotCovered(id) => id == r.id && !Blank(r.id) && Stated(plans, r) && Binding(r) && !CoveredSomewhere(plans, r)
    case NotExecuted(id, check) =>
      id == r.id && !Blank(r.id) && Binding(r) && CoveredSomewhere(plans, r) && check in r.acceptance && !CheckCovered(norm, plans, r, check)
  }

  /** One round of the requirement loop; `covered` is None when the round stops before its mapping entry. */
  method AlignItem(norm: Check -> Check, plans: seq<NamedPlan>, r: RequestItem)
    returns (errors: seq<AlignmentError>, covered: Option<seq<CoveringStep>>)
    ensures forall e :: e in errors <==> Reports(norm, plans, r, e)
    ensures covered.Some? <==> !Blank(r.id) && Stated(plans, r)
    ensures covered.Some? ==> forall x :: x in covered.value <==> Covers(plans, r, x)
  {
    hide StatesRequirement, NamesRequirement, CoveredBy, CoversAs, Covers, CoveredSomewhere, ExecutedBy, Blank, CheckCovered;
    StatedAt(plans, r);
    if Blank(r.id) {
      return [InvalidId], None;
    }
    if !exists i :: 0 <= i < |plans| && NamesRequirement(plans[i].plan, r) {
      return [Missing(r.id)], None;
    }
    if !exists i :: 0 <= i < |plans| && StatesRequirement(plans[i].plan, r) {
      return [Modified(r.id)], None;
    }
    var steps, actual := CollectAll(norm, plans, r);
    CoveredBySteps(plans, r, steps);
    if Binding(r) && steps == [] {
      return [NotCovered(r.id)], Some(steps);
    }
    errors := [];
    if Binding(r) {
      for k := 0 to |r.acceptance|
        invariant forall e :: e in errors <==>
          e.NotExecuted? && e.id == r.id && e.check in r.acceptance[..k] && !CheckCovered(norm, plans, r, e.check)
      {
        assert r.acceptance[..k + 1] == r.acceptance[..k] + [r.acceptance[k]];
        if norm(r.acceptance[k]) !in actual {
          errors := errors + [NotExecuted(r.id, r.acceptance[k])];
        }
      }
      assert r.acceptance[..|r.acceptance|] == r.acceptance;
    }
    covered := Some(steps);
  }

  lemma CoveredBySteps(plans: seq<NamedPlan>, r: RequestItem, steps: seq<CoveringStep>)
    requires forall x :: x in steps <==> Covers(plans, r, x)
    ensures steps != [] <==> CoveredSomewhere(plans, r)
  {
    hide StatesRequirement;
    if steps != [] {
      assert steps[0] in steps;
      var np :| np in plans && StatesRequirement(np.plan, r) && CoversAs(np, r, steps[0]);
      assert CoveredBy(np.plan, r);
    }
    if CoveredSomewhere(plans, r) {
      var np :| np in plans && StatesRequirement(np.plan, r) && CoveredBy(np.plan, r);
      var s :| s in np.plan.steps && r.id in s.covers;
      assert CoversAs(np, r, CoveringStep(np.name, s.id));
      assert Covers(plans, r, CoveringStep(np.name, s.id));
    }
  }

  lemma StatedAt(plans: seq<NamedPlan>, r: RequestItem)
    ensures Stated(plans, r) <==> exists i :: 0 <= i < |plans| && StatesRequirement(plans[i].plan, r)
    ensures (exists np :: np in plans && NamesRequirement(np.plan, r)) <==> exists i :: 0 <= i < |plans| && NamesRequirement(plans[i].plan, r)
    ensures Stated(plans, r) ==> exists np :: np in plans && NamesRequirement(np.plan, r)
    ensures CoveredSomewhere(plans, r) ==> Stated(plans, r)
  {
    if Stated(plans, r) {
      var np :| np in plans && StatesRequirement(np.plan, r);
      assert NamesRequirement(np.plan, r);
      var i :| 0 <= i < |plans| && plans[i] == np;
    }
    if exists np :: np in plans && NamesRequirement(np.plan, r) {
      var np :| np in plans && NamesRequirement(np.plan, r);
      var i :| 0 <= i < |plans| && plans[i] == np;
    }
  }

  /** A requirement reports no error exactly when it is aligned. */
  lemma SilentExactly(norm: Check -> Check, plans: seq<NamedPlan>, r: RequestItem)
    ensures (forall e :: !Reports(norm, plans, r, e)) <==> ItemAligned(norm, plans, r)
  {
    hide StatesRequirement, NamesRequirement, CoveredBy, CheckCovered, Blank;
    StatedAt(plans, r);
    if forall e :: !Reports(norm, plans, r, e) {
      assert !Reports(norm, plans, r, InvalidId) && !Reports(norm, plans, r, Missing(r.id));
      assert !Reports(norm, plans, r, Modified(r.id)) && !Reports(norm, plans, r, NotCovered(r.id));
      forall check | check in r.acceptance && Binding(r) ensures CheckCovered(norm, plans, r, check) {
        assert !Reports(norm, plans, r, NotExecuted(r.id, check));
      }
    }
  }

  /** An unstated requirement is reported as missing when no plan has its id, and as modified when one has. */
  lemma MissingOrModified(norm: Check -> Check, plans: seq<NamedPlan>, r: RequestItem)
    ensures Reports(norm, plans, r, Missing(r.id)) <==>
      !Blank(r.id) && forall np, q :: np in plans && q in np.plan.requirements ==> q.id != r.id
    ensures Reports(norm, plans, r, Modified(r.id)) <==>
      && !Blank(r.id) && (forall np, q :: np in plans ==> !SameWords(np.plan, q, r))
      && exists np, q :: np in plans && q in np.plan.requirements && q.id == r.id
  {
    hide Blank, StatesRequirement, SameWords;
    forall np | np in plans ensures StatesRequirement(np.plan, r) <==> exists q :: SameWords(np.plan, q, r) { StatesMeans(np.plan, r); }
    forall np | np in plans ensures NamesRequirement(np.plan, r) <==> exists q :: q in np.plan.requirements && q.id == r.id {
    }
  }

  /** `analyze_request_alignment`: valid exactly when the request is aligned; the errors and the mapping are
      exactly those of its requirements. */
  method AnalyzeRequestAlignment(norm: Check -> Check, plans: seq<NamedPlan>, request: seq<RequestItem>)
    returns (valid: bool, errors: seq<AlignmentError>, mapping: map<string, seq<CoveringStep>>)
    ensures valid <==> errors == []
    ensures valid <==> RequestAligned(norm, plans, request)
    ensures valid <==> request != [] && forall r :: r in request ==> Meets(norm, plans, r)
    ensures forall e :: e in errors <==> (request == [] && e.EmptyRequest?) || exists i :: 0 <= i < |request| && Reports(norm, plans, request[i], e)
    ensures forall id :: id in mapping <==> exists i :: 0 <= i < |request| && Maps(plans, request[i], id)
    ensures forall id :: id in mapping ==> exists i :: 0 <= i < |request| && MappedTo(plans, request[i], id, mapping[id])
  {
    hide ItemAligned, Reports, Covers, Stated, Blank, Meets;
    forall r | r in request ensures ItemAligned(norm, plans, r) <==> Meets(norm, plans, r) { AlignedMeans(norm, plans, r); }
    mapping := map[];
    if request == [] {
      return false, [EmptyRequest], mapping;
    }
    errors := [];
    for k := 0 to |request|
      invariant forall e :: e in errors <==> exists i :: 0 <= i < k && Reports(norm, plans, request[i], e)
      invariant forall id :: id in mapping <==> exists i :: 0 <= i < k && Maps(plans, request[i], id)
      invariant forall id :: id in mapping ==> exists i :: 0 <= i < k && MappedTo(plans, request[i], id, mapping[id])
    {
      var more, covered := AlignItem(norm, plans, request[k]);
      errors := errors + more;
      if covered.Some? {
        assert MappedTo(plans, request[k], request[k].id, covered.value);
        mapping := mapping[request[k].id := covered.value];
      }
    }
    valid := errors == [];
    SilentRequest(norm, plans, request, errors);
  }

  ghost predicate Maps(plans: seq<NamedPlan>, r: RequestItem, id: string) {
    r.id == id && !Blank(r.id) && Stated(plans, r)
  }

  ghost predicate MappedTo(plans: seq<NamedPlan>, r: RequestItem, id: string, steps: seq<CoveringStep>) {
    Maps(plans, r, id) && forall x :: x in steps <==> Covers(plans, r, x)
  }

  lemma SilentRequest(norm: Check -> Check, plans: seq<NamedPlan>, request: seq<RequestItem>, errors: seq<AlignmentError>)
    requires request != []
    requires forall e :: e in errors <==> exists i :: 0 <= i < |request| && Reports(norm, plans, request[i], e)
    ensures errors == [] <==> RequestAligned(norm, plans, request)
  {
    hide ItemAligned, Reports;
    if errors == [] {
      forall r | r in request ensures ItemAligned(norm, plans, r) {
        var i :| 0 <= i < |request| && request[i] == r;
        assert forall e :: Reports(norm, plans, request[i], e) ==> e in errors;
        SilentExactly(norm, plans, r);
      }
    } else {
      var e := errors[0];
      assert e in errors;
      var i :| 0 <= i < |request| && Reports(norm, plans, request[i], e);
      SilentExactly(norm, plans, request[i]);
      assert request[i] in request;
    }
  }

  // -------------------------------------------------- end to end

  /** Every plan has a valid fresh proof over the log. */
  ghost predicate AllProved(norm: Check -> Check, log: seq<AuditRecord>, plans: seq<NamedPlan>, world: World) {
    forall np :: np in plans ==> exists order :: ProofValid(norm, true, log, np.plan, np.name, world, order)
  }

  /** The check passed, as part of the step, in the last audit run of the step's plan. */
  ghost predicate PassedIn(norm: Check -> Check, runs: seq<Run>, np: NamedPlan, s: Step, check: Check) {
    var run := LastRunOf(runs, np.name);
    run.Some? && exists rec :: rec in run.value.records && RecordsPass(norm, rec, np.name, s.id, check)
  }

  ghost predicate RecordsPass(norm: Check -> Check, rec: AuditRecord, key: string, step: int, check: Check) {
    && rec.StepAudit? && rec.plan == key && rec.step == step && rec.verified
    && CheckResult(norm(check), true) in rec.results
  }

  /** Some plan states the requirement unchanged and a step of it that covers the requirement passed the check. */
  ghost predicate EvidenceFor(norm: Check -> Check, runs: seq<Run>, plans: seq<NamedPlan>, r: RequestItem, check: Check) {
    exists np, s :: np in plans && s in np.plan.steps && Evidences(norm, runs, np, s, r, check)
  }

  ghost predicate Evidences(norm: Check -> Check, runs: seq<Run>, np: NamedPlan, s: Step, r: RequestItem, check: Check) {
    StatesRequirement(np.plan, r) && r.id in s.covers && PassedIn(norm, runs, np, s, check)
  }

  lemma CreditedStepPassed(norm: Check -> Check, runs: seq<Run>, log: seq<AuditRecord>, np: NamedPlan, world: World, order: seq<int>, s: Step, c: Check)
    requires AllRuns(norm, runs) && LogOf(log, runs, np.name)
    requires ProofValid(norm, true, log, np.plan, np.name, world, order)
    requires s in np.plan.steps && c in s.verify
    ensures PassedIn(norm, runs, np, s, c)
  {
    hide IsOrder, OutputsMatch, RefsMatch, ScanLog, LastRunOf, LogOf, AllRuns;
    ProofCreditsOneRun(norm, runs, log, np.plan, np.name, world, order);
    var run := LastRunOf(runs, np.name).value;
    var n := |run.records| - 1;
    var i := StepInOrder(np.plan.steps, order, s);
    assert VouchesAt(norm, np.plan.steps, order, run.records[..n], i);
    var rec := run.records[i];
    assert rec in run.records;
    var j :| 0 <= j < |s.verify| && s.verify[j] == c;
    assert ResultAt(norm, s.verify, rec.results, j);
    assert rec.results[j] == CheckResult(norm(c), true);
    assert RecordsPass(norm, rec, np.name, s.id, c);
  }

  /** If the alignment is valid and every plan has a valid fresh proof, then each acceptance check
      of every must/should requirement passed, in the last audit of some plan that states the
      requirement unchanged, in a step that covers it. */
  lemma EndToEnd(norm: Check -> Check, runs: seq<Run>, log: seq<AuditRecord>, plans: seq<NamedPlan>, request: seq<RequestItem>,
                 world: World, r: RequestItem, check: Check)
    requires AllRuns(norm, runs) && forall np :: np in plans ==> LogOf(log, runs, np.name)
    requires RequestAligned(norm, plans, request) && AllProved(norm, log, plans, world)
    requires r in request && (r.priority == "must" || r.priority == "should") && check in r.acceptance
    ensures EvidenceFor(norm, runs, plans, r, check)
  {
    hide StatesRequirement, ProofValid, AllRuns, LastRunOf, LogOf;
    assert ItemAligned(norm, plans, r);
    assert CheckCovered(norm, plans, r, check);
    var np :| np in plans && StatesRequirement(np.plan, r) && ExecutedBy(norm, np.plan, r, check);
    var s, c :| s in np.plan.steps && r.id in s.covers && c in s.verify && norm(c) == norm(check);
    var order :| ProofValid(norm, true, log, np.plan, np.name, world, order);
    CreditedStepPassed(norm, runs, log, np, world, order, s, c);
    SameNormal(norm, runs, np, s, c, check);
    assert Evidences(norm, runs, np, s, r, check);
  }

  lemma SameNormal(norm: Check -> Check, runs: seq<Run>, np: NamedPlan, s: Step, c: Check, check: Check)
    requires PassedIn(norm, runs, np, s, c) && norm(c) == norm(check)
    ensures PassedIn(norm, runs, np, s, check)
  {
    var run := LastRunOf(runs, np.name);
    var rec :| rec in run.value.records && RecordsPass(norm, rec, np.name, s.id, c);
    assert RecordsPass(norm, rec, np.name, s.id, check);
  }
}

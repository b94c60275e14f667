/** The sealed plan contract and the check that a later plan only strengthens it
    (supervisor/sealing.py, scripts/contract.py). */
module Sealing {
  import opened Sequences
  import opened Text
  import opened Plans
  import opened PlanGraph

  /** The `traffic` block: the allowed hosts and whatever else it holds. */
  datatype Traffic = Traffic(allowedHosts: seq<string>, rest: string)

  /** A plan as the seal sees it. `requiredTools` is None when it is written as null. */
  datatype Document = Document(task: string, requirements: seq<Requirement>, requiredTools: Option<seq<string>>,
                               steps: seq<Step>, traffic: Option<Traffic>)

  // -------------------------------------------------- the contract and its hash

  function ContractedStep(step: Step, deps: Graph): Step {
    if step.id in deps then step.(dependsOn := Some(deps[step.id])) else step
  }

  /** The effective graph; empty when the plan has none. */
  function GraphOrEmpty(steps: seq<Step>): Graph {
    match EffectiveDependencies(steps) case Ok(g) => g case Err => map[]
  }

  function ContractedSteps(steps: seq<Step>): (r: seq<Step>)
    ensures |r| == |steps|
  {
    seq(|steps|, i requires 0 <= i < |steps| => ContractedStep(steps[i], GraphOrEmpty(steps)))
  }

  function Contracted(d: Document): Document {
    d.(steps := ContractedSteps(d.steps))
  }

  /** `contract_plan`. */
  method ContractPlan(d: Document) returns (r: Document)
    ensures r == Contracted(d)
  {
    var deps := GraphOrEmpty(d.steps);
    var steps: seq<Step> := [];
    for k := 0 to |d.steps|
      invariant steps == ContractedSteps(d.steps)[..k]
    {
      var contracted := d.steps[k];
      if contracted.id in deps {
        contracted := contracted.(dependsOn := Some(deps[contracted.id]));
      }
      steps := steps + [contracted];
    }
    r := d.(steps := steps);
  }

  lemma ContractedShape(steps: seq<Step>)
    ensures StepIds(ContractedSteps(steps)) == StepIds(steps)
    ensures forall i :: 0 <= i < |steps| ==> DeclaredDeps(ContractedSteps(steps)[i]) == DeclaredDeps(steps[i])
    ensures forall i :: 0 <= i < |steps| ==> ContractedSteps(steps)[i] == steps[i].(dependsOn := ContractedSteps(steps)[i].dependsOn)
    ensures EffectiveDependencies(steps).Err? ==> ContractedSteps(steps) == steps
    ensures EffectiveDependencies(steps).Ok? ==> forall i :: 0 <= i < |steps| ==> ContractedSteps(steps)[i].dependsOn.Some?
  {
    if EffectiveDependencies(steps).Ok? {
      GraphEntries(steps);
      assert forall i :: 0 <= i < |steps| ==> steps[i] in steps;
    }
  }

  lemma {:induction false} SameDepsSameGraph(a: seq<Step>, b: seq<Step>)
    requires StepIds(a) == StepIds(b) && |a| == |b|
    requires forall i :: 0 <= i < |a| ==> DeclaredDeps(a[i]) == DeclaredDeps(b[i])
    ensures GraphOf(a) == GraphOf(b)
  {
    if a != [] {
      var n := |a| - 1;
      assert StepIds(a[..n]) == StepIds(a)[..n] && StepIds(b[..n]) == StepIds(b)[..n];
      SameDepsSameGraph(a[..n], b[..n]);
      assert StepIds(a)[n] == StepIds(b)[n];
    }
  }

  /** Writing out the effective dependencies a second time changes nothing. */
  lemma ContractIdempotent(d: Document)
    ensures Contracted(Contracted(d)) == Contracted(d)
  {
    var once := ContractedSteps(d.steps);
    ContractedShape(d.steps);
    if EffectiveDependencies(d.steps).Ok? {
      assert StepIds(once) == StepIds(d.steps);
      forall s | s in once ensures s.id >= 1 && s.dependsOn.Some? && DepsAccepted(DeclaredDeps(s), s.id, StepIds(once)) {
        var i :| 0 <= i < |once| && once[i] == s;
        assert d.steps[i] in d.steps;
      }
      SameDepsSameGraph(d.steps, once);
      ContractedShape(once);
      assert ContractedSteps(once) == once by {
        GraphEntries(once);
        forall i | 0 <= i < |once| ensures ContractedSteps(once)[i] == once[i] {
          assert once[i] in once;
        }
      }
    }
  }

  /** SHA-256 of canonical JSON: two digests agree only on equal contracts. */
  datatype Hash = Sha(contract: Document)

  datatype Seal = Seal(planHash: Hash, criteriaCount: int, task: string, requirements: seq<Requirement>,
                       requiredTools: Option<seq<string>>, steps: seq<Step>, traffic: Option<Traffic>)

  function OutputChecks(outputs: seq<Output>): int {
    if outputs == [] then 0 else OutputChecks(outputs[..|outputs| - 1]) + |outputs[|outputs| - 1].verify|
  }

  function CriteriaCount(steps: seq<Step>): int {
    if steps == [] then 0
    else
      var last := steps[|steps| - 1];
      CriteriaCount(steps[..|steps| - 1]) + |last.verify| + OutputChecks(last.outputs)
  }

  /** `seal_plan`. */
  function SealPlan(d: Document): Seal {
    var c := Contracted(d);
    Seal(Sha(c), CriteriaCount(c.steps), c.task, c.requirements, c.requiredTools, c.steps, c.traffic)
  }

  function ListedTools(d: Option<seq<string>>): seq<string> {
    match d case None => [] case Some(tools) => tools
  }

  /** `Seal.as_plan`: null tools come back as an empty list. */
  function AsPlan(s: Seal): Document {
    Document(s.task, s.requirements, Some(ListedTools(s.requiredTools)), s.steps, s.traffic)
  }

  /** `_validate_seal_self_consistency`, format 4. */
  predicate SelfConsistent(s: Seal) {
    s.planHash == Sha(Contracted(AsPlan(s))) && s.criteriaCount == CriteriaCount(AsPlan(s).steps)
  }

  /** A fresh seal passes its own hash check exactly when the plan does not write its tools as null. */
  lemma FreshSealConsistentExactly(d: Document)
    ensures SelfConsistent(SealPlan(d)) <==> d.requiredTools.Some?
  {
    ContractIdempotent(d);
    var again := AsPlan(SealPlan(d));
    assert Contracted(again).steps == Contracted(Contracted(d)).steps;
  }

  /** No field of the contract can change under a kept hash. */
  lemma HashBindsContract(s: Seal, t: Seal)
    requires SelfConsistent(s) && SelfConsistent(t) && s.planHash == t.planHash
    ensures Contracted(AsPlan(s)) == Contracted(AsPlan(t)) && s.criteriaCount == t.criteriaCount
  {
    CountIgnoresDeps(s.steps);
    CountIgnoresDeps(t.steps);
  }

  lemma {:induction false} CountIgnoresDeps(steps: seq<Step>)
    ensures CriteriaCount(ContractedSteps(steps)) == CriteriaCount(steps)
  {
    ContractedShape(steps);
    SameChecksSameCount(steps, ContractedSteps(steps));
  }

  lemma {:induction false} SameChecksSameCount(a: seq<Step>, b: seq<Step>)
    requires |a| == |b| && forall i :: 0 <= i < |a| ==> a[i].verify == b[i].verify && a[i].outputs == b[i].outputs
    ensures CriteriaCount(a) == CriteriaCount(b)
  {
    if a != [] {
      SameChecksSameCount(a[..|a| - 1], b[..|b| - 1]);
    }
  }

  // -------------------------------------------------- the number of criteria

  lemma {:induction false} CriteriaConcat(a: seq<Step>, b: seq<Step>)
    ensures CriteriaCount(a + b) == CriteriaCount(a) + CriteriaCount(b)
    decreases |b|
  {
    if b == [] {
      assert a + b == a;
    } else {
      assert (a + b)[..|a + b| - 1] == a + b[..|b| - 1];
      CriteriaConcat(a, b[..|b| - 1]);
    }
  }

  lemma {:induction false} OutputConcat(a: seq<Output>, b: seq<Output>)
    ensures OutputChecks(a + b) == OutputChecks(a) + OutputChecks(b)
    decreases |b|
  {
    if b == [] {
      assert a + b == a;
    } else {
      assert (a + b)[..|a + b| - 1] == a + b[..|b| - 1];
      OutputConcat(a, b[..|b| - 1]);
    }
  }

  /** One check more, of any step or of any output of any step, is one criterion more. */
  lemma EveryCheckCounts(steps: seq<Step>, i: nat, c: Check)
    requires i < |steps|
    ensures CriteriaCount(steps[i := steps[i].(verify := steps[i].verify + [c])]) == CriteriaCount(steps) + 1
    ensures forall j :: 0 <= j < |steps[i].outputs| ==> CriteriaCount(steps[i := MoreOutput(steps[i], j, c)]) == CriteriaCount(steps) + 1
  {
    StepCount(steps, i, steps[i].(verify := steps[i].verify + [c]));
    forall j | 0 <= j < |steps[i].outputs| ensures CriteriaCount(steps[i := MoreOutput(steps[i], j, c)]) == CriteriaCount(steps) + 1 {
      StepCount(steps, i, MoreOutput(steps[i], j, c));
      OutputCount(steps[i].outputs, j, c);
    }
  }

  /** A plan without checks has no criteria. */
  lemma {:induction false} NoChecksNoCriteria(steps: seq<Step>)
    requires forall i :: 0 <= i < |steps| ==> steps[i].verify == [] && forall j :: 0 <= j < |steps[i].outputs| ==> steps[i].outputs[j].verify == []
    ensures CriteriaCount(steps) == 0
  {
    if steps != [] {
      NoChecksNoCriteria(steps[..|steps| - 1]);
      NoOutputChecks(steps[|steps| - 1].outputs);
    }
  }

  lemma {:induction false} NoOutputChecks(outputs: seq<Output>)
    requires forall j :: 0 <= j < |outputs| ==> outputs[j].verify == []
    ensures OutputChecks(outputs) == 0
  {
    if outputs != [] { NoOutputChecks(outputs[..|outputs| - 1]); }
  }

  function MoreOutput(s: Step, j: nat, c: Check): Step
    requires j < |s.outputs|
  {
    s.(outputs := s.outputs[j := s.outputs[j].(verify := s.outputs[j].verify + [c])])
  }

  lemma StepCount(steps: seq<Step>, i: nat, s: Step)
    requires i < |steps|
    ensures CriteriaCount(steps[i := s]) - CriteriaCount(steps)
      == |s.verify| + OutputChecks(s.outputs) - |steps[i].verify| - OutputChecks(steps[i].outputs)
  {
    assert steps == steps[..i] + [steps[i]] + steps[i + 1..] && steps[i := s] == steps[..i] + [s] + steps[i + 1..];
    CriteriaConcat(steps[..i] + [steps[i]], steps[i + 1..]);
    CriteriaConcat(steps[..i] + [s], steps[i + 1..]);
    assert (steps[..i] + [steps[i]])[..i] == steps[..i] && (steps[..i] + [s])[..i] == steps[..i];
  }

  lemma OutputCount(outputs: seq<Output>, j: nat, c: Check)
    requires j < |outputs|
    ensures OutputChecks(outputs[j := outputs[j].(verify := outputs[j].verify + [c])]) == OutputChecks(outputs) + 1
  {
    var o := outputs[j].(verify := outputs[j].verify + [c]);
    assert outputs == outputs[..j] + [outputs[j]] + outputs[j + 1..] && outputs[j := o] == outputs[..j] + [o] + outputs[j + 1..];
    OutputConcat(outputs[..j] + [outputs[j]], outputs[j + 1..]);
    OutputConcat(outputs[..j] + [o], outputs[j + 1..]);
    assert (outputs[..j] + [outputs[j]])[..j] == outputs[..j] && (outputs[..j] + [o])[..j] == outputs[..j];
  }

  // -------------------------------------------------- multisets

  function RemoveFirst<T(==)>(s: seq<T>, x: T): (r: seq<T>)
    requires x in s
    ensures multiset(s) == multiset(r) + multiset{x}
  {
    if s[0] == x then
      assert s == [x] + s[1..];
      s[1..]
    else
      assert s == [s[0]] + s[1..];
      [s[0]] + RemoveFirst(s[1..], x)
  }

  /** `_multiset_contains`. */
  method MultisetContains<T(==)>(before: seq<T>, after: seq<T>) returns (r: bool)
    ensures r <==> multiset(before) <= multiset(after)
  {
    var remaining := after;
    for k := 0 to |before|
      invariant multiset(after) == multiset(before[..k]) + multiset(remaining)
    {
      assert before[..k + 1] == before[..k] + [before[k]];
      if before[k] !in remaining {
        assert multiset(before)[before[k]] > multiset(after)[before[k]] by {
          assert before == before[..k] + [before[k]] + before[k + 1..];
          assert multiset(remaining)[before[k]] == 0;
        }
        return false;
      }
      remaining := RemoveFirst(remaining, before[k]);
    }
    assert before[..|before|] == before;
    return true;
  }

  predicate SameMultiset<T(==)>(a: seq<T>, b: seq<T>) {
    |a| == |b| && multiset(a) <= multiset(b)
  }

  /** Equal length and containment is equality of multisets. */
  lemma SameMultisetExactly<T>(a: seq<T>, b: seq<T>)
    ensures SameMultiset(a, b) <==> multiset(a) == multiset(b)
  {
    if SameMultiset(a, b) {
      assert multiset(b) == multiset(a) + (multiset(b) - multiset(a));
    }
    if multiset(a) == multiset(b) {
      assert |a| == |multiset(a)| && |b| == |multiset(b)|;
    }
  }

  // -------------------------------------------------- strengthening

  /** The dictionary from ids to steps: the last step of an id wins. */
  function StepMap(steps: seq<Step>): (r: map<int, Step>)
    ensures forall id :: id in r <==> id in StepIds(steps)
    ensures forall id :: id in r ==> r[id].id == id
  {
    if steps == [] then map[]
    else
      var n := |steps| - 1;
      assert StepIds(steps) == StepIds(steps[..n]) + [steps[n].id];
      StepMap(steps[..n])[steps[n].id := steps[n]]
  }

  function OutputMap(outputs: seq<Output>): (r: map<string, Output>)
    ensures forall name :: name in r <==> exists i :: 0 <= i < |outputs| && outputs[i].name == name
  {
    if outputs == [] then map[]
    else
      var n := |outputs| - 1;
      assert forall i :: 0 <= i < n ==> outputs[i] == outputs[..n][i];
      OutputMap(outputs[..n])[outputs[n].name := outputs[n]]
  }

  datatype StepFault = Title | Checks | Dependencies | RequiredOutputs | Coverage | OutputScope
    | OutputMeta(name: string) | OutputVerify(name: string)

  datatype Violation = StepScope | Removed(id: int) | InStep(id: int, fault: StepFault)
    | Task | Requirements | Tools | TrafficScope

  datatype StepGain = MoreChecks | MoreDependencies | MoreRequired | MoreOutputChecks(name: string)

  datatype Improvement = Gain(id: int, gain: StepGain)

  predicate Lost<T(==)>(before: seq<T>, after: seq<T>) {
    !(multiset(before) <= multiset(after))
  }

  predicate Grew<T(==)>(before: seq<T>, after: seq<T>) {
    !Lost(before, after) && |after| > |before|
  }

  predicate StepViolates(s: Step, t: Step, fault: StepFault) {
    var ours, theirs := OutputMap(s.outputs), OutputMap(t.outputs);
    match fault
    case Title => s.title != t.title
    case Checks => Lost(s.verify, t.verify)
    case Dependencies => Lost(DeclaredDeps(s), DeclaredDeps(t))
    case RequiredOutputs => Lost(s.requiresOutputs, t.requiresOutputs)
    case Coverage => multiset(s.covers) != multiset(t.covers)
    case OutputScope => ours.Keys != theirs.Keys
    case OutputMeta(name) => name in ours && name in theirs && ours[name].meta != theirs[name].meta
    case OutputVerify(name) => name in ours && name in theirs && Lost(ours[name].verify, theirs[name].verify)
  }

  predicate StepImproves(s: Step, t: Step, gain: StepGain) {
    var ours, theirs := OutputMap(s.outputs), OutputMap(t.outputs);
    match gain
    case MoreChecks => Grew(s.verify, t.verify)
    case MoreDependencies => Grew(DeclaredDeps(s), DeclaredDeps(t))
    case MoreRequired => Grew(s.requiresOutputs, t.requiresOutputs)
    case MoreOutputChecks(name) => name in ours && name in theirs && Grew(ours[name].verify, theirs[name].verify)
  }

  function Lower(s: string): string {
    if s == [] then [] else [if 'A' <= s[0] <= 'Z' then s[0] + 32 as char else s[0]] + Lower(s[1..])
  }

  /** `_traffic_scope`: the host set, whatever its order, case and spacing. */
  function Scope(t: Option<Traffic>): Option<(set<string>, string)> {
    match t
    case None => None
    case Some(x) => Some((set h | h in x.allowedHosts :: Lower(Strip(h)), x.rest))
  }

  predicate Violates(before: Document, after: Document, v: Violation) {
    var ours, theirs := StepMap(before.steps), StepMap(after.steps);
    match v
    case StepScope => StepIds(before.steps) != StepIds(after.steps)
    case Removed(id) => id in ours && id !in theirs
    case InStep(id, fault) => id in ours && id in theirs && StepViolates(ours[id], theirs[id], fault)
    case Task => before.task != after.task
    case Requirements => multiset(before.requirements) != multiset(after.requirements)
    case Tools => multiset(ListedTools(before.requiredTools)) != multiset(ListedTools(after.requiredTools))
    case TrafficScope => Scope(before.traffic) != Scope(after.traffic)
  }

  predicate Improves(before: Document, after: Document, m: Improvement) {
    var ours, theirs := StepMap(before.steps), StepMap(after.steps);
    m.id in ours && m.id in theirs && StepImproves(ours[m.id], theirs[m.id], m.gain)
  }

  method CompareLists<T(==)>(before: seq<T>, after: seq<T>) returns (lost: bool, grew: bool)
    ensures lost == Lost(before, after) && grew == Grew(before, after) && !(lost && grew)
  {
    var contained := MultisetContains(before, after);
    lost, grew := !contained, contained && |after| > |before|;
  }

  /** The output part of one step's comparison. */
  method CheckOutputs(s: Step, t: Step) returns (faults: seq<StepFault>, gains: seq<StepGain>)
    ensures forall v :: v in faults <==> (v.OutputMeta? || v.OutputVerify?) && StepViolates(s, t, v)
    ensures forall m :: m in gains <==> m.MoreOutputChecks? && StepImproves(s, t, m)
  {
    hide OutputMap, Lost, Grew;
    faults, gains := [], [];
    var ours, theirs := OutputMap(s.outputs), OutputMap(t.outputs);
    for k := 0 to |s.outputs|
      invariant forall v :: v in faults <==>
        (v.OutputMeta? || v.OutputVerify?) && v.name in OutputNames(s)[..k] && StepViolates(s, t, v)
      invariant forall m :: m in gains <==> m.MoreOutputChecks? && m.name in OutputNames(s)[..k] && StepImproves(s, t, m)
    {
      var name := s.outputs[k].name;
      assert OutputNames(s)[..k + 1] == OutputNames(s)[..k] + [name];
      if name in theirs && name !in OutputNames(s)[..k] {
        if ours[name].meta != theirs[name].meta {
          faults := faults + [OutputMeta(name)];
        }
        var lost, grew := CompareLists(ours[name].verify, theirs[name].verify);
        if lost {
          faults := faults + [OutputVerify(name)];
        } else if grew {
          gains := gains + [MoreOutputChecks(name)];
        }
      }
    }
    assert OutputNames(s)[..|s.outputs|] == OutputNames(s);
    forall name | name in ours ensures name in OutputNames(s) {
      var i :| 0 <= i < |s.outputs| && s.outputs[i].name == name;
      assert OutputNames(s)[i] == name;
    }
  }

  /** The three lists that may only grow. */
  method CheckGrowingLists(s: Step, t: Step) returns (faults: seq<StepFault>, gains: seq<StepGain>)
    ensures forall v :: v in faults <==> (v.Checks? || v.Dependencies? || v.RequiredOutputs?) && StepViolates(s, t, v)
    ensures forall m :: m in gains <==> !m.MoreOutputChecks? && StepImproves(s, t, m)
  {
    hide OutputMap, Lost, Grew, DeclaredDeps;
    faults, gains := [], [];
    var lost, grew := CompareLists(s.verify, t.verify);
    if lost {
      faults := faults + [Checks];
    } else if grew {
      gains := gains + [MoreChecks];
    }
    lost, grew := CompareLists(DeclaredDeps(s), DeclaredDeps(t));
    if lost {
      faults := faults + [Dependencies];
    } else if grew {
      gains := gains + [MoreDependencies];
    }
    lost, grew := CompareLists(s.requiresOutputs, t.requiresOutputs);
    if lost {
      faults := faults + [RequiredOutputs];
    } else if grew {
      gains := gains + [MoreRequired];
    }
  }

  /** One step of the sealed plan against the step with the same id. */
  method CheckStep(s: Step, t: Step) returns (faults: seq<StepFault>, gains: seq<StepGain>)
    ensures forall v :: v in faults <==> StepViolates(s, t, v)
    ensures forall m :: m in gains <==> StepImproves(s, t, m)
  {
    hide OutputMap, Lost, Grew, DeclaredDeps;
    faults, gains := CheckGrowingLists(s, t);
    if s.title != t.title {
      faults := [Title] + faults;
    }
    var contained := MultisetContains(s.covers, t.covers);
    SameMultisetExactly(s.covers, t.covers);
    if !(|s.covers| == |t.covers| && contained) {
      faults := faults + [Coverage];
    }
    if OutputMap(s.outputs).Keys != OutputMap(t.outputs).Keys {
      faults := faults + [OutputScope];
    }
    var outputFaults, outputGains := CheckOutputs(s, t);
    faults, gains := faults + outputFaults, gains + outputGains;
  }

  function InSteps(id: int, faults: seq<StepFault>): (r: seq<Violation>)
    ensures forall v :: v in r <==> v.InStep? && v.id == id && v.fault in faults
  {
    var r := seq(|faults|, i requires 0 <= i < |faults| => InStep(id, faults[i]));
    assert forall i :: 0 <= i < |faults| ==> r[i] == InStep(id, faults[i]);
    r
  }

  function Gains(id: int, gains: seq<StepGain>): (r: seq<Improvement>)
    ensures forall m :: m in r <==> m.id == id && m.gain in gains
  {
    var r := seq(|gains|, i requires 0 <= i < |gains| => Gain(id, gains[i]));
    assert forall i :: 0 <= i < |gains| ==> r[i] == Gain(id, gains[i]);
    r
  }

  /** The per-step part of `check_monotonic`. */
  method CheckSteps(before: Document, after: Document) returns (violations: seq<Violation>, improvements: seq<Improvement>)
    ensures forall v :: v in violations <==> (v.Removed? || v.InStep?) && Violates(before, after, v)
    ensures forall m :: m in improvements <==> Improves(before, after, m)
  {
    hide StepMap, StepViolates, StepImproves, OutputMap, Scope;
    violations, improvements := [], [];
    var ids := StepIds(before.steps);
    var ours, theirs := StepMap(before.steps), StepMap(after.steps);
    for k := 0 to |ids|
      invariant forall v :: v in violations <==> (v.Removed? || v.InStep?) && v.id in ids[..k] && Violates(before, after, v)
      invariant forall m :: m in improvements <==> m.id in ids[..k] && Improves(before, after, m)
    {
      var id := ids[k];
      assert ids[..k + 1] == ids[..k] + [id];
      if id !in ids[..k] {
        if id !in theirs {
          violations := violations + [Removed(id)];
        } else {
          var faults, gains := CheckStep(ours[id], theirs[id]);
          violations := violations + InSteps(id, faults);
          improvements := improvements + Gains(id, gains);
        }
      }
    }
    assert ids[..|ids|] == ids;
  }

  /** `check_monotonic`: reports exactly the violations and the improvements there are. */
  method CheckMonotonic(before: Document, after: Document) returns (violations: seq<Violation>, improvements: seq<Improvement>)
    ensures forall v :: v in violations <==> Violates(before, after, v)
    ensures forall m :: m in improvements <==> Improves(before, after, m)
  {
    hide StepMap, StepViolates, Improves, Scope;
    violations, improvements := CheckSteps(before, after);
    if StepIds(after.steps) != StepIds(before.steps) {
      violations := [StepScope] + violations;
    }
    if before.task != after.task {
      violations := violations + [Task];
    }
    var contained := MultisetContains(before.requirements, after.requirements);
    SameMultisetExactly(before.requirements, after.requirements);
    if !(|before.requirements| == |after.requirements| && contained) {
      violations := violations + [Requirements];
    }
    var tools, laterTools := ListedTools(before.requiredTools), ListedTools(after.requiredTools);
    contained := MultisetContains(tools, laterTools);
    SameMultisetExactly(tools, laterTools);
    if !(|tools| == |laterTools| && contained) {
      violations := violations + [Tools];
    }
    if Scope(before.traffic) != Scope(after.traffic) {
      violations := violations + [TrafficScope];
    }
  }

  /** An unchanged plan gains nothing. */
  lemma NoGainWithoutChange(d: Document, m: Improvement)
    ensures !Improves(d, d, m)
  {
    hide StepMap, OutputMap;
  }

  // -------------------------------------------------- the outbound traffic

  /** The host is allowed, whatever its case and the white space around it. */
  ghost predicate Allows(t: Traffic, host: string) {
    exists h :: h in t.allowedHosts && Lower(Strip(h)) == Lower(Strip(host))
  }

  lemma {:induction false} LowerExactly(s: string, k: nat)
    requires k < |s|
    ensures |Lower(s)| == |s| && Lower(s)[k] == if 'A' <= s[k] <= 'Z' then s[k] + 32 as char else s[k]
  {
    if |s| > 1 { LowerExactly(s[1..], if k > 0 then k - 1 else 0); }
  }

  /** The traffic scope is violated exactly when the block appears or goes, a host is allowed by only one of the two plans,
      or anything else in the block changes; order, case, spacing and repetition of hosts never matter. */
  lemma TrafficExactly(before: Document, after: Document)
    ensures Violates(before, after, TrafficScope) <==>
      match (before.traffic, after.traffic)
      case (None, None) => false
      case (Some(x), Some(y)) => x.rest != y.rest || exists host :: Allows(x, host) != Allows(y, host)
      case _ => true
  {
    hide StepMap, Strip, Lower;
    if before.traffic.Some? && after.traffic.Some? {
      var x, y := before.traffic.value, after.traffic.value;
      var ours, theirs := Scope(before.traffic).value.0, Scope(after.traffic).value.0;
      forall host ensures Allows(x, host) <==> Lower(Strip(host)) in ours {
      }
      forall host ensures Allows(y, host) <==> Lower(Strip(host)) in theirs {
      }
      if ours != theirs {
        HostDiffers(x, y, ours, theirs);
      }
    }
  }

  lemma HostDiffers(x: Traffic, y: Traffic, ours: set<string>, theirs: set<string>)
    requires ours == (set h | h in x.allowedHosts :: Lower(Strip(h))) && theirs == (set h | h in y.allowedHosts :: Lower(Strip(h)))
    requires ours != theirs
    ensures exists host :: Allows(x, host) != Allows(y, host)
  {
    hide Strip, Lower;
    if name :| name in ours && name !in theirs {
      var h :| h in x.allowedHosts && Lower(Strip(h)) == name;
      assert Allows(x, h) && !Allows(y, h);
    } else {
      var name :| name in theirs && name !in ours;
      var h :| h in y.allowedHosts && Lower(Strip(h)) == name;
      assert Allows(y, h) && !Allows(x, h);
    }
  }

  /** `check_monotonic` passes. */
  ghost predicate Passes(before: Document, after: Document) {
    forall v :: !Violates(before, after, v)
  }

  // -------------------------------------------------- a preorder on plans

  ghost predicate StepStrengthens(s: Step, t: Step) {
    var ours, theirs := OutputMap(s.outputs), OutputMap(t.outputs);
    && s.title == t.title && multiset(s.covers) == multiset(t.covers) && ours.Keys == theirs.Keys
    && multiset(s.verify) <= multiset(t.verify)
    && multiset(DeclaredDeps(s)) <= multiset(DeclaredDeps(t))
    && multiset(s.requiresOutputs) <= multiset(t.requiresOutputs)
    && forall name :: name in ours ==> ours[name].meta == theirs[name].meta
                                       && multiset(ours[name].verify) <= multiset(theirs[name].verify)
  }

  ghost predicate Strengthens(before: Document, after: Document) {
    && StepIds(before.steps) == StepIds(after.steps) && before.task == after.task
    && multiset(before.requirements) == multiset(after.requirements)
    && multiset(ListedTools(before.requiredTools)) == multiset(ListedTools(after.requiredTools))
    && Scope(before.traffic) == Scope(after.traffic)
    && StepMap(before.steps).Keys == StepMap(after.steps).Keys
    && forall id :: id in StepMap(before.steps) ==> StepStrengthens(StepMap(before.steps)[id], StepMap(after.steps)[id])
  }

  lemma NoStepFault(s: Step, t: Step)
    ensures (forall fault :: !StepViolates(s, t, fault)) <==> StepStrengthens(s, t)
  {
    hide OutputMap;
    if forall fault :: !StepViolates(s, t, fault) {
      assert !StepViolates(s, t, Title) && !StepViolates(s, t, Checks) && !StepViolates(s, t, Dependencies);
      assert !StepViolates(s, t, RequiredOutputs) && !StepViolates(s, t, Coverage) && !StepViolates(s, t, OutputScope);
      forall name | name in OutputMap(s.outputs)
        ensures OutputMap(s.outputs)[name].meta == OutputMap(t.outputs)[name].meta
        ensures multiset(OutputMap(s.outputs)[name].verify) <= multiset(OutputMap(t.outputs)[name].verify)
      {
        assert !StepViolates(s, t, OutputMeta(name)) && !StepViolates(s, t, OutputVerify(name));
      }
    }
  }

  lemma PassesExactly(before: Document, after: Document)
    ensures Passes(before, after) <==> Strengthens(before, after)
  {
    hide StepMap, StepViolates, StepStrengthens;
    var ours, theirs := StepMap(before.steps), StepMap(after.steps);
    if Passes(before, after) {
      assert !Violates(before, after, StepScope) && !Violates(before, after, Task) && !Violates(before, after, Requirements);
      assert !Violates(before, after, Tools) && !Violates(before, after, TrafficScope);
      forall id | id in ours ensures StepStrengthens(ours[id], theirs[id]) {
        assert !Violates(before, after, Removed(id));
        forall fault ensures !StepViolates(ours[id], theirs[id], fault) {
          assert !Violates(before, after, InStep(id, fault));
        }
        NoStepFault(ours[id], theirs[id]);
      }
    }
    if Strengthens(before, after) {
      forall v ensures !Violates(before, after, v) {
        if v.InStep? && v.id in ours {
          NoStepFault(ours[v.id], theirs[v.id]);
        }
      }
    }
  }

  lemma StrengtheningComposes(a: Document, b: Document, c: Document)
    requires Passes(a, b) && Passes(b, c)
    ensures Passes(a, c)
  {
    hide StepMap, StepStrengthens, Scope, Passes;
    PassesExactly(a, b);
    PassesExactly(b, c);
    forall id | id in StepMap(a.steps) ensures StepStrengthens(StepMap(a.steps)[id], StepMap(c.steps)[id]) {
      StepComposes(StepMap(a.steps)[id], StepMap(b.steps)[id], StepMap(c.steps)[id]);
    }
    PassesExactly(a, c);
  }

  lemma StepComposes(s: Step, t: Step, u: Step)
    requires StepStrengthens(s, t) && StepStrengthens(t, u)
    ensures StepStrengthens(s, u)
  {
    hide OutputMap, DeclaredDeps;
  }

  lemma StrengtheningReflexive(d: Document)
    ensures Passes(d, d)
  {
    PassesExactly(d, d);
  }

  lemma {:induction false} ContractKeepsStepMap(steps: seq<Step>, after: seq<Step>)
    requires |after| == |steps| && StepIds(after) == StepIds(steps)
    requires forall i :: 0 <= i < |steps| ==> after[i] == steps[i].(dependsOn := after[i].dependsOn)
    requires forall i :: 0 <= i < |steps| ==> DeclaredDeps(after[i]) == DeclaredDeps(steps[i])
    ensures StepMap(steps).Keys == StepMap(after).Keys
    ensures forall id :: id in StepMap(steps) ==>
      StepStrengthens(StepMap(steps)[id], StepMap(after)[id]) && StepStrengthens(StepMap(after)[id], StepMap(steps)[id])
  {
    if steps != [] {
      var n := |steps| - 1;
      assert StepIds(steps[..n]) == StepIds(steps)[..n] && StepIds(after[..n]) == StepIds(after)[..n];
      ContractKeepsStepMap(steps[..n], after[..n]);
      assert StepIds(steps)[n] == StepIds(after)[n];
      assert after[n] == steps[n].(dependsOn := after[n].dependsOn);
    }
  }

  /** A plan and its own seal accept each other, so passing a seal is passing the plan that was sealed. */
  lemma OwnSealPasses(d: Document)
    ensures Passes(AsPlan(SealPlan(d)), d) && Passes(d, AsPlan(SealPlan(d)))
  {
    hide StepMap, StepStrengthens, ContractedSteps, Scope, CriteriaCount, Passes;
    var sealed := AsPlan(SealPlan(d));
    assert sealed.steps == ContractedSteps(d.steps);
    ContractedShape(d.steps);
    ContractKeepsStepMap(d.steps, sealed.steps);
    PassesExactly(sealed, d);
    PassesExactly(d, sealed);
  }

  /** Each plan passes against the seal of the one before it. */
  ghost predicate AcceptedChain(plans: seq<Document>) {
    forall i :: 0 < i < |plans| ==> Passes(AsPlan(SealPlan(plans[i - 1])), plans[i])
  }

  /** Along any chain of resealed plans, the last one passes against the first. */
  lemma {:induction false} ChainPasses(plans: seq<Document>, i: nat, j: nat)
    requires AcceptedChain(plans) && i <= j < |plans|
    ensures Passes(plans[i], plans[j])
  {
    hide Passes;
    if i == j {
      StrengtheningReflexive(plans[i]);
    } else {
      ChainPasses(plans, i, j - 1);
      OwnSealPasses(plans[j - 1]);
      var sealed := AsPlan(SealPlan(plans[j - 1]));
      assert Passes(sealed, plans[j]) by {
        var k := j;
        assert 0 < k < |plans|;
      }
      StrengtheningComposes(plans[j - 1], sealed, plans[j]);
      StrengtheningComposes(plans[i], plans[j - 1], plans[j]);
    }
  }

  lemma {:induction false} StepMapOf(steps: seq<Step>, i: nat)
    requires Distinct(StepIds(steps)) && i < |steps|
    ensures steps[i].id in StepMap(steps) && StepMap(steps)[steps[i].id] == steps[i]
  {
    var n := |steps| - 1;
    assert StepIds(steps[..n]) == StepIds(steps)[..n];
    if i < n {
      StepMapOf(steps[..n], i);
      assert StepIds(steps)[i] != StepIds(steps)[n];
    }
  }

  /** Nothing a first plan with distinct ids demands is ever lost: step by step, every check with its
      multiplicity, every dependency and every required output is still there, and no step was added. */
  lemma ChainKeepsEverything(plans: seq<Document>, j: nat, i: nat)
    requires AcceptedChain(plans) && j < |plans| && Distinct(StepIds(plans[0].steps)) && i < |plans[0].steps|
    ensures |plans[j].steps| == |plans[0].steps|
    ensures var s, t := plans[0].steps[i], plans[j].steps[i];
      && s.id == t.id
      && multiset(s.verify) <= multiset(t.verify)
      && multiset(DeclaredDeps(s)) <= multiset(DeclaredDeps(t))
      && multiset(s.requiresOutputs) <= multiset(t.requiresOutputs)
      && OutputMap(s.outputs).Keys == OutputMap(t.outputs).Keys
      && forall name :: name in OutputMap(s.outputs) ==>
           multiset(OutputMap(s.outputs)[name].verify) <= multiset(OutputMap(t.outputs)[name].verify)
  {
    hide Passes, StepMap, OutputMap, Scope;
    ChainPasses(plans, 0, j);
    PassesExactly(plans[0], plans[j]);
    var first, last := plans[0].steps, plans[j].steps;
    assert |StepIds(first)| == |StepIds(last)|;
    assert StepIds(first)[i] == StepIds(last)[i];
    StepMapOf(first, i);
    StepMapOf(last, i);
    assert StepStrengthens(StepMap(first)[first[i].id], StepMap(last)[first[i].id]);
  }

  // -------------------------------------------------- why ids must be distinct

  lemma {:induction false} StepMapElsewhere(steps: seq<Step>, i: nat, w: Step)
    requires i < |steps| && w.id == steps[i].id
    ensures StepMap(steps[i := w]).Keys == StepMap(steps).Keys
    ensures forall id :: id in StepMap(steps) && id != w.id ==> StepMap(steps[i := w])[id] == StepMap(steps)[id]
  {
    hide StepMap, StepIds;
    var n := |steps| - 1;
    StepMapUnfold(steps);
    StepMapUnfold(steps[i := w]);
    if i < n {
      assert steps[i := w][..n] == steps[..n][i := w];
      StepMapElsewhere(steps[..n], i, w);
    } else {
      assert steps[i := w][..n] == steps[..n];
    }
  }

  lemma StepMapUnfold(steps: seq<Step>)
    requires steps != []
    ensures var n := |steps| - 1; StepMap(steps) == StepMap(steps[..n])[steps[n].id := steps[n]]
  {
  }

  lemma {:induction false} StepMapShadowed(steps: seq<Step>, i: nat, j: nat, w: Step)
    requires i < j < |steps| && steps[i].id == steps[j].id == w.id
    ensures StepMap(steps[i := w]) == StepMap(steps)
  {
    hide StepMap, StepIds;
    var n := |steps| - 1;
    if j < n {
      StepMapShadowed(steps[..n], i, j, w);
      ShadowStep(steps, i, w);
    } else {
      StepMapElsewhere(steps[..n], i, w);
      SameOnceSet(StepMap(steps[..n]), StepMap(steps[..n][i := w]), w.id, steps[n]);
      ShadowStep(steps, i, w);
    }
  }

  /** The last step is set last, in both lists. */
  lemma ShadowStep(steps: seq<Step>, i: nat, w: Step)
    requires i < |steps| - 1
    ensures var n := |steps| - 1;
      && StepMap(steps) == StepMap(steps[..n])[steps[n].id := steps[n]]
      && StepMap(steps[i := w]) == StepMap(steps[..n][i := w])[steps[n].id := steps[n]]
  {
    hide StepMap, StepIds;
    var n := |steps| - 1;
    StepMapUnfold(steps);
    StepMapUnfold(steps[i := w]);
    assert steps[i := w][..n] == steps[..n][i := w];
  }

  lemma SameOnceSet(a: map<int, Step>, b: map<int, Step>, id: int, s: Step)
    requires a.Keys == b.Keys && forall k :: k in a && k != id ==> a[k] == b[k]
    ensures a[id := s] == b[id := s]
  {
  }

  /** With a repeated id only its last step is compared: any earlier one can be replaced at will. */
  lemma RepeatedIdHidesLoss(d: Document, i: nat, j: nat, w: Step)
    requires i < j < |d.steps| && d.steps[i].id == d.steps[j].id == w.id
    ensures Passes(d, d.(steps := d.steps[i := w]))
  {
    var after := d.(steps := d.steps[i := w]);
    StepMapShadowed(d.steps, i, j, w);
    assert StepIds(after.steps) == StepIds(d.steps);
    PassesExactly(d, d);
    PassesExactly(d, after);
  }

  ghost predicate NothingLost(before: seq<Step>, after: seq<Step>) {
    |after| == |before| && forall i :: 0 <= i < |before| ==> before[i].id == after[i].id && StepStrengthens(before[i], after[i])
  }

  /** Distinct step ids are exactly what makes every accepted change lose nothing. */
  lemma DistinctIdsExactly(d: Document)
    ensures Distinct(StepIds(d.steps)) <==> forall e :: Passes(d, e) ==> NothingLost(d.steps, e.steps)
  {
    hide Passes, StepMap, OutputMap;
    if Distinct(StepIds(d.steps)) {
      forall e | Passes(d, e) ensures NothingLost(d.steps, e.steps) {
        PassesExactly(d, e);
        assert |StepIds(d.steps)| == |StepIds(e.steps)|;
        forall i | 0 <= i < |d.steps|
          ensures d.steps[i].id == e.steps[i].id && StepStrengthens(d.steps[i], e.steps[i])
        {
          assert StepIds(d.steps)[i] == StepIds(e.steps)[i];
          StepMapOf(d.steps, i);
          StepMapOf(e.steps, i);
        }
      }
    } else {
      var i, j :| 0 <= i < j < |d.steps| && StepIds(d.steps)[i] == StepIds(d.steps)[j];
      var w := d.steps[i].(title := d.steps[i].title + "!");
      var e := d.(steps := d.steps[i := w]);
      RepeatedIdHidesLoss(d, i, j, w);
      assert e.steps[i] == w && |w.title| == |d.steps[i].title| + 1;
      assert !StepStrengthens(d.steps[i], e.steps[i]);
    }
  }

  // -------------------------------------------------- schema-valid plans

  predicate ToolsValid(tools: Option<seq<string>>) {
    tools.Some? && forall t :: t in tools.value ==> Strip(t) != ""
  }

  /** What `validate_plan` demands of the parts of a plan that the seal covers. */
  ghost predicate SchemaValid(d: Document) {
    && Strip(d.task) != "" && ToolsValid(d.requiredTools)
    && d.steps != [] && Distinct(StepIds(d.steps))
    && (forall s :: s in d.steps ==> s.id >= 1 && Strip(s.title) != "" && s.verify != [])
    && LinksValid(d.steps)
  }

  /** A schema-valid plan: its fresh seal is self-consistent, it passes against that seal, and what passes loses nothing. */
  lemma SchemaValidSeal(d: Document, later: Document)
    requires SchemaValid(d) && Passes(AsPlan(SealPlan(d)), later)
    ensures SelfConsistent(SealPlan(d)) && Passes(AsPlan(SealPlan(d)), d)
    ensures Passes(d, later) && NothingLost(d.steps, later.steps)
  {
    hide Passes, SelfConsistent, LinksValid, StepMap, Strip;
    FreshSealConsistentExactly(d);
    OwnSealPasses(d);
    StrengtheningComposes(d, AsPlan(SealPlan(d)), later);
    DistinctIdsExactly(d);
  }
}

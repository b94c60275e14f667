/** The compiler from structured plans to STRIPS contracts, the contract parser, and why what
    is compiled always plans (supervisor/formal_compiler.py, supervisor/formal_planning.py). */
module Compiler {
  import opened Sequences
  import opened Text
  import opened Plans
  import opened PlanGraph
  import opened Planning

  const SOURCE_PREFIX := "formalization-source:"
  const STEP_PREFIX := "step-completed:"
  const OUTPUT_PREFIX := "output-available:"
  const REQUIREMENT_PREFIX := "requirement-satisfied:"
  const MAX_FACT_LEN := 256
  const MAX_FACTS := 4096
  const MAX_ACTIONS := 2048
  const FORMAL_EXECUTABLE := "plan-auditor-formal"
  const FORMALIZER_EXECUTABLE := "plan-auditor-formalize"

  /** SHA-256 and the character cleaning of output names, left abstract. */
  datatype Hashing = Hashing(source: Plan -> string, contract: RawContract -> string, cleaned: string -> string, digest: string -> string)

  // -------------------------------------------------- facts

  function StepFact(step: int): string { STEP_PREFIX + Numeral(step) }

  function OutputFact(h: Hashing, step: int, name: string): string {
    OUTPUT_PREFIX + (Numeral(step) + ":" + h.cleaned(name) + ":" + h.digest(name))
  }

  function RequirementFact(id: string): string { REQUIREMENT_PREFIX + Strip(id) }

  /** Completion facts of different steps differ. */
  lemma StepFactsDiffer(a: int, b: int)
    requires StepFact(a) == StepFact(b)
    ensures a == b
  {
    assert StepFact(a)[|STEP_PREFIX|..] == Numeral(a) && StepFact(b)[|STEP_PREFIX|..] == Numeral(b);
    NumeralInjective(a, b);
  }

  ghost predicate InjectiveOutputs(h: Hashing) {
    forall s, n, s', n' :: OutputFact(h, s, n) == OutputFact(h, s', n') ==> s == s' && n == n'
  }

  lemma PrefixesDiffer(a: string, b: string, c: string, d: string)
    ensures SOURCE_PREFIX + a != STEP_PREFIX + b && SOURCE_PREFIX + a != OUTPUT_PREFIX + c
    ensures SOURCE_PREFIX + a != REQUIREMENT_PREFIX + d && STEP_PREFIX + b != OUTPUT_PREFIX + c
    ensures STEP_PREFIX + b != REQUIREMENT_PREFIX + d && OUTPUT_PREFIX + c != REQUIREMENT_PREFIX + d
  {
    assert (SOURCE_PREFIX + a)[0] == 'f' && (STEP_PREFIX + b)[0] == 's';
    assert (OUTPUT_PREFIX + c)[0] == 'o' && (REQUIREMENT_PREFIX + d)[0] == 'r';
  }

  // -------------------------------------------------- the source projection

  predicate IsSemanticCheck(c: Check) {
    c.kind == "run" && c.argv.Some? && c.argv.value != [] && c.argv.value[0] == FORMALIZER_EXECUTABLE
  }

  predicate Generated(c: Check) {
    c.formal.Some? || IsSemanticCheck(c)
  }

  function KeepSource(verify: seq<Check>): seq<Check> {
    if verify == [] then []
    else KeepSource(verify[..|verify| - 1]) + if Generated(verify[|verify| - 1]) then [] else [verify[|verify| - 1]]
  }

  function ProjectStep(s: Step): Step {
    s.(title := "", dependsOn := Some(DeclaredDeps(s)), verify := KeepSource(s.verify))
  }

  /** `_source_projection`: exactly the plan data that drives compilation. */
  function SourceProjection(p: Plan): Plan {
    p.(requiredTools := [], steps := seq(|p.steps|, i requires 0 <= i < |p.steps| => ProjectStep(p.steps[i])))
  }

  function SourceFact(h: Hashing, p: Plan): string {
    SOURCE_PREFIX + h.source(SourceProjection(p))
  }

  // -------------------------------------------------- compile_contract

  predicate IsRequired(r: Requirement) {
    r.priority == "must" || r.priority == "should"
  }

  function RequirementIds(p: Plan): (r: seq<string>)
    ensures |r| == |p.requirements|
    ensures forall i :: 0 <= i < |r| ==> r[i] == Strip(p.requirements[i].id)
  {
    seq(|p.requirements|, i requires 0 <= i < |p.requirements| => Strip(p.requirements[i].id))
  }

  function Required(p: Plan): set<string> {
    set r | r in p.requirements && IsRequired(r) :: Strip(r.id)
  }

  predicate RequirementsAccepted(p: Plan) {
    && p.requirements != []
    && Distinct(RequirementIds(p))
    && forall r :: r in p.requirements ==>
         Strip(r.id) != "" && Strip(r.description) != "" && (IsRequired(r) || r.priority == "may")
  }

  function StrippedNames(s: Step): (r: seq<string>)
    ensures |r| == |s.outputs|
    ensures forall i :: 0 <= i < |r| ==> r[i] == Strip(s.outputs[i].name)
  {
    seq(|s.outputs|, i requires 0 <= i < |s.outputs| => Strip(s.outputs[i].name))
  }

  function StrippedCovers(s: Step): (r: seq<string>)
    ensures |r| == |s.covers|
    ensures forall i :: 0 <= i < |r| ==> r[i] == Strip(s.covers[i])
  {
    seq(|s.covers|, i requires 0 <= i < |s.covers| => Strip(s.covers[i]))
  }

  function OutputFacts(h: Hashing, s: Step): set<string> {
    set n | n in StrippedNames(s) :: OutputFact(h, s.id, n)
  }

  function RefFacts(h: Hashing, s: Step): set<string> {
    set r | r in s.requiresOutputs :: OutputFact(h, r.step, r.name)
  }

  function RequirementFacts(p: Plan, s: Step): set<string> {
    set c | c in StrippedCovers(s) && c in Required(p) :: RequirementFact(c)
  }

  function Adds(h: Hashing, p: Plan, s: Step): set<string> {
    {StepFact(s.id)} + OutputFacts(h, s) + RequirementFacts(p, s)
  }

  predicate ShortFacts(facts: set<string>) {
    forall f :: f in facts ==> |f| <= MAX_FACT_LEN
  }

  /** No `ValueError` while the step's action is compiled. */
  predicate StepAccepted(h: Hashing, p: Plan, s: Step) {
    && "" !in StrippedNames(s) && Distinct(StrippedNames(s))
    && ShortFacts(OutputFacts(h, s))
    && RefsAccepted(s) && ShortFacts(RefFacts(h, s))
    && "" !in StrippedCovers(s) && Distinct(StrippedCovers(s))
    && (forall c :: c in StrippedCovers(s) ==> c in RequirementIds(p))
    && ShortFacts(RequirementFacts(p, s))
    && forall d :: d in DeclaredDeps(s) ==> Linked(s, d)
  }

  function ActionOf(h: Hashing, p: Plan, s: Step): RawAction {
    RawAction(s.id, SortStrings({SourceFact(h, p)} + RefFacts(h, s)), SortStrings(Adds(h, p, s)), [])
  }

  function Covered(steps: seq<Step>): set<string> {
    set s, c | s in steps && c in StrippedCovers(s) :: c
  }

  function Goals(h: Hashing, p: Plan): set<string> {
    (set r | r in Required(p) :: RequirementFact(r)) + AllOutputFacts(h, p.steps) + AllStepFacts(p.steps)
  }

  function AllOutputFacts(h: Hashing, steps: seq<Step>): set<string> {
    set s, f | s in steps && f in OutputFacts(h, s) :: f
  }

  function AllStepFacts(steps: seq<Step>): set<string> {
    set s | s in steps :: StepFact(s.id)
  }

  predicate Accepted(h: Hashing, p: Plan) {
    && RequirementsAccepted(p) && Required(p) != {}
    && p.steps != [] && GraphAccepted(p.steps)
    && (forall s :: s in p.steps ==> StepAccepted(h, p, s))
    && Required(p) <= Covered(p.steps)
  }

  function Actions(h: Hashing, p: Plan): (r: seq<RawAction>)
    ensures |r| == |p.steps|
    ensures forall i :: 0 <= i < |r| ==> r[i] == ActionOf(h, p, p.steps[i])
  {
    seq(|p.steps|, i requires 0 <= i < |p.steps| => ActionOf(h, p, p.steps[i]))
  }

  /** What `compile_contract` returns, or Err where it raises. */
  function Compiled(h: Hashing, p: Plan): Result<RawContract> {
    if Accepted(h, p)
    then Ok(RawContract(1, [SourceFact(h, p)], SortStrings(Goals(h, p)), Actions(h, p)))
    else Err
  }

  // -------------------------------------------------- what a compiled contract contains

  ghost predicate DeclaresOutput(h: Hashing, s: Step, f: string) {
    exists o :: o in s.outputs && f == OutputFact(h, s.id, Strip(o.name))
  }

  ghost predicate RequiresOutput(h: Hashing, s: Step, f: string) {
    exists r :: r in s.requiresOutputs && f == OutputFact(h, r.step, r.name)
  }

  /** A requirement that must or should be met. */
  ghost predicate Binding(r: Requirement) {
    r.priority == "must" || r.priority == "should"
  }

  /** The step covers a requirement that must or should be met, and the fact says so. */
  ghost predicate Satisfies(p: Plan, s: Step, f: string) {
    exists c, r :: c in s.covers && r in p.requirements && Binding(r)
      && Strip(c) == Strip(r.id) && f == REQUIREMENT_PREFIX + Strip(r.id)
  }

  /** The action of a step needs the source marker and the outputs the step requires; it adds the step's completion, its
      declared outputs and the requirements it satisfies. */
  ghost predicate ActionFor(h: Hashing, p: Plan, s: Step, a: RawAction) {
    && a.step == s.id && a.delEffects == []
    && (forall f :: f in a.preconditions <==> f == SourceFact(h, p) || RequiresOutput(h, s, f))
    && forall f :: f in a.addEffects <==> f == StepFact(s.id) || DeclaresOutput(h, s, f) || Satisfies(p, s, f)
  }

  /** Some action adds the fact. */
  ghost predicate Added(raw: RawContract, f: string) {
    exists a :: a in raw.actions && f in a.addEffects
  }

  lemma OutputsDeclared(h: Hashing, s: Step)
    ensures forall f :: f in OutputFacts(h, s) <==> DeclaresOutput(h, s, f)
  {
    hide OutputFact, Strip;
    forall f ensures f in OutputFacts(h, s) <==> DeclaresOutput(h, s, f) {
      if n :| n in StrippedNames(s) && f == OutputFact(h, s.id, n) {
        var i :| 0 <= i < |s.outputs| && Strip(s.outputs[i].name) == n;
        assert s.outputs[i] in s.outputs;
      }
      if o :| o in s.outputs && f == OutputFact(h, s.id, Strip(o.name)) {
        var i :| 0 <= i < |s.outputs| && s.outputs[i] == o;
        assert StrippedNames(s)[i] in StrippedNames(s);
      }
    }
  }

  lemma StripTwice(s: string)
    ensures RequirementFact(Strip(s)) == REQUIREMENT_PREFIX + Strip(s)
  {
    StripIsTrimmed(s);
  }

  lemma RequirementsSatisfied(p: Plan, s: Step)
    ensures forall f :: f in RequirementFacts(p, s) <==> Satisfies(p, s, f)
  {
    hide Strip, RequirementFact;
    forall f ensures f in RequirementFacts(p, s) <==> Satisfies(p, s, f) {
      if x :| x in StrippedCovers(s) && x in Required(p) && f == RequirementFact(x) {
        var i :| 0 <= i < |s.covers| && Strip(s.covers[i]) == x;
        var r :| r in p.requirements && IsRequired(r) && Strip(r.id) == x;
        StripTwice(r.id);
        assert s.covers[i] in s.covers && Strip(s.covers[i]) == Strip(r.id);
      }
      if Satisfies(p, s, f) {
        var c, r :| c in s.covers && r in p.requirements && Binding(r) && Strip(c) == Strip(r.id) && f == REQUIREMENT_PREFIX + Strip(r.id);
        var i :| 0 <= i < |s.covers| && s.covers[i] == c;
        StripTwice(r.id);
        assert StrippedCovers(s)[i] in StrippedCovers(s) && IsRequired(r);
      }
    }
  }

  lemma ActionsDescribed(h: Hashing, p: Plan, s: Step)
    ensures ActionFor(h, p, s, ActionOf(h, p, s))
  {
    hide SortStrings, SourceFact, OutputFact, StepFact, OutputFacts, RequirementFacts, DeclaresOutput, Satisfies;
    OutputsDeclared(h, s);
    RequirementsSatisfied(p, s);
    var a := ActionOf(h, p, s);
    assert Elems(a.addEffects) == Adds(h, p, s) && Elems(a.preconditions) == {SourceFact(h, p)} + RefFacts(h, s);
    forall f ensures f in a.addEffects <==> f in Elems(a.addEffects) {
    }
    forall f ensures f in a.preconditions <==> f in Elems(a.preconditions) {
    }
  }

  lemma AllAdded(h: Hashing, p: Plan, raw: RawContract)
    requires raw.actions == Actions(h, p)
    ensures forall f :: Added(raw, f) <==> f in AllAdds(h, p)
  {
    hide SortStrings, Adds;
    forall f ensures Added(raw, f) <==> f in AllAdds(h, p) {
      if Added(raw, f) {
        var i :| 0 <= i < |raw.actions| && f in raw.actions[i].addEffects;
        assert f in Elems(raw.actions[i].addEffects) && p.steps[i] in p.steps;
      }
      if s :| s in p.steps && f in Adds(h, p, s) {
        var i :| 0 <= i < |p.steps| && p.steps[i] == s;
        assert f in Elems(raw.actions[i].addEffects) && raw.actions[i] in raw.actions;
      }
    }
  }

  lemma EffectsAreGoals(h: Hashing, p: Plan)
    ensures AllAdds(h, p) <= Goals(h, p)
  {
    hide OutputFacts, StepFact, RequirementFact, Required;
    forall f | f in AllAdds(h, p) ensures f in Goals(h, p) {
      var s :| s in p.steps && f in Adds(h, p, s);
      if f in RequirementFacts(p, s) {
        var c :| c in StrippedCovers(s) && c in Required(p) && f == RequirementFact(c);
      }
    }
  }

  /** The contents of a compiled contract: it starts with its source marker, has one action for each step in order, and
      its goals are exactly what its actions add. */
  lemma CompiledContents(h: Hashing, p: Plan, raw: RawContract)
    requires Compiled(h, p) == Ok(raw)
    ensures raw.version == 1 && raw.initial == [SourceFact(h, p)]
    ensures |raw.actions| == |p.steps| && forall i :: 0 <= i < |p.steps| ==> ActionFor(h, p, p.steps[i], raw.actions[i])
    ensures forall f :: f in raw.goals <==> Added(raw, f)
  {
    hide Accepted, Goals, AllAdds, ActionFor, Added, SortStrings, SourceFact;
    forall i | 0 <= i < |p.steps| ensures ActionFor(h, p, p.steps[i], raw.actions[i]) { ActionsDescribed(h, p, p.steps[i]); }
    AllAdded(h, p, raw);
    EffectsAreGoals(h, p);
    GoalsHaveSources(h, p);
    assert Elems(raw.goals) == Goals(h, p);
    forall f ensures f in raw.goals <==> f in Elems(raw.goals) {
    }
  }

  // -------------------------------------------------- which plans compile

  /** Requirements have an id, a description and a known priority, no two the same id, and one of them is binding. */
  ghost predicate RequirementRules(p: Plan) {
    && (forall i :: 0 <= i < |p.requirements| ==> RequirementRule(p.requirements[i]))
    && (forall i, j :: 0 <= i < j < |p.requirements| ==> Strip(p.requirements[i].id) != Strip(p.requirements[j].id))
    && exists r :: r in p.requirements && Binding(r)
  }

  ghost predicate RequirementRule(r: Requirement) {
    Named(r.id) && Named(r.description) && (Binding(r) || r.priority == "may")
  }

  /** Output names are present and, without white space around them, different; their facts are not too long. */
  ghost predicate NameRules(h: Hashing, s: Step) {
    && (forall k :: 0 <= k < |s.outputs| ==> Named(s.outputs[k].name) && |OutputFact(h, s.id, Strip(s.outputs[k].name))| <= 256)
    && forall j, k :: 0 <= j < k < |s.outputs| ==> Strip(s.outputs[j].name) != Strip(s.outputs[k].name)
  }

  /** What a step covers are different requirements of the plan, and the facts about binding ones are not too long. */
  ghost predicate CoverRules(p: Plan, s: Step) {
    && (forall k :: 0 <= k < |s.covers| ==> CoverRule(p, s.covers[k]))
    && forall j, k :: 0 <= j < k < |s.covers| ==> Strip(s.covers[j]) != Strip(s.covers[k])
  }

  ghost predicate CoverRule(p: Plan, c: string) {
    && Named(c) && (exists r :: r in p.requirements && Strip(r.id) == Strip(c))
    && ((exists r :: r in p.requirements && Binding(r) && Strip(r.id) == Strip(c)) ==> |REQUIREMENT_PREFIX + Strip(c)| <= 256)
  }

  ghost predicate StepRules(h: Hashing, p: Plan, s: Step) {
    && NameRules(h, s) && ReferenceRules(s) && CoverRules(p, s)
    && (forall r :: r in s.requiresOutputs ==> |OutputFact(h, r.step, r.name)| <= 256)
    && forall d :: d in DeclaredDeps(s) ==> exists r :: r in s.requiresOutputs && r.step == d
  }

  /** What `compile_contract` asks of a plan. */
  ghost predicate CompileRules(h: Hashing, p: Plan) {
    && RequirementRules(p) && p.steps != [] && GraphRules(p.steps)
    && (forall s :: s in p.steps ==> StepRules(h, p, s))
    && forall r :: r in p.requirements && Binding(r) ==> exists s, c :: s in p.steps && c in s.covers && Strip(c) == Strip(r.id)
  }

  lemma NamedStripped(name: string)
    ensures Named(name) <==> Strip(name) != ""
  {
    NamedMeans(name);
  }

  lemma RequirementsMean(p: Plan)
    ensures RequirementsAccepted(p) && Required(p) != {} <==> RequirementRules(p)
  {
    hide Strip, Named;
    forall i | 0 <= i < |p.requirements|
      ensures RequirementRule(p.requirements[i]) <==>
        Strip(p.requirements[i].id) != "" && Strip(p.requirements[i].description) != "" && (IsRequired(p.requirements[i]) || p.requirements[i].priority == "may")
    {
      NamedStripped(p.requirements[i].id);
      NamedStripped(p.requirements[i].description);
    }
    assert forall i :: 0 <= i < |p.requirements| ==> p.requirements[i] in p.requirements;
    if Required(p) != {} {
      var x := Member(Required(p));
      var r :| r in p.requirements && IsRequired(r) && Strip(r.id) == x;
      assert Binding(r);
    }
    if exists r :: r in p.requirements && Binding(r) {
      var r :| r in p.requirements && Binding(r);
      assert IsRequired(r) && Strip(r.id) in Required(p);
    }
    if RequirementRules(p) {
      forall i, j | 0 <= i < j < |RequirementIds(p)| ensures RequirementIds(p)[i] != RequirementIds(p)[j] {
      }
    }
    if RequirementsAccepted(p) {
      forall i, j | 0 <= i < j < |p.requirements| ensures Strip(p.requirements[i].id) != Strip(p.requirements[j].id) {
        assert RequirementIds(p)[i] != RequirementIds(p)[j];
      }
    }
  }

  lemma NamesMean(h: Hashing, s: Step)
    ensures "" !in StrippedNames(s) && Distinct(StrippedNames(s)) && ShortFacts(OutputFacts(h, s)) <==> NameRules(h, s)
  {
    hide Strip, Named, OutputFact;
    var names := StrippedNames(s);
    forall k | 0 <= k < |s.outputs| ensures Named(s.outputs[k].name) <==> names[k] != "" { NamedStripped(s.outputs[k].name); }
    forall k | 0 <= k < |s.outputs| ensures names[k] in names && OutputFact(h, s.id, Strip(s.outputs[k].name)) in OutputFacts(h, s) {
    }
    forall f | f in OutputFacts(h, s) ensures exists k :: 0 <= k < |s.outputs| && f == OutputFact(h, s.id, Strip(s.outputs[k].name)) {
      var n :| n in names && f == OutputFact(h, s.id, n);
      var k :| 0 <= k < |names| && names[k] == n;
    }
    if NameRules(h, s) {
      forall j, k | 0 <= j < k < |names| ensures names[j] != names[k] { assert Strip(s.outputs[j].name) != Strip(s.outputs[k].name); }
    }
    if Distinct(names) {
      forall j, k | 0 <= j < k < |s.outputs| ensures Strip(s.outputs[j].name) != Strip(s.outputs[k].name) { assert names[j] != names[k]; }
    }
  }

  lemma RequiredMeans(p: Plan, x: string)
    ensures x in Required(p) <==> exists r :: r in p.requirements && Binding(r) && Strip(r.id) == x
    ensures x in RequirementIds(p) <==> exists r :: r in p.requirements && Strip(r.id) == x
  {
    hide Strip;
    if r :| r in p.requirements && Binding(r) && Strip(r.id) == x { assert IsRequired(r); }
    if x in Required(p) {
      var r :| r in p.requirements && IsRequired(r) && Strip(r.id) == x;
      assert Binding(r);
    }
    if x in RequirementIds(p) {
      var i :| 0 <= i < |p.requirements| && RequirementIds(p)[i] == x;
      assert p.requirements[i] in p.requirements;
    }
    if r :| r in p.requirements && Strip(r.id) == x {
      var i :| 0 <= i < |p.requirements| && p.requirements[i] == r;
      assert RequirementIds(p)[i] == x;
    }
  }

  lemma CoversMean(p: Plan, s: Step)
    ensures CoverRules(p, s) <==>
      && "" !in StrippedCovers(s) && Distinct(StrippedCovers(s)) && (forall c :: c in StrippedCovers(s) ==> c in RequirementIds(p))
      && ShortFacts(RequirementFacts(p, s))
  {
    hide Strip, Named, RequirementFact, RequirementIds, Required;
    var covers := StrippedCovers(s);
    forall k | 0 <= k < |s.covers|
      ensures CoverRule(p, s.covers[k]) <==>
        covers[k] != "" && covers[k] in RequirementIds(p) && (covers[k] in Required(p) ==> |RequirementFact(covers[k])| <= 256)
    {
      NamedStripped(s.covers[k]);
      RequiredMeans(p, covers[k]);
      StripTwice(s.covers[k]);
    }
    forall k | 0 <= k < |s.covers| ensures covers[k] in covers {
    }
    forall f | f in RequirementFacts(p, s) ensures exists k :: 0 <= k < |covers| && covers[k] in Required(p) && f == RequirementFact(covers[k]) {
      var c :| c in covers && c in Required(p) && f == RequirementFact(c);
      var k :| 0 <= k < |covers| && covers[k] == c;
    }
    if CoverRules(p, s) {
      forall j, k | 0 <= j < k < |covers| ensures covers[j] != covers[k] { assert Strip(s.covers[j]) != Strip(s.covers[k]); }
    }
    if Distinct(covers) {
      forall j, k | 0 <= j < k < |s.covers| ensures Strip(s.covers[j]) != Strip(s.covers[k]) { assert covers[j] != covers[k]; }
    }
  }

  lemma StepMeans(h: Hashing, p: Plan, s: Step)
    ensures StepAccepted(h, p, s) <==> StepRules(h, p, s)
  {
    hide StrippedNames, StrippedCovers, RequirementIds, OutputFacts, RequirementFacts, NameRules, CoverRules, RefsAccepted, ReferenceRules, OutputFact;
    NamesMean(h, s);
    CoversMean(p, s);
    ReferencesMean(s);
  }

  lemma CoveredMeans(steps: seq<Step>, x: string)
    ensures x in Covered(steps) <==> exists s, c :: s in steps && c in s.covers && Strip(c) == x
  {
    hide Strip;
    if x in Covered(steps) {
      var s, y :| s in steps && y in StrippedCovers(s) && y == x;
      var k :| 0 <= k < |s.covers| && StrippedCovers(s)[k] == y;
      assert s.covers[k] in s.covers;
    }
    if s, c :| s in steps && c in s.covers && Strip(c) == x {
      var k :| 0 <= k < |s.covers| && s.covers[k] == c;
      assert StrippedCovers(s)[k] == x && x in StrippedCovers(s);
    }
  }

  /** A plan compiles exactly when it keeps the rules. */
  lemma CompilesExactly(h: Hashing, p: Plan)
    ensures Compiled(h, p).Ok? <==> CompileRules(h, p)
  {
    hide Strip, RequirementsAccepted, RequirementRules, StepAccepted, StepRules, GraphAccepted, GraphRules, Covered, Required;
    RequirementsMean(p);
    GraphMeans(p.steps);
    forall s | s in p.steps ensures StepAccepted(h, p, s) <==> StepRules(h, p, s) { StepMeans(h, p, s); }
    forall x ensures x in Covered(p.steps) <==> exists s, c :: s in p.steps && c in s.covers && Strip(c) == x { CoveredMeans(p.steps, x); }
    forall x ensures x in Required(p) <==> exists r :: r in p.requirements && Binding(r) && Strip(r.id) == x { RequiredMeans(p, x); }
    if Required(p) <= Covered(p.steps) {
      forall r | r in p.requirements && Binding(r) ensures exists s, c :: s in p.steps && c in s.covers && Strip(c) == Strip(r.id) {
        assert Strip(r.id) in Covered(p.steps);
      }
    }
  }

  /** `compile_contract`, one pass over the steps. */
  method CompileContract(h: Hashing, p: Plan) returns (r: Result<RawContract>)
    ensures r == Compiled(h, p)
    ensures r.Ok? <==> CompileRules(h, p)
    ensures r.Ok? ==> r.value.version == 1 && r.value.initial == [SourceFact(h, p)]
    ensures r.Ok? ==> |r.value.actions| == |p.steps| && forall i :: 0 <= i < |p.steps| ==> ActionFor(h, p, p.steps[i], r.value.actions[i])
    ensures r.Ok? ==> forall f :: f in r.value.goals <==> Added(r.value, f)
  {
    hide SortStrings, StepAccepted, RequirementsAccepted, Adds, RefFacts, Covered, Required, AllOutputFacts, AllStepFacts, OutputFacts, SourceFact, StripLeft, StripRight, StepFact, Actions, RequirementFact, DepsAccepted, ActionFor, Added, CompileRules;
    CompilesExactly(h, p);
    var required := Required(p);
    if !RequirementsAccepted(p) || required == {} || p.steps == [] || EffectiveDependencies(p.steps).Err? {
      return Err;
    }
    var marker := SourceFact(h, p);
    var actions: seq<RawAction> := [];
    var produced: set<string> := {};
    var outputFacts: set<string> := {};
    var stepFacts: set<string> := {};
    NothingCollected(h);
    assert p.steps[..0] == [];
    for k := 0 to |p.steps|
      invariant forall i :: 0 <= i < k ==> StepAccepted(h, p, p.steps[i])
      invariant actions == Actions(h, p)[..k]
      invariant produced == Covered(p.steps[..k]) * required
      invariant outputFacts == AllOutputFacts(h, p.steps[..k])
      invariant stepFacts == AllStepFacts(p.steps[..k])
    {
      var s := p.steps[k];
      assert s in p.steps;
      if !StepAccepted(h, p, s) {
        return Err;
      }
      assert p.steps[..k + 1] == p.steps[..k] + [s];
      CollectedAppend(h, p.steps[..k], s);
      outputFacts := outputFacts + OutputFacts(h, s);
      stepFacts := stepFacts + {StepFact(s.id)};
      produced := produced + Elems(StrippedCovers(s)) * required;
      assert Actions(h, p)[..k + 1] == Actions(h, p)[..k] + [ActionOf(h, p, s)];
      actions := actions + [RawAction(s.id, SortStrings({marker} + RefFacts(h, s)), SortStrings(Adds(h, p, s)), [])];
    }
    assert p.steps[..|p.steps|] == p.steps && Actions(h, p)[..|p.steps|] == Actions(h, p);
    if !(required <= produced) {
      return Err;
    }
    var goals := (set q | q in required :: RequirementFact(q)) + outputFacts + stepFacts;
    assert goals == Goals(h, p);
    r := Ok(RawContract(1, [marker], SortStrings(goals), actions));
    CompiledContents(h, p, r.value);
  }

  lemma NothingCollected(h: Hashing)
    ensures Covered([]) == {} && AllOutputFacts(h, []) == {} && AllStepFacts([]) == {}
  {
  }

  lemma CollectedAppend(h: Hashing, steps: seq<Step>, s: Step)
    ensures Covered(steps + [s]) == Covered(steps) + Elems(StrippedCovers(s))
    ensures AllOutputFacts(h, steps + [s]) == AllOutputFacts(h, steps) + OutputFacts(h, s)
    ensures AllStepFacts(steps + [s]) == AllStepFacts(steps) + {StepFact(s.id)}
  {
    assert forall t :: t in steps + [s] <==> t in steps || t == s;
  }

  // -------------------------------------------------- _parse_contract

  predicate FactListAccepted(raw: seq<string>) {
    && |raw| <= MAX_FACTS && Distinct(raw)
    && forall f :: f in raw ==> !Blank(f) && |f| <= MAX_FACT_LEN
  }

  predicate ActionAccepted(a: RawAction) {
    && a.step >= 1
    && FactListAccepted(a.preconditions) && FactListAccepted(a.addEffects) && FactListAccepted(a.delEffects)
    && Elems(a.addEffects) !! Elems(a.delEffects)
  }

  function ActionSteps(actions: seq<RawAction>): (r: seq<int>)
    ensures |r| == |actions|
    ensures forall i :: 0 <= i < |r| ==> r[i] == actions[i].step
  {
    seq(|actions|, i requires 0 <= i < |actions| => actions[i].step)
  }

  function KnownSources(raw: RawContract): set<string> {
    Elems(raw.initial) + set a, f | a in raw.actions && f in a.addEffects :: f
  }

  predicate ContractAccepted(steps: seq<Step>, raw: RawContract) {
    && raw.version == 1
    && FactListAccepted(raw.initial) && FactListAccepted(raw.goals) && raw.goals != []
    && |raw.actions| <= MAX_ACTIONS
    && (forall a :: a in raw.actions ==> ActionAccepted(a))
    && Distinct(ActionSteps(raw.actions))
    && Elems(ActionSteps(raw.actions)) == Elems(StepIds(steps)) && |raw.actions| == |steps|
    && (forall a :: a in raw.actions ==>
          Elems(a.preconditions) <= KnownSources(raw) && Elems(a.delEffects) <= KnownSources(raw))
    && Elems(raw.goals) <= KnownSources(raw)
    && EffectiveDependencies(steps).Ok?
  }

  function Parsed(a: RawAction): Action {
    Action(Elems(a.preconditions), Elems(a.addEffects), Elems(a.delEffects))
  }

  function ParsedActions(actions: seq<RawAction>): map<int, Action> {
    if actions == [] then map[]
    else
      var a := actions[|actions| - 1];
      ParsedActions(actions[..|actions| - 1])[a.step := Parsed(a)]
  }

  /** `_parse_contract`: Ok exactly when it collects no error. */
  function ParseContract(steps: seq<Step>, raw: RawContract): Result<Contract> {
    if ContractAccepted(steps, raw)
    then Ok(Contract(Elems(raw.initial), Elems(raw.goals), ParsedActions(raw.actions)))
    else Err
  }

  // -------------------------------------------------- which contracts parse

  ghost predicate FactListRules(raw: seq<string>) {
    && |raw| <= 4096
    && (forall k :: 0 <= k < |raw| ==> Named(raw[k]) && |raw[k]| <= 256)
    && forall j, k :: 0 <= j < k < |raw| ==> raw[j] != raw[k]
  }

  ghost predicate ActionRules(a: RawAction) {
    && a.step > 0 && FactListRules(a.preconditions) && FactListRules(a.addEffects) && FactListRules(a.delEffects)
    && forall f :: f in a.addEffects ==> f !in a.delEffects
  }

  /** True from the start, or added by some action. */
  ghost predicate Known(raw: RawContract, f: string) {
    f in raw.initial || Added(raw, f)
  }

  /** One action for each step of the plan. */
  ghost predicate OneForEach(steps: seq<Step>, actions: seq<RawAction>) {
    && |actions| == |steps|
    && (forall i, j :: 0 <= i < j < |actions| ==> actions[i].step != actions[j].step)
    && (forall s :: s in steps ==> exists a :: a in actions && a.step == s.id)
    && forall a :: a in actions ==> exists s :: s in steps && s.id == a.step
  }

  /** What `_parse_contract` asks of a contract. */
  ghost predicate ContractRules(steps: seq<Step>, raw: RawContract) {
    && raw.version == 1 && FactListRules(raw.initial) && FactListRules(raw.goals) && |raw.goals| > 0
    && |raw.actions| <= 2048 && (forall a :: a in raw.actions ==> ActionRules(a))
    && OneForEach(steps, raw.actions) && GraphRules(steps)
    && (forall a, f :: a in raw.actions && (f in a.preconditions || f in a.delEffects) ==> Known(raw, f))
    && forall f :: f in raw.goals ==> Known(raw, f)
  }

  lemma FactListMeans(raw: seq<string>)
    ensures FactListAccepted(raw) <==> FactListRules(raw)
  {
    hide Named, Blank;
    forall k | 0 <= k < |raw| ensures raw[k] in raw && (Blank(raw[k]) <==> !Named(raw[k])) { NamedMeans(raw[k]); }
  }

  lemma ActionMeans(a: RawAction)
    ensures ActionAccepted(a) <==> ActionRules(a)
  {
    hide FactListAccepted, FactListRules;
    FactListMeans(a.preconditions);
    FactListMeans(a.addEffects);
    FactListMeans(a.delEffects);
    forall f ensures f in a.addEffects <==> f in Elems(a.addEffects) {
    }
    forall f ensures f in a.delEffects <==> f in Elems(a.delEffects) {
    }
  }

  lemma OneForEachMeans(steps: seq<Step>, actions: seq<RawAction>)
    ensures Distinct(ActionSteps(actions)) && Elems(ActionSteps(actions)) == Elems(StepIds(steps)) && |actions| == |steps|
      <==> OneForEach(steps, actions)
  {
    var ids := ActionSteps(actions);
    forall x ensures x in Elems(ids) <==> exists a :: a in actions && a.step == x {
      if x in Elems(ids) {
        var i :| 0 <= i < |ids| && ids[i] == x;
        assert actions[i] in actions;
      }
      if a :| a in actions && a.step == x {
        var i :| 0 <= i < |actions| && actions[i] == a;
        assert ids[i] == x;
      }
    }
    forall x ensures x in Elems(StepIds(steps)) <==> exists s :: s in steps && s.id == x {
      if x in Elems(StepIds(steps)) {
        var i :| 0 <= i < |steps| && StepIds(steps)[i] == x;
        assert steps[i] in steps;
      }
      if s :| s in steps && s.id == x {
        var i :| 0 <= i < |steps| && steps[i] == s;
        assert StepIds(steps)[i] == x;
      }
    }
    if OneForEach(steps, actions) {
      forall x ensures x in Elems(ids) <==> x in Elems(StepIds(steps)) {
      }
      forall i, j | 0 <= i < j < |ids| ensures ids[i] != ids[j] { assert actions[i].step != actions[j].step; }
    }
    if Distinct(ids) {
      forall i, j | 0 <= i < j < |actions| ensures actions[i].step != actions[j].step { assert ids[i] != ids[j]; }
    }
    if Elems(ids) == Elems(StepIds(steps)) {
      forall s | s in steps ensures exists a :: a in actions && a.step == s.id { assert s.id in Elems(StepIds(steps)); }
      forall a | a in actions ensures exists s :: s in steps && s.id == a.step { assert a.step in Elems(ids); }
    }
  }

  lemma KnownMeans(raw: RawContract, facts: seq<string>)
    ensures Elems(facts) <= KnownSources(raw) <==> forall f :: f in facts ==> Known(raw, f)
  {
    forall f ensures f in KnownSources(raw) <==> Known(raw, f) {
    }
    forall f ensures f in Elems(facts) <==> f in facts {
    }
  }

  /** A contract parses exactly when it keeps the rules. */
  lemma ParsesExactly(steps: seq<Step>, raw: RawContract)
    ensures ParseContract(steps, raw).Ok? <==> ContractRules(steps, raw)
  {
    hide FactListAccepted, FactListRules, ActionAccepted, ActionRules, OneForEach, GraphAccepted, GraphRules, KnownSources, Known, ActionSteps,
      ParsedActions;
    FactListMeans(raw.initial);
    FactListMeans(raw.goals);
    OneForEachMeans(steps, raw.actions);
    GraphMeans(steps);
    KnownMeans(raw, raw.goals);
    forall a | a in raw.actions
      ensures (ActionAccepted(a) <==> ActionRules(a))
        && (Elems(a.preconditions) <= KnownSources(raw) <==> forall f :: f in a.preconditions ==> Known(raw, f))
        && (Elems(a.delEffects) <= KnownSources(raw) <==> forall f :: f in a.delEffects ==> Known(raw, f))
    {
      ActionMeans(a);
      KnownMeans(raw, a.preconditions);
      KnownMeans(raw, a.delEffects);
    }
  }

  lemma NoneParsed()
    ensures ParsedActions([]) == map[]
  {
  }

  lemma ParsedShape(steps: seq<Step>, raw: RawContract, c: Contract)
    requires ParseContract(steps, raw) == Ok(c)
    ensures Distinct(ActionSteps(raw.actions)) && ContractAccepted(steps, raw)
    ensures c == Contract(Elems(raw.initial), Elems(raw.goals), ParsedActions(raw.actions))
  {
  }

  lemma ParsedUnfold(actions: seq<RawAction>)
    requires actions != []
    ensures var a := actions[|actions| - 1];
      ParsedActions(actions) == ParsedActions(actions[..|actions| - 1])[a.step := Parsed(a)]
  {
  }

  lemma {:induction false} ParsedEntries(actions: seq<RawAction>)
    requires Distinct(ActionSteps(actions))
    ensures ParsedActions(actions).Keys == Elems(ActionSteps(actions))
    ensures forall a :: a in actions ==>
      a.step in ParsedActions(actions) && ParsedActions(actions)[a.step] == Parsed(a)
  {
    hide ParsedActions, Parsed;
    if actions == [] {
      NoneParsed();
    } else {
      var n := |actions| - 1;
      var ids := ActionSteps(actions);
      assert ActionSteps(actions[..n]) == ids[..n];
      ParsedEntries(actions[..n]);
      ParsedUnfold(actions);
      assert ids == ids[..n] + [ids[n]];
      ElemsAppend(ids[..n], ids[n]);
      forall a | a in actions
        ensures a.step in ParsedActions(actions) && ParsedActions(actions)[a.step] == Parsed(a)
      {
        var i :| 0 <= i < |actions| && actions[i] == a;
        if i < n { assert actions[..n][i] == a; assert ids[i] != ids[n]; }
      }
    }
  }

  // -------------------------------------------------- compiled contracts parse

  ghost predicate RefsTrimmed(p: Plan) {
    forall s, r :: s in p.steps && r in s.requiresOutputs ==> Trimmed(r.name)
  }

  ghost predicate WithinLimits(raw: RawContract) {
    && |raw.actions| <= MAX_ACTIONS && ListWithinLimits(raw.initial) && ListWithinLimits(raw.goals)
    && forall a :: a in raw.actions ==> ListWithinLimits(a.preconditions) && ListWithinLimits(a.addEffects)
  }

  ghost predicate ListWithinLimits(facts: seq<string>) {
    |facts| <= MAX_FACTS && forall f :: f in facts ==> |f| <= MAX_FACT_LEN
  }

  lemma {:induction false} PrefixedNotBlank(s: string)
    requires s != "" && !IsSpace(s[0])
    ensures !Blank(s)
  {
    assert StripLeft(s) == s;
    KeepsFirst(s);
  }

  lemma {:induction false} KeepsFirst(s: string)
    requires s != "" && !IsSpace(s[0])
    ensures StripRight(s) != ""
  {
    if IsSpace(s[|s| - 1]) {
      KeepsFirst(s[..|s| - 1]);
    }
  }

  predicate Tagged(f: string) {
    f != "" && (f[0] == 'f' || f[0] == 's' || f[0] == 'o' || f[0] == 'r')
  }

  lemma SortedAccepted(facts: set<string>)
    requires forall f :: f in facts ==> Tagged(f)
    ensures FactListAccepted(SortStrings(facts)) <==> ListWithinLimits(SortStrings(facts))
  {
    var s := SortStrings(facts);
    SortedDistinct(s);
    forall f | f in s ensures !Blank(f) {
      assert f in Elems(s);
      PrefixedNotBlank(f);
    }
  }

  lemma CompiledFactsTagged(h: Hashing, p: Plan)
    ensures forall f :: f in Goals(h, p) ==> Tagged(f)
    ensures forall s, f :: s in p.steps && f in {SourceFact(h, p)} + RefFacts(h, s) ==> Tagged(f)
    ensures forall s, f :: s in p.steps && f in Adds(h, p, s) ==> Tagged(f)
  {
  }

  function AllAdds(h: Hashing, p: Plan): set<string> {
    set s, f | s in p.steps && f in Adds(h, p, s) :: f
  }

  lemma CompiledSources(h: Hashing, p: Plan, raw: RawContract)
    requires Compiled(h, p) == Ok(raw)
    ensures KnownSources(raw) == {SourceFact(h, p)} + AllAdds(h, p)
  {
    hide SortStrings, StepAccepted, RequirementsAccepted, GraphAccepted, Adds, RefFacts, Goals, Covered, Required, SourceFact;
    forall f | f in AllAdds(h, p) ensures f in KnownSources(raw) {
      var s :| s in p.steps && f in Adds(h, p, s);
      var i :| 0 <= i < |p.steps| && p.steps[i] == s;
      assert raw.actions[i] in raw.actions;
      assert f in Elems(raw.actions[i].addEffects);
    }
    forall f | f in KnownSources(raw) ensures f in {SourceFact(h, p)} + AllAdds(h, p) {
      if f !in raw.initial {
        var a :| a in raw.actions && f in a.addEffects;
        var i :| 0 <= i < |raw.actions| && raw.actions[i] == a;
        assert f in Elems(a.addEffects);
        assert p.steps[i] in p.steps;
      }
    }
  }

  /** A referenced output has a producer in the compiled contract exactly when its name is trimmed. */
  lemma RefHasSource(h: Hashing, p: Plan, s: Step, r: OutputRef)
    requires InjectiveOutputs(h) && LinksValid(p.steps) && s in p.steps && r in s.requiresOutputs
    ensures OutputFact(h, r.step, r.name) in {SourceFact(h, p)} + AllAdds(h, p) <==> Trimmed(r.name)
  {
    hide StripLeft, StripRight, SourceProjection, RefFacts, RequirementFacts, OutputFact, GraphAccepted, OutputsAccepted, RefsAccepted, Cyclic, Reaches;
    var fact := OutputFact(h, r.step, r.name);
    assert StepRefsValid(p.steps, s);
    assert RefGood(p.steps, s.id, r);
    if Trimmed(r.name) {
      var source :| source in p.steps && source.id == r.step && r.name in OutputNames(source);
      var i :| 0 <= i < |source.outputs| && OutputNames(source)[i] == r.name;
      assert StrippedNames(source)[i] == r.name;
      assert fact in OutputFacts(h, source);
      assert fact in Adds(h, p, source);
    } else if fact in {SourceFact(h, p)} + AllAdds(h, p) {
      SourceIsNoOutput(h, p, r.step, r.name);
      var t :| t in p.steps && fact in Adds(h, p, t);
      OutputFactProducer(h, p, t, r.step, r.name);
      var i :| 0 <= i < |t.outputs| && Strip(t.outputs[i].name) == r.name;
      StripIsTrimmed(t.outputs[i].name);
    }
  }

  lemma SourceIsNoOutput(h: Hashing, p: Plan, step: int, name: string)
    ensures SourceFact(h, p) != OutputFact(h, step, name)
  {
    PrefixesDiffer(h.source(SourceProjection(p)), "", Numeral(step) + ":" + h.cleaned(name) + ":" + h.digest(name), "");
  }

  lemma OutputFactProducer(h: Hashing, p: Plan, t: Step, step: int, name: string)
    requires InjectiveOutputs(h) && OutputFact(h, step, name) in Adds(h, p, t)
    ensures t.id == step && name in StrippedNames(t)
  {
    var fact := OutputFact(h, step, name);
    var tail := Numeral(step) + ":" + h.cleaned(name) + ":" + h.digest(name);
    PrefixesDiffer("", Numeral(t.id), tail, "");
    forall c ensures RequirementFact(c) != fact {
      PrefixesDiffer("", "", tail, Strip(c));
    }
    assert fact in OutputFacts(h, t);
    var n :| n in StrippedNames(t) && OutputFact(h, t.id, n) == fact;
  }

  lemma GoalsHaveSources(h: Hashing, p: Plan)
    requires Accepted(h, p)
    ensures Goals(h, p) <= AllAdds(h, p)
  {
    hide SortStrings, StepAccepted, RequirementsAccepted, GraphAccepted, StepFact, OutputFact, RequirementFact, Required, RefFacts, OutputFacts;
    forall f | f in Goals(h, p) ensures f in AllAdds(h, p) {
      assert Goals(h, p) == (set r | r in Required(p) :: RequirementFact(r)) + AllOutputFacts(h, p.steps) + AllStepFacts(p.steps);
      if f in (set r | r in Required(p) :: RequirementFact(r)) {
        var r :| r in Required(p) && RequirementFact(r) == f;
        assert r in Covered(p.steps);
        var s, c :| s in p.steps && c in StrippedCovers(s) && c == r;
        assert f in RequirementFacts(p, s);
        assert f in Adds(h, p, s);
      } else if s :| s in p.steps && f in OutputFacts(h, s) {
        assert f in Adds(h, p, s);
      } else {
        var s :| s in p.steps && StepFact(s.id) == f;
        assert f in Adds(h, p, s);
      }
    }
  }

  lemma SingletonAccepted(f: string)
    requires Tagged(f)
    ensures FactListAccepted([f]) <==> ListWithinLimits([f])
  {
    hide StripLeft, StripRight, Strip;
    PrefixedNotBlank(f);
  }

  lemma CompiledActionAccepted(h: Hashing, p: Plan, s: Step)
    requires s in p.steps && s.id >= 1
    ensures var a := ActionOf(h, p, s);
      ActionAccepted(a) <==> ListWithinLimits(a.preconditions) && ListWithinLimits(a.addEffects)
  {
    hide SortStrings, Adds, RefFacts, SourceFact, StripLeft, StripRight, Strip;
    CompiledFactsTagged(h, p);
    SortedAccepted({SourceFact(h, p)} + RefFacts(h, s));
    SortedAccepted(Adds(h, p, s));
  }

  lemma ActionListsAccepted(h: Hashing, p: Plan, raw: RawContract)
    requires Compiled(h, p) == Ok(raw)
    ensures (FactListAccepted(raw.initial) && FactListAccepted(raw.goals) && |raw.actions| <= MAX_ACTIONS
             && forall a :: a in raw.actions ==> ActionAccepted(a)) <==> WithinLimits(raw)
  {
    hide SortStrings, StepAccepted, RequirementsAccepted, RefFacts, Adds, Covered, Required, ActionOf, FactListAccepted, ListWithinLimits, ActionAccepted, DepsAccepted, Goals;
    CompiledFactsTagged(h, p);
    SortedAccepted(Goals(h, p));
    SingletonAccepted(SourceFact(h, p));
    forall i | 0 <= i < |raw.actions|
      ensures ActionAccepted(raw.actions[i]) <==>
        ListWithinLimits(raw.actions[i].preconditions) && ListWithinLimits(raw.actions[i].addEffects)
    {
      assert p.steps[i] in p.steps;
      CompiledActionAccepted(h, p, p.steps[i]);
    }
  }

  lemma SomeGoal(h: Hashing, p: Plan)
    requires p.steps != []
    ensures Goals(h, p) != {}
  {
    assert p.steps[0] in p.steps;
    assert StepFact(p.steps[0].id) in Goals(h, p);
  }

  /** Compiled contracts within the size limits parse, if and only if every output reference
      is written without surrounding white space. */
  lemma CompiledParses(h: Hashing, p: Plan, raw: RawContract)
    requires InjectiveOutputs(h) && Compiled(h, p) == Ok(raw) && LinksValid(p.steps)
    ensures ContractAccepted(p.steps, raw) <==> WithinLimits(raw) && RefsTrimmed(p)
  {
    hide SortStrings, StepAccepted, RequirementsAccepted, GraphAccepted, Adds, RefFacts, Covered, Required, StripLeft, StripRight, Strip, Blank, Tagged, FactListAccepted, ActionAccepted, LinksValid, RefsTrimmed, WithinLimits, InjectiveOutputs, SourceFact, AllAdds, Goals, KnownSources, ParsedActions;
    ActionListsAccepted(h, p, raw);
    CompiledSources(h, p, raw);
    GoalsHaveSources(h, p);
    AcceptedGraphOk(p.steps);
    assert ActionSteps(raw.actions) == StepIds(p.steps);
    assert Elems(raw.goals) == Goals(h, p);
    SomeGoal(h, p);
    PreconditionSources(h, p, raw);
  }

  lemma PreconditionSources(h: Hashing, p: Plan, raw: RawContract)
    requires InjectiveOutputs(h) && Compiled(h, p) == Ok(raw) && LinksValid(p.steps)
    ensures (forall a :: a in raw.actions ==> Elems(a.preconditions) <= KnownSources(raw) && Elems(a.delEffects) <= KnownSources(raw))
      <==> RefsTrimmed(p)
  {
    hide SortStrings, StepAccepted, RequirementsAccepted, GraphAccepted, Adds, Covered, Required, StripLeft, StripRight, Strip, Trimmed, LinksValid, InjectiveOutputs, SourceFact, AllAdds, Goals, KnownSources, OutputFact;
    CompiledSources(h, p, raw);
    if forall a :: a in raw.actions ==> Elems(a.preconditions) <= KnownSources(raw) && Elems(a.delEffects) <= KnownSources(raw) {
      forall s, r | s in p.steps && r in s.requiresOutputs ensures Trimmed(r.name) {
        var i :| 0 <= i < |p.steps| && p.steps[i] == s;
        assert raw.actions[i] in raw.actions;
        assert OutputFact(h, r.step, r.name) in Elems(raw.actions[i].preconditions);
        RefHasSource(h, p, s, r);
      }
    }
    if RefsTrimmed(p) {
      forall a | a in raw.actions ensures Elems(a.preconditions) <= KnownSources(raw) && Elems(a.delEffects) <= KnownSources(raw) {
        var i :| 0 <= i < |raw.actions| && raw.actions[i] == a;
        var s := p.steps[i];
        assert s in p.steps;
        forall f | f in RefFacts(h, s) ensures f in KnownSources(raw) {
          var r :| r in s.requiresOutputs && OutputFact(h, r.step, r.name) == f;
          RefHasSource(h, p, s, r);
        }
      }
    }
  }

  // -------------------------------------------------- compiled contracts plan

  lemma CompiledAction(h: Hashing, p: Plan, raw: RawContract, c: Contract, s: Step)
    requires Compiled(h, p) == Ok(raw) && ParseContract(p.steps, raw) == Ok(c) && s in p.steps
    ensures s.id in c.actions
    ensures c.actions[s.id] == Action({SourceFact(h, p)} + RefFacts(h, s), Adds(h, p, s), {})
  {
    ParsedEntries(raw.actions);
    var i :| 0 <= i < |p.steps| && p.steps[i] == s;
    assert raw.actions[i] in raw.actions;
    assert Elems<string>([]) == {};
  }

  lemma CompiledContractShape(h: Hashing, p: Plan, raw: RawContract, c: Contract)
    requires Compiled(h, p) == Ok(raw) && ParseContract(p.steps, raw) == Ok(c)
    ensures c.initial == {SourceFact(h, p)} && c.goals == Goals(h, p)
    ensures c.actions.Keys == GraphOf(p.steps).Keys
    ensures c.Monotonic()
  {
    hide SortStrings, StepAccepted, RequirementsAccepted, GraphAccepted, Adds, RefFacts, Goals, Covered, Required, SourceFact, ContractAccepted, ParseContract, ParsedActions;
    ParsedShape(p.steps, raw, c);
    ParsedEntries(raw.actions);
    AcceptedGraphOk(p.steps);
    assert ActionSteps(raw.actions) == StepIds(p.steps);
    forall id | id in c.actions ensures c.actions[id].delEffects == {} {
      assert id in Elems(ActionSteps(raw.actions));
      var i :| 0 <= i < |raw.actions| && raw.actions[i].step == id;
      assert p.steps[i] in p.steps;
      CompiledAction(h, p, raw, c, p.steps[i]);
    }
  }

  lemma StepOf(steps: seq<Step>, id: int) returns (s: Step)
    requires GraphAccepted(steps) && id in GraphOf(steps)
    ensures s in steps && s.id == id
    ensures GraphOf(steps)[id] == DeclaredDeps(s)
  {
    GraphEntries(steps);
    assert id in Elems(StepIds(steps));
    var i :| 0 <= i < |steps| && StepIds(steps)[i] == id;
    s := steps[i];
  }

  /** In a topological order everything a step reaches comes before it. */
  lemma ReachedBefore(g: Graph, order: seq<int>, from: int, to: int, i: nat)
    requires Respects(g, order) && i < |order| && order[i] == from && Reaches(g, from, to)
    ensures to in order[..i]
  {
    var walk :| Walk(g, walk) && |walk| > 1 && walk[0] == from && walk[|walk| - 1] == to;
    WalkBefore(g, order, walk, i);
  }

  lemma {:induction false} WalkBefore(g: Graph, order: seq<int>, walk: seq<int>, i: nat)
    requires Respects(g, order) && i < |order| && Walk(g, walk) && |walk| > 1 && order[i] == walk[0]
    ensures walk[|walk| - 1] in order[..i]
    decreases |walk|
  {
    assert InTurn(g, order, i);
    assert EdgeAt(g, walk, 0);
    var k :| 0 <= k < |order[..i]| && order[..i][k] == walk[1];
    if |walk| > 2 {
      forall j | 0 <= j < |walk[1..]| - 1 ensures EdgeAt(g, walk[1..], j) { assert EdgeAt(g, walk, j + 1); }
      WalkBefore(g, order, walk[1..], k);
      assert forall x :: x in order[..k] ==> x in order[..i] by {
        assert order[..k] == order[..i][..k];
      }
    }
  }

  /** Once the producers have run, the step's preconditions hold. */
  lemma PreconditionsHold(h: Hashing, p: Plan, raw: RawContract, c: Contract, order: seq<int>, i: nat)
    requires InjectiveOutputs(h) && LinksValid(p.steps)
    requires Compiled(h, p) == Ok(raw) && ParseContract(p.steps, raw) == Ok(c)
    requires Respects(GraphOf(p.steps), order) && i < |order| && order[i] in c.actions
    ensures c.actions[order[i]].preconditions <= FactsAfter(c, order[..i])
  {
    var g := GraphOf(p.steps);
    CompiledContractShape(h, p, raw, c);
    CompiledParses(h, p, raw);
    MonotonicFacts(c, order[..i]);
    var s := StepOf(p.steps, order[i]);
    CompiledAction(h, p, raw, c, s);
    forall f | f in RefFacts(h, s) ensures f in FactsAfter(c, order[..i]) {
      var r :| r in s.requiresOutputs && OutputFact(h, r.step, r.name) == f;
      assert StepRefsValid(p.steps, s);
      assert RefGood(p.steps, s.id, r);
      ReachedBefore(g, order, s.id, r.step, i);
      RefProducedBySource(h, p, s, r);
      var source :| source in p.steps && source.id == r.step && f in Adds(h, p, source);
      CompiledAction(h, p, raw, c, source);
    }
  }

  lemma RefProducedBySource(h: Hashing, p: Plan, s: Step, r: OutputRef)
    requires LinksValid(p.steps) && RefsTrimmed(p) && s in p.steps && r in s.requiresOutputs
    ensures exists source :: source in p.steps && source.id == r.step && OutputFact(h, r.step, r.name) in Adds(h, p, source)
  {
    assert StepRefsValid(p.steps, s);
    assert RefGood(p.steps, s.id, r);
    var source :| source in p.steps && source.id == r.step && r.name in OutputNames(source);
    var i :| 0 <= i < |source.outputs| && OutputNames(source)[i] == r.name;
    assert StrippedNames(source)[i] == r.name;
    assert OutputFact(h, r.step, r.name) in OutputFacts(h, source);
  }

  /** The compiled model adds no ordering of its own: its solutions are the topological orders. */
  lemma SolutionsAreTopologicalOrders(h: Hashing, p: Plan, raw: RawContract, c: Contract, order: seq<int>)
    requires InjectiveOutputs(h) && LinksValid(p.steps)
    requires Compiled(h, p) == Ok(raw) && ParseContract(p.steps, raw) == Ok(c)
    ensures Solution(c, GraphOf(p.steps), order) <==> Topological(GraphOf(p.steps), order)
  {
    var g := GraphOf(p.steps);
    CompiledContractShape(h, p, raw, c);
    if Solution(c, g, order) {
      forall i | 0 <= i < |order| ensures InTurn(g, order, i) {
        assert StepAt(c, g, order, i);
        assert forall d :: d in Elems(order[..i]) ==> d in order[..i];
      }
    }
    if Topological(g, order) {
      forall i | 0 <= i < |order| ensures StepAt(c, g, order, i) {
        assert InTurn(g, order, i);
        PreconditionsHold(h, p, raw, c, order, i);
      }
      GoalsReached(h, p, raw, c, order);
    }
  }

  lemma GoalsReached(h: Hashing, p: Plan, raw: RawContract, c: Contract, order: seq<int>)
    requires Compiled(h, p) == Ok(raw) && ParseContract(p.steps, raw) == Ok(c)
    requires Elems(order) == GraphOf(p.steps).Keys
    ensures c.goals <= FactsAfter(c, order)
  {
    CompiledContractShape(h, p, raw, c);
    GoalsHaveSources(h, p);
    MonotonicFacts(c, order);
    GraphEntries(p.steps);
    forall f | f in c.goals ensures f in FactsAfter(c, order) {
      assert f in AllAdds(h, p);
      var s :| s in p.steps && f in Adds(h, p, s);
      CompiledAction(h, p, raw, c, s);
      assert s.id in Elems(order);
    }
  }

  // -------------------------------------------------- the order that comes out

  lemma {:induction false} AcyclicHasOrder(ids: seq<int>, g: Graph, order: seq<int>)
    requires GraphOk(ids, g) && !Cyclic(g) && Respects(g, order)
    ensures exists full :: Topological(g, full)
    decreases |g| - |order|
  {
    RespectsDistinct(g, order);
    SubsetCardinality(Elems(order), g.Keys);
    if Elems(order) == g.Keys {
      assert Topological(g, order);
    } else {
      if forall s :: !ReadyAt(g, order, s) {
        StuckMeansCycle(ids, g, order);
      }
      var s :| ReadyAt(g, order, s);
      RespectsExtend(g, order, s);
      RespectsDistinct(g, order + [s]);
      SubsetCardinality(Elems(order + [s]), g.Keys);
      AcyclicHasOrder(ids, g, order + [s]);
    }
  }

  lemma RanksAscend(ids: seq<int>, a: seq<int>, b: seq<int>)
    requires Ascending(ids) && Elems(a) <= Elems(ids) && Elems(b) <= Elems(ids)
    requires LexLe(a, b)
    ensures LexLe(Ranks(ids, a), Ranks(ids, b))
  {
    if a != b {
      var i :| LessAt(a, b, i);
      var ra, rb := Ranks(ids, a), Ranks(ids, b);
      forall k | 0 <= k < i ensures ra[k] == rb[k] {
        assert a[k] == a[..i][k] == b[..i][k];
        assert RankOf(ids, a, k) == RankOf(ids, b, k);
      }
      assert ra[..i] == rb[..i];
      assert ra[i] == RankOf(ids, a, i) && rb[i] == RankOf(ids, b, i);
      assert ids[ra[i]] == a[i] && ids[rb[i]] == b[i];
      assert LessAt(ra, rb, i);
    }
  }

  lemma LeastIdIsLeastRank(ids: seq<int>, g: Graph, c: Contract, a: seq<int>, b: seq<int>)
    requires Ascending(ids) && Elems(ids) == g.Keys
    requires forall order :: Solution(c, g, order) <==> Topological(g, order)
    requires LeastSolution(c, g, a) && LeastTopological(ids, g, b)
    ensures a == b
  {
    RanksAscend(ids, a, b);
    LexAntisymmetric(Ranks(ids, a), Ranks(ids, b));
    RespectsDistinct(g, a);
    RespectsDistinct(g, b);
    assert Ranks(ids, b)[..|a|] == Ranks(ids, b);
    RanksPrefix(ids, a, b);
    assert b[..|a|] == b;
  }

  /** Compile, validate the links, parse and plan. Whatever the compiler and the link check
      accept, within the size limits and with trimmed references, is planned: the least-id
      topological order, which is the plan's own order when steps are listed by ascending id. */
  method CompileAndPlan(h: Hashing, p: Plan)
    returns (raw: Result<RawContract>, linkErrors: seq<LinkError>, verdict: Verdict, order: seq<int>, listed: Result<seq<int>>)
    requires InjectiveOutputs(h)
    ensures raw == Compiled(h, p) && (linkErrors == [] <==> LinksValid(p.steps))
    ensures raw.Ok? && linkErrors == [] && WithinLimits(raw.value) && RefsTrimmed(p) ==>
      && verdict == Pass && listed.Ok?
      && Topological(GraphOf(p.steps), order)
      && (forall other :: Topological(GraphOf(p.steps), other) ==> LexLe(order, other))
      && (Ascending(StepIds(p.steps)) ==> order == listed.value)
  {
    hide SortStrings, StepAccepted, RequirementsAccepted, Adds, RefFacts, Covered, Required, StripLeft, StripRight, Strip, Blank, FactListAccepted, ActionAccepted, RefsTrimmed, WithinLimits, InjectiveOutputs, SourceFact, ParsedActions, GraphAccepted, ContractAccepted, Solution, FactsAfter, DepsAccepted, Accepted, Compiled, Ranks, Topological, StepRefsValid;
    verdict, order, listed := Reject, [], Err;
    raw := CompileContract(h, p);
    linkErrors := ValidateOutputLinks(p.steps);
    if raw.Err? || linkErrors != [] {
      return;
    }
    var parsed := ParseContract(p.steps, raw.value);
    CompiledParses(h, p, raw.value);
    if parsed.Err? {
      return;
    }
    var c, g := parsed.value, GraphOf(p.steps);
    AcceptedGraphOk(p.steps);
    CompiledContractShape(h, p, raw.value, c);
    forall o ensures Solution(c, g, o) <==> Topological(g, o) {
      SolutionsAreTopologicalOrders(h, p, raw.value, c, o);
    }
    AcyclicHasOrder(StepIds(p.steps), g, []);
    var explored;
    verdict, order, explored := MonotonicSolve(c, g);
    listed := TopologicalOrder(StepIds(p.steps), g);
    if Ascending(StepIds(p.steps)) {
      LeastIdIsLeastRank(StepIds(p.steps), g, c, order, listed.value);
    }
  }

  /** The reference " a" to the output " a" links, but its fact has no producer: the compiler
      trims declared names and not referenced ones. */
  lemma UntrimmedReferenceRejected(h: Hashing, p: Plan, raw: RawContract)
    requires InjectiveOutputs(h) && Compiled(h, p) == Ok(raw) && LinksValid(p.steps)
    requires exists s :: s in p.steps && OutputRef(1, " a") in s.requiresOutputs
    ensures ParseContract(p.steps, raw) == Err
  {
    hide SortStrings, StepAccepted, RequirementsAccepted, Adds, RefFacts, Covered, Required, FactListAccepted, ActionAccepted, WithinLimits, InjectiveOutputs, SourceFact, ParsedActions, GraphAccepted, ContractAccepted, Accepted, Compiled, LinksValid;
    var s :| s in p.steps && OutputRef(1, " a") in s.requiresOutputs;
    assert StripLeft(" a") == StripLeft("a") == "a";
    assert !Trimmed(OutputRef(1, " a").name);
    CompiledParses(h, p, raw);
  }
}

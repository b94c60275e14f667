/** Installing a compiled contract in a plan, recompiling it, and the semantic alignment of
    requirements with formal goals (supervisor/formal_compiler.py, supervisor/formal_semantics.py). */
module Formalize {
  import opened Sequences
  import opened Text
  import opened Plans
  import opened PlanGraph
  import opened Compiler

  // -------------------------------------------------- anchors

  function AnchorsIn(verify: seq<Check>): seq<Check> {
    if verify == [] then []
    else AnchorsIn(verify[..|verify| - 1]) + if verify[|verify| - 1].formal.Some? then [verify[|verify| - 1]] else []
  }

  datatype Anchor = Anchor(step: int, check: Check)

  function AnchorsOf(s: Step): (r: seq<Anchor>)
    ensures |r| == |AnchorsIn(s.verify)|
    ensures forall i :: 0 <= i < |r| ==> r[i] == Anchor(s.id, AnchorsIn(s.verify)[i])
  {
    seq(|AnchorsIn(s.verify)|, i requires 0 <= i < |AnchorsIn(s.verify)| => Anchor(s.id, AnchorsIn(s.verify)[i]))
  }

  /** `find_formal_anchors`. */
  function Anchors(steps: seq<Step>): seq<Anchor> {
    if steps == [] then [] else Anchors(steps[..|steps| - 1]) + AnchorsOf(steps[|steps| - 1])
  }

  predicate IsMarker(f: string) {
    SOURCE_PREFIX <= f
  }

  predicate IsGenerated(raw: RawContract) {
    exists f :: f in raw.initial && IsMarker(f)
  }

  // -------------------------------------------------- stripping and compile_plan

  function StripStep(s: Step): Step {
    s.(verify := KeepSource(s.verify))
  }

  function StripSteps(steps: seq<Step>): (r: seq<Step>)
    ensures |r| == |steps|
    ensures forall i :: 0 <= i < |r| ==> r[i] == StripStep(steps[i])
  {
    seq(|steps|, i requires 0 <= i < |steps| => StripStep(steps[i]))
  }

  datatype Stripped = Stripped(base: Plan, anchor: Option<int>)

  /** What `_strip_generated_checks` returns, or Err where it refuses. */
  function StripGenerated(p: Plan): Result<Stripped> {
    var anchors := Anchors(p.steps);
    if |anchors| > 1 then Err
    else if |anchors| == 0 then Ok(Stripped(p.(steps := StripSteps(p.steps)), None))
    else if anchors[0].check.formal.Some? && IsGenerated(anchors[0].check.formal.value)
    then Ok(Stripped(p.(steps := StripSteps(p.steps)), Some(anchors[0].step)))
    else Err
  }

  datatype Options = Options(anchorStep: Option<int>, fastDownward: Option<string>, requireFastDownward: bool)

  function FormalCheck(h: Hashing, raw: RawContract, o: Options): Check {
    Check("run",
      Some([FORMAL_EXECUTABLE, "verify", ".", "--contract-sha", h.contract(raw)]
           + (match o.fastDownward case None => [] case Some(fd) => ["--fast-downward", fd])
           + (if o.requireFastDownward then ["--require-fast-downward"] else [])),
      Some(raw), "")
  }

  function SemanticCheck(h: Hashing, raw: RawContract): Check {
    Check("run", Some([FORMALIZER_EXECUTABLE, "verify", ".", "--contract-sha", h.contract(raw)]), None, "")
  }

  function Roots(steps: seq<Step>): set<int> {
    set s | s in steps && DeclaredDeps(s) == [] :: s.id
  }

  /** The anchor step: asked for, or already there, or the smallest root. */
  function SelectAnchor(steps: seq<Step>, o: Options, existing: Option<int>): Result<int>
    requires steps != []
  {
    if o.anchorStep.Some? then Ok(o.anchorStep.value)
    else if existing.Some? then Ok(existing.value)
    else if !GraphAccepted(steps) then Err
    else if Roots(steps) != {} then Ok(Min(Roots(steps)))
    else Ok(steps[0].id)
  }

  function Install(steps: seq<Step>, id: int, checks: seq<Check>): (r: seq<Step>)
    requires id in StepIds(steps)
  {
    var i := Position(StepIds(steps), id);
    steps[i := steps[i].(verify := checks + steps[i].verify)]
  }

  datatype CompiledPlan = CompiledPlan(plan: Plan, contract: RawContract, anchor: int)

  /** What `compile_plan` returns, or Err where it raises. */
  function PlanCompiled(h: Hashing, p: Plan, o: Options): Result<CompiledPlan> {
    match StripGenerated(p)
    case Err => Err
    case Ok(stripped) =>
      var base := stripped.base;
      if base.steps == [] then Err
      else match SelectAnchor(base.steps, o, stripped.anchor)
        case Err => Err
        case Ok(id) =>
          if id !in StepIds(base.steps) then Err
          else match Compiled(h, base)
            case Err => Err
            case Ok(raw) =>
              Ok(CompiledPlan(
                base.(steps := Install(base.steps, id, [FormalCheck(h, raw, o), SemanticCheck(h, raw)])), raw, id))
  }

  /** The filter loop of `_strip_generated_checks` over one step. */
  method FilterChecks(verify: seq<Check>) returns (kept: seq<Check>)
    ensures kept == KeepSource(verify)
    ensures forall c :: multiset(kept)[c] == if WrittenByAuthor(c) then multiset(verify)[c] else 0
  {
    kept := [];
    for k := 0 to |verify|
      invariant kept == KeepSource(verify[..k])
    {
      assert verify[..k + 1][..k] == verify[..k];
      if !Generated(verify[k]) {
        kept := kept + [verify[k]];
      }
    }
    assert verify[..|verify|] == verify;
    KeepsAuthored(verify);
  }

  /** Neither a formal anchor nor a call of the formalizer. */
  ghost predicate WrittenByAuthor(c: Check) {
    c.formal.None? && !(c.kind == "run" && c.argv.Some? && |c.argv.value| > 0 && c.argv.value[0] == "plan-auditor-formalize")
  }

  /** The filter keeps what the plan's author wrote, as often as it was written, and nothing else. */
  lemma {:induction false} KeepsAuthored(verify: seq<Check>)
    ensures forall c :: multiset(KeepSource(verify))[c] == if WrittenByAuthor(c) then multiset(verify)[c] else 0
  {
    if verify != [] {
      var n := |verify| - 1;
      KeepsAuthored(verify[..n]);
      assert verify == verify[..n] + [verify[n]];
    }
  }

  /** `_strip_generated_checks`. */
  method StripGeneratedChecks(p: Plan) returns (r: Result<Stripped>)
    ensures r == StripGenerated(p)
  {
    var anchors := Anchors(p.steps);
    var existing: Option<int> := None;
    if |anchors| > 1 {
      return Err;
    }
    if |anchors| == 1 {
      if anchors[0].check.formal.None? || !IsGenerated(anchors[0].check.formal.value) {
        return Err;
      }
      existing := Some(anchors[0].step);
    }
    var steps: seq<Step> := [];
    for k := 0 to |p.steps|
      invariant steps == StripSteps(p.steps)[..k]
    {
      var kept := FilterChecks(p.steps[k].verify);
      steps := steps + [p.steps[k].(verify := kept)];
    }
    assert steps == StripSteps(p.steps);
    r := Ok(Stripped(p.(steps := steps), existing));
  }

  // -------------------------------------------------- where the anchor goes

  ghost predicate Anchoring(steps: seq<Step>, s: Step, c: Check) {
    s in steps && c in s.verify && c.formal.Some?
  }

  ghost predicate Independent(steps: seq<Step>, s: Step) {
    s in steps && (s.dependsOn == None || s.dependsOn == Some([]))
  }

  /** A requested step is the anchor; without a request the plan's own anchor stays; with neither, it is the least id
      among steps without dependencies, or the first step. */
  ghost predicate AnchorChosen(steps: seq<Step>, o: Options, id: int)
    requires steps != []
  {
    if o.anchorStep.Some? then id == o.anchorStep.value
    else if exists s, c :: Anchoring(steps, s, c) then forall s, c :: Anchoring(steps, s, c) ==> s.id == id
    else if exists s :: Independent(steps, s) then
      (exists s :: Independent(steps, s) && s.id == id) && forall s :: Independent(steps, s) ==> id <= s.id
    else id == steps[0].id
  }

  /** One step of the compiled plan carries a contract, once, and it is the compiled one. */
  ghost predicate OnlyAnchor(out: CompiledPlan) {
    && (forall s, c :: Anchoring(out.plan.steps, s, c) ==> s.id == out.anchor && c.formal == Some(out.contract))
    && Anchors(out.plan.steps) != [] && |Anchors(out.plan.steps)| == 1
  }

  lemma {:induction false} AnchorsInAre(verify: seq<Check>)
    ensures forall c :: c in AnchorsIn(verify) <==> c in verify && c.formal.Some?
  {
    if verify != [] {
      AnchorsInAre(verify[..|verify| - 1]);
      assert verify == verify[..|verify| - 1] + [verify[|verify| - 1]];
    }
  }

  lemma {:induction false} AnchorsAre(steps: seq<Step>)
    ensures forall s, c :: Anchoring(steps, s, c) ==> Anchor(s.id, c) in Anchors(steps)
    ensures forall a :: a in Anchors(steps) ==> exists s :: Anchoring(steps, s, a.check) && s.id == a.step
  {
    hide AnchorsIn;
    if steps != [] {
      var n := |steps| - 1;
      AnchorsAre(steps[..n]);
      assert steps == steps[..n] + [steps[n]];
      AnchorsInAre(steps[n].verify);
      forall s, c | Anchoring(steps, s, c) ensures Anchor(s.id, c) in Anchors(steps) {
        if s in steps[..n] {
          assert Anchoring(steps[..n], s, c);
        } else {
          var i :| 0 <= i < |AnchorsIn(s.verify)| && AnchorsIn(s.verify)[i] == c;
          assert AnchorsOf(s)[i] == Anchor(s.id, c);
        }
      }
      forall a | a in Anchors(steps) ensures exists s :: Anchoring(steps, s, a.check) && s.id == a.step {
        if a in Anchors(steps[..n]) {
          var s :| Anchoring(steps[..n], s, a.check) && s.id == a.step;
          assert Anchoring(steps, s, a.check);
        } else {
          var i :| 0 <= i < |AnchorsOf(steps[n])| && AnchorsOf(steps[n])[i] == a;
          assert Anchoring(steps, steps[n], a.check);
        }
      }
    }
  }

  lemma SelectionIsChosen(p: Plan, stripped: Stripped, o: Options)
    requires StripGenerated(p) == Ok(stripped) && stripped.base.steps != []
    ensures SelectAnchor(stripped.base.steps, o, stripped.anchor).Ok? ==>
      AnchorChosen(p.steps, o, SelectAnchor(stripped.base.steps, o, stripped.anchor).value)
  {
    hide Anchors, KeepSource, GraphAccepted, Roots, Independent, Anchoring;
    AnchorsAre(p.steps);
    RootsAre(p.steps, stripped.base.steps);
    var anchors := Anchors(p.steps);
    var roots := Roots(stripped.base.steps);
    if anchors != [] {
      assert anchors[0] in anchors && stripped.anchor == Some(anchors[0].step);
      var s :| Anchoring(p.steps, s, anchors[0].check) && s.id == anchors[0].step;
      forall s, c | Anchoring(p.steps, s, c) ensures s.id == anchors[0].step {
        assert Anchor(s.id, c) in anchors;
      }
    } else {
      assert stripped.anchor == None;
      forall s, c ensures !Anchoring(p.steps, s, c) {
        assert Anchoring(p.steps, s, c) ==> Anchor(s.id, c) in anchors;
      }
      if roots == {} {
        forall s ensures !Independent(p.steps, s) { assert s.id !in roots; }
        assert stripped.base.steps[0].id == p.steps[0].id;
      } else {
        assert Min(roots) in roots;
        assert forall s :: Independent(p.steps, s) ==> s.id in roots;
      }
    }
  }

  lemma RootsAre(steps: seq<Step>, base: seq<Step>)
    requires base == StripSteps(steps)
    ensures forall id :: id in Roots(base) <==> exists s :: Independent(steps, s) && s.id == id
  {
    hide KeepSource;
    forall id ensures id in Roots(base) <==> exists s :: Independent(steps, s) && s.id == id {
      if t :| t in base && DeclaredDeps(t) == [] && t.id == id {
        var i :| 0 <= i < |base| && base[i] == t;
        assert Independent(steps, steps[i]);
      }
      if s :| Independent(steps, s) && s.id == id {
        var i :| 0 <= i < |steps| && steps[i] == s;
        assert base[i] in base;
      }
    }
  }

  /** The plan that comes out: the author's plan, with the one anchor where it was chosen. */
  lemma PlanCompiledContents(h: Hashing, p: Plan, o: Options, out: CompiledPlan)
    requires PlanCompiled(h, p, o) == Ok(out)
    ensures p.steps != [] && AnchorChosen(p.steps, o, out.anchor) && OnlyAnchor(out)
    ensures |out.plan.steps| == |p.steps| && out.plan.(steps := []) == p.(steps := [])
    ensures forall i :: 0 <= i < |p.steps| ==>
      && out.plan.steps[i].(verify := []) == p.steps[i].(verify := [])
      && KeepSource(out.plan.steps[i].verify) == KeepSource(p.steps[i].verify)
  {
    hide Anchors, KeepSource, Compiled, SelectAnchor, AnchorChosen, FormalCheck, SemanticCheck, SameSources;
    var stripped := StripGenerated(p).value;
    SelectionIsChosen(p, stripped, o);
    StrippedIsClean(p, stripped);
    StripUndoesInstall(h, stripped.base, out.contract, o, out.anchor);
    FormalCheckCarries(h, out.contract, o);
    AnchorsAre(out.plan.steps);
    assert StripSteps(out.plan.steps) == StripSteps(p.steps);
    forall i | 0 <= i < |p.steps|
      ensures out.plan.steps[i].(verify := []) == p.steps[i].(verify := [])
        && KeepSource(out.plan.steps[i].verify) == KeepSource(p.steps[i].verify)
    {
      assert StripSteps(out.plan.steps)[i] == StripSteps(p.steps)[i];
    }
  }

  // -------------------------------------------------- which plans can be compiled

  ghost predicate HasMarker(raw: RawContract) {
    exists f :: f in raw.initial && "formalization-source:" <= f
  }

  /** At most one check carries a contract, and that contract has a source marker. */
  ghost predicate AnchorRules(steps: seq<Step>) {
    && |Anchors(steps)| <= 1
    && forall s, c :: Anchoring(steps, s, c) ==> HasMarker(c.formal.value)
  }

  /** What `compile_plan` asks of a plan. */
  ghost predicate PlanCompileRules(h: Hashing, p: Plan, o: Options) {
    && AnchorRules(p.steps) && CompileRules(h, p)
    && (o.anchorStep.Some? ==> exists s :: s in p.steps && s.id == o.anchorStep.value)
  }

  lemma OnlyContract(steps: seq<Step>)
    requires |Anchors(steps)| == 1
    ensures var check := Anchors(steps)[0].check;
      check.formal.Some? && (AnchorRules(steps) <==> HasMarker(check.formal.value))
  {
    hide Anchors, HasMarker;
    AnchorsAre(steps);
    var a := Anchors(steps)[0];
    assert a in Anchors(steps);
    var s :| Anchoring(steps, s, a.check) && s.id == a.step;
    forall t, c | Anchoring(steps, t, c) ensures c == a.check { assert Anchor(t.id, c) in Anchors(steps); }
  }

  lemma NoContract(steps: seq<Step>)
    requires Anchors(steps) == []
    ensures AnchorRules(steps)
  {
    hide Anchors;
    AnchorsAre(steps);
    forall t, c ensures !Anchoring(steps, t, c) { assert Anchoring(steps, t, c) ==> Anchor(t.id, c) in Anchors(steps); }
  }

  lemma StripsExactly(p: Plan)
    ensures StripGenerated(p).Ok? <==> AnchorRules(p.steps)
    ensures StripGenerated(p).Ok? ==> StripGenerated(p).value.base == p.(steps := StripSteps(p.steps))
  {
    hide Anchors, StripSteps, Anchoring;
    if |Anchors(p.steps)| == 1 { OnlyContract(p.steps); }
    if Anchors(p.steps) == [] { NoContract(p.steps); }
  }

  lemma StrippingKeepsSources(p: Plan)
    ensures var base := p.(steps := StripSteps(p.steps)); SameSources(base, p) && StepIds(base.steps) == StepIds(p.steps)
  {
    var base := p.(steps := StripSteps(p.steps));
    forall i | 0 <= i < |p.steps| ensures SameSource(base.steps[i], p.steps[i]) { KeepTwice(p.steps[i].verify); }
    SameDeclared(base.steps, p.steps);
  }

  lemma ChosenExists(steps: seq<Step>, o: Options, id: int)
    requires steps != [] && o.anchorStep.None? && AnchorChosen(steps, o, id)
    ensures id in StepIds(steps)
  {
    if s, c :| Anchoring(steps, s, c) {
      ListedId(steps, s);
    } else if s :| Independent(steps, s) {
      var t :| Independent(steps, t) && t.id == id;
      ListedId(steps, t);
    } else {
      ListedId(steps, steps[0]);
    }
  }

  lemma ListedId(steps: seq<Step>, s: Step)
    requires s in steps
    ensures s.id in StepIds(steps)
  {
    var i :| 0 <= i < |steps| && steps[i] == s;
    assert StepIds(steps)[i] == s.id;
  }

  lemma ListedStep(steps: seq<Step>, id: int)
    ensures id in StepIds(steps) <==> exists s :: s in steps && s.id == id
  {
    if id in StepIds(steps) {
      var i :| 0 <= i < |steps| && StepIds(steps)[i] == id;
      assert steps[i] in steps;
    }
    if s :| s in steps && s.id == id { ListedId(steps, s); }
  }

  /** A plan can be compiled exactly when it keeps the rules. */
  lemma PlanCompilesExactly(h: Hashing, p: Plan, o: Options)
    ensures PlanCompiled(h, p, o).Ok? <==> PlanCompileRules(h, p, o)
  {
    hide StripGenerated, Compiled, CompileRules, SelectAnchor, AnchorRules, SameSources, StripSteps, AnchorChosen;
    StripsExactly(p);
    CompilesExactly(h, p);
    CompiledHasSteps(h, p);
    if StripGenerated(p).Ok? {
      var stripped := StripGenerated(p).value;
      var base := stripped.base;
      StrippingKeepsSources(p);
      CompilationDependsOnSources(h, base, p);
      if base.steps != [] {
        SelectionIsChosen(p, stripped, o);
        SelectionWorks(h, p, base, o, stripped.anchor);
        if o.anchorStep.Some? {
          ListedStep(p.steps, o.anchorStep.value);
        } else if SelectAnchor(base.steps, o, stripped.anchor).Ok? {
          ChosenExists(p.steps, o, SelectAnchor(base.steps, o, stripped.anchor).value);
        }
      }
    }
  }

  lemma CompiledHasSteps(h: Hashing, p: Plan)
    ensures Compiled(h, p).Ok? ==> p.steps != []
  {
    hide StepAccepted, RequirementsAccepted;
  }

  lemma SelectionWorks(h: Hashing, p: Plan, base: Plan, o: Options, existing: Option<int>)
    requires base.steps != []
    ensures Compiled(h, base).Ok? ==> SelectAnchor(base.steps, o, existing).Ok?
    ensures o.anchorStep.Some? ==> SelectAnchor(base.steps, o, existing) == Ok(o.anchorStep.value)
  {
    hide StepAccepted, RequirementsAccepted, Roots;
  }

  /** `compile_plan`. */
  method CompilePlan(h: Hashing, p: Plan, o: Options) returns (r: Result<CompiledPlan>)
    ensures r == PlanCompiled(h, p, o)
    ensures r.Ok? <==> PlanCompileRules(h, p, o)
    ensures r.Ok? ==> p.steps != [] && AnchorChosen(p.steps, o, r.value.anchor) && OnlyAnchor(r.value)
    ensures r.Ok? ==> |r.value.plan.steps| == |p.steps| && r.value.plan.(steps := []) == p.(steps := [])
    ensures r.Ok? ==> forall i :: 0 <= i < |p.steps| ==>
      && r.value.plan.steps[i].(verify := []) == p.steps[i].(verify := [])
      && KeepSource(r.value.plan.steps[i].verify) == KeepSource(p.steps[i].verify)
  {
    hide StripGenerated, Compiled, AnchorChosen, OnlyAnchor, KeepSource, ActionFor, Added, CompileRules, PlanCompileRules;
    PlanCompilesExactly(h, p, o);
    var stripped := StripGeneratedChecks(p);
    if stripped.Err? || stripped.value.base.steps == [] {
      return Err;
    }
    var base := stripped.value.base;
    var id := SelectAnchor(base.steps, o, stripped.value.anchor);
    if id.Err? || id.value !in StepIds(base.steps) {
      return Err;
    }
    var raw := CompileContract(h, base);
    if raw.Err? {
      return Err;
    }
    var checks := [FormalCheck(h, raw.value, o), SemanticCheck(h, raw.value)];
    r := Ok(CompiledPlan(base.(steps := Install(base.steps, id.value, checks)), raw.value, id.value));
    PlanCompiledContents(h, p, o, r.value);
  }

  // -------------------------------------------------- what compilation depends on

  ghost predicate SameSource(s: Step, t: Step) {
    && s == t.(title := s.title, dependsOn := s.dependsOn, verify := s.verify)
    && DeclaredDeps(s) == DeclaredDeps(t) && KeepSource(s.verify) == KeepSource(t.verify)
  }

  /** No step leaves its dependency list out. */
  predicate AllDeclare(steps: seq<Step>) {
    forall s :: s in steps ==> s.dependsOn.Some?
  }

  ghost predicate SameSources(p: Plan, q: Plan) {
    && p.task == q.task && p.requirements == q.requirements && |p.steps| == |q.steps|
    && (|p.steps| > 1 ==> (AllDeclare(p.steps) <==> AllDeclare(q.steps)))
    && forall i :: 0 <= i < |p.steps| ==> SameSource(p.steps[i], q.steps[i])
  }

  lemma SameSourceFact(h: Hashing, p: Plan, q: Plan)
    requires SameSources(p, q)
    ensures SourceFact(h, p) == SourceFact(h, q)
  {
    hide KeepSource;
    forall i | 0 <= i < |p.steps| ensures ProjectStep(p.steps[i]) == ProjectStep(q.steps[i]) {
      assert SameSource(p.steps[i], q.steps[i]);
    }
    assert SourceProjection(p) == SourceProjection(q);
  }

  /** The source projection forgets exactly titles, generated checks, required tools, and whether an empty dependency list is
      written. */
  lemma ProjectionExactly(p: Plan, q: Plan)
    ensures SourceProjection(p) == SourceProjection(q) <==>
      && p.task == q.task && p.requirements == q.requirements && |p.steps| == |q.steps|
      && forall i :: 0 <= i < |p.steps| ==> SameSource(p.steps[i], q.steps[i])
  {
    hide KeepSource;
    if SourceProjection(p) == SourceProjection(q) {
      forall i | 0 <= i < |p.steps| ensures SameSource(p.steps[i], q.steps[i]) {
        assert SourceProjection(p).steps[i] == SourceProjection(q).steps[i];
      }
    }
    if |p.steps| == |q.steps| && forall i :: 0 <= i < |p.steps| ==> SameSource(p.steps[i], q.steps[i]) {
      forall i | 0 <= i < |p.steps| ensures ProjectStep(p.steps[i]) == ProjectStep(q.steps[i]) {
        assert SameSource(p.steps[i], q.steps[i]);
      }
      assert SourceProjection(p).steps == SourceProjection(q).steps;
    }
  }

  lemma SameStep(h: Hashing, p: Plan, q: Plan, s: Step, t: Step)
    requires SameSource(s, t) && p.requirements == q.requirements
    ensures StepAccepted(h, p, s) <==> StepAccepted(h, q, t)
    ensures StrippedCovers(s) == StrippedCovers(t) && OutputFacts(h, s) == OutputFacts(h, t)
    ensures RefFacts(h, s) == RefFacts(h, t) && Adds(h, p, s) == Adds(h, q, t)
  {
    hide Strip, OutputFact, RequirementFact, Blank, KeepSource;
    assert StrippedNames(s) == StrippedNames(t);
    assert StrippedCovers(s) == StrippedCovers(t);
    assert RequirementIds(p) == RequirementIds(q);
    forall d ensures Linked(s, d) <==> Linked(t, d) {
    }
  }

  lemma SameGraph(p: seq<Step>, q: seq<Step>)
    requires |p| == |q| && forall i :: 0 <= i < |p| ==> SameSource(p[i], q[i])
    requires |p| > 1 && AllDeclare(p) ==> AllDeclare(q)
    ensures GraphAccepted(p) ==> GraphAccepted(q)
  {
    hide KeepSource;
    assert StepIds(p) == StepIds(q) by {
      forall i | 0 <= i < |p| ensures p[i].id == q[i].id { assert SameSource(p[i], q[i]); }
    }
    if GraphAccepted(p) {
      forall t | t in q ensures t.id >= 1 && DepsAccepted(DeclaredDeps(t), t.id, StepIds(q)) {
        var i :| 0 <= i < |q| && q[i] == t;
        assert SameSource(p[i], q[i]) && p[i] in p;
      }
    }
  }

  lemma SameCollected(h: Hashing, p: seq<Step>, q: seq<Step>, a: Plan, b: Plan)
    requires |p| == |q| && forall i :: 0 <= i < |p| ==> SameSource(p[i], q[i])
    requires a.requirements == b.requirements
    ensures Covered(p) <= Covered(q) && AllOutputFacts(h, p) <= AllOutputFacts(h, q) && AllStepFacts(p) <= AllStepFacts(q)
    ensures (forall s :: s in p ==> StepAccepted(h, a, s)) ==> forall t :: t in q ==> StepAccepted(h, b, t)
  {
    hide KeepSource, StepAccepted, OutputFacts, StepFact, Strip;
    forall i | 0 <= i < |p| ensures q[i] in q && p[i] in p && StrippedCovers(p[i]) == StrippedCovers(q[i])
      && OutputFacts(h, p[i]) == OutputFacts(h, q[i]) && (StepAccepted(h, a, p[i]) <==> StepAccepted(h, b, q[i])) && p[i].id == q[i].id {
      assert SameSource(p[i], q[i]);
      SameStep(h, a, b, p[i], q[i]);
    }
  }

  lemma SourcesSymmetric(p: Plan, q: Plan)
    requires SameSources(p, q)
    ensures SameSources(q, p)
  {
    hide KeepSource;
    forall i | 0 <= i < |q.steps| ensures SameSource(q.steps[i], p.steps[i]) {
      assert SameSource(p.steps[i], q.steps[i]);
    }
  }

  lemma SameAcceptance(h: Hashing, p: Plan, q: Plan)
    requires SameSources(p, q)
    ensures Accepted(h, p) ==> Accepted(h, q)
    ensures Goals(h, p) <= Goals(h, q)
  {
    hide KeepSource, StepAccepted, Covered, AllOutputFacts, AllStepFacts, GraphAccepted;
    assert Required(p) == Required(q);
    assert RequirementIds(p) == RequirementIds(q);
    SameGraph(p.steps, q.steps);
    SameCollected(h, p.steps, q.steps, p, q);
  }

  /** Titles, generated checks and the required tools never influence the compiled contract, and neither does a
      dependency list that is left out instead of empty, as long as one step alone may leave it out. */
  lemma CompilationDependsOnSources(h: Hashing, p: Plan, q: Plan)
    requires SameSources(p, q)
    ensures Compiled(h, p) == Compiled(h, q)
  {
    hide KeepSource, Accepted, Goals, SortStrings, SourceFact, Adds, RefFacts;
    SourcesSymmetric(p, q);
    SameAcceptance(h, p, q);
    SameAcceptance(h, q, p);
    SameSourceFact(h, p, q);
    forall i | 0 <= i < |p.steps| ensures ActionOf(h, p, p.steps[i]) == ActionOf(h, q, q.steps[i]) {
      assert SameSource(p.steps[i], q.steps[i]);
      SameStep(h, p, q, p.steps[i], q.steps[i]);
    }
    assert Actions(h, p) == Actions(h, q);
    assert Goals(h, p) == Goals(h, q);
  }

  // -------------------------------------------------- stripping undoes installing

  lemma {:induction false} KeepConcat(a: seq<Check>, b: seq<Check>)
    ensures KeepSource(a + b) == KeepSource(a) + KeepSource(b)
    ensures AnchorsIn(a + b) == AnchorsIn(a) + AnchorsIn(b)
    decreases |b|
  {
    if b == [] {
      assert a + b == a;
    } else {
      KeepConcat(a, b[..|b| - 1]);
      assert (a + b)[..|a + b| - 1] == a + b[..|b| - 1];
    }
  }

  lemma {:induction false} KeepTwice(v: seq<Check>)
    ensures KeepSource(KeepSource(v)) == KeepSource(v)
    ensures AnchorsIn(KeepSource(v)) == []
  {
    if v != [] {
      var n := |v| - 1;
      KeepTwice(v[..n]);
      var tail := if Generated(v[n]) then [] else [v[n]];
      KeepConcat(KeepSource(v[..n]), tail);
      assert tail != [] ==> tail[..0] == [];
    }
  }

  lemma InstalledChecks(h: Hashing, raw: RawContract, o: Options, v: seq<Check>)
    requires KeepSource(v) == v && AnchorsIn(v) == []
    ensures var checks := [FormalCheck(h, raw, o), SemanticCheck(h, raw)];
      KeepSource(checks + v) == v && AnchorsIn(checks + v) == [FormalCheck(h, raw, o)]
  {
    var f, m := FormalCheck(h, raw, o), SemanticCheck(h, raw);
    KeepConcat([f, m], v);
    assert [f, m][..1] == [f] && [f][..0] == [];
    assert Generated(f) && Generated(m);
    assert KeepSource([f]) == [] && AnchorsIn([f]) == [f];
    assert KeepSource([f, m]) == [] && AnchorsIn([f, m]) == [f];
  }

  lemma {:induction false} AnchorsConcat(a: seq<Step>, b: seq<Step>)
    ensures Anchors(a + b) == Anchors(a) + Anchors(b)
    decreases |b|
  {
    hide AnchorsOf, AnchorsIn;
    if b == [] {
      assert a + b == a;
    } else {
      var n := |b| - 1;
      AnchorsConcat(a, b[..n]);
      assert (a + b)[..|a + b| - 1] == a + b[..n] && (a + b)[|a + b| - 1] == b[n];
      assert Anchors(a + b) == Anchors(a + b[..n]) + AnchorsOf(b[n]);
    }
  }

  lemma {:induction false} NoAnchors(steps: seq<Step>)
    requires forall s :: s in steps ==> AnchorsIn(s.verify) == []
    ensures Anchors(steps) == []
  {
    if steps != [] {
      NoAnchors(steps[..|steps| - 1]);
    }
  }

  lemma AnchorsInstalled(steps: seq<Step>, i: nat, s: Step, check: Check)
    requires i < |steps| && forall t :: t in steps ==> AnchorsIn(t.verify) == []
    requires AnchorsIn(s.verify) == [check]
    ensures Anchors(steps[i := s]) == [Anchor(s.id, check)]
  {
    var out := steps[i := s];
    assert out == (steps[..i] + [s]) + steps[i + 1..];
    AnchorsConcat(steps[..i] + [s], steps[i + 1..]);
    AnchorsConcat(steps[..i], [s]);
    NoAnchors(steps[..i]);
    NoAnchors(steps[i + 1..]);
    assert [s][..0] == [];
    assert AnchorsOf(s) == [Anchor(s.id, check)];
  }

  ghost predicate Clean(steps: seq<Step>) {
    forall s :: s in steps ==> KeepSource(s.verify) == s.verify && AnchorsIn(s.verify) == []
  }

  lemma StrippedIsClean(p: Plan, stripped: Stripped)
    requires StripGenerated(p) == Ok(stripped)
    ensures Clean(stripped.base.steps)
  {
    forall s | s in stripped.base.steps ensures KeepSource(s.verify) == s.verify && AnchorsIn(s.verify) == [] {
      var i :| 0 <= i < |stripped.base.steps| && stripped.base.steps[i] == s;
      KeepTwice(p.steps[i].verify);
    }
  }

  /** Installing into a stripped plan leaves one anchor, and stripping again restores the base. */
  lemma StripUndoesInstall(h: Hashing, base: Plan, raw: RawContract, o: Options, id: int)
    requires Clean(base.steps) && id in StepIds(base.steps) && Compiled(h, base) == Ok(raw)
    ensures var checks := [FormalCheck(h, raw, o), SemanticCheck(h, raw)];
      var out := base.(steps := Install(base.steps, id, checks));
      && Anchors(out.steps) == [Anchor(id, FormalCheck(h, raw, o))]
      && StripGenerated(out) == Ok(Stripped(base, Some(id)))
      && SameSources(base, out)
  {
    hide Compiled, SourceFact, KeepSource, AnchorsIn, Anchors, FormalCheck, SemanticCheck;
    CompiledInitial(h, base, raw);
    FormalCheckCarries(h, raw, o);
    var checks := [FormalCheck(h, raw, o), SemanticCheck(h, raw)];
    var i := Position(StepIds(base.steps), id);
    var s := base.steps[i];
    assert s in base.steps;
    InstalledChecks(h, raw, o, s.verify);
    var s' := s.(verify := checks + s.verify);
    AnchorsInstalled(base.steps, i, s', FormalCheck(h, raw, o));
    var out := base.(steps := Install(base.steps, id, checks));
    assert out.steps == base.steps[i := s'];
    forall k | 0 <= k < |base.steps|
      ensures StripStep(out.steps[k]) == base.steps[k] && SameSource(base.steps[k], out.steps[k])
    {
      assert base.steps[k] in base.steps;
    }
    assert StripSteps(out.steps) == base.steps;
    SameDeclared(base.steps, out.steps);
    assert IsGenerated(raw);
  }

  lemma SameDeclared(a: seq<Step>, b: seq<Step>)
    requires |a| == |b| && forall i :: 0 <= i < |a| ==> a[i].dependsOn == b[i].dependsOn
    ensures AllDeclare(a) <==> AllDeclare(b)
  {
    if AllDeclare(a) {
      forall t | t in b ensures t.dependsOn.Some? {
        var i :| 0 <= i < |b| && b[i] == t;
        assert a[i] in a;
      }
    }
    if AllDeclare(b) {
      forall t | t in a ensures t.dependsOn.Some? {
        var i :| 0 <= i < |a| && a[i] == t;
        assert b[i] in b;
      }
    }
  }

  lemma CompiledInitial(h: Hashing, p: Plan, raw: RawContract)
    requires Compiled(h, p) == Ok(raw)
    ensures raw.initial == [SourceFact(h, p)] && IsMarker(raw.initial[0]) && IsGenerated(raw)
  {
    hide Accepted, Goals, SortStrings, Actions;
    assert IsMarker(SourceFact(h, p));
    assert raw.initial[0] in raw.initial;
  }

  /** The installed check names the contract's hash, and asks for Fast Downward exactly as the options say. */
  lemma FormalCheckSays(h: Hashing, raw: RawContract, o: Options)
    ensures var argv := FormalCheck(h, raw, o).argv.value;
      && argv[..5] == ["plan-auditor-formal", "verify", ".", "--contract-sha", h.contract(raw)]
      && (o.fastDownward.None? && !o.requireFastDownward ==> argv[5..] == [])
      && (o.fastDownward.None? && o.requireFastDownward ==> argv[5..] == ["--require-fast-downward"])
      && (o.fastDownward.Some? && !o.requireFastDownward ==> argv[5..] == ["--fast-downward", o.fastDownward.value])
      && (o.fastDownward.Some? && o.requireFastDownward ==>
            argv[5..] == ["--fast-downward", o.fastDownward.value, "--require-fast-downward"])
  {
  }

  lemma FormalCheckCarries(h: Hashing, raw: RawContract, o: Options)
    ensures FormalCheck(h, raw, o).formal == Some(raw)
  {
  }

  // -------------------------------------------------- recompilation

  datatype GeneratedError = SeveralMarkers | StaleFingerprint | CannotRecompile | Differs

  function MarkersOf(facts: seq<string>): seq<string> {
    if facts == [] then []
    else MarkersOf(facts[..|facts| - 1]) + if IsMarker(facts[|facts| - 1]) then [facts[|facts| - 1]] else []
  }

  /** `validate_generated_contract`. */
  function GeneratedErrors(h: Hashing, p: Plan, raw: RawContract): seq<GeneratedError> {
    var markers := MarkersOf(raw.initial);
    if markers == [] then []
    else if |markers| != 1 then [SeveralMarkers]
    else
      (if markers[0] != SourceFact(h, p) then [StaleFingerprint] else [])
      + match Compiled(h, p)
        case Err => [CannotRecompile]
        case Ok(expected) => if raw != expected then [Differs] else []
  }

  lemma SingleMarker(f: string)
    requires IsMarker(f)
    ensures MarkersOf([f]) == [f]
  {
    assert [f][..0] == [];
  }

  /** A contract that carries a fingerprint is accepted only if it is exactly the recompilation. */
  lemma GeneratedExactly(h: Hashing, p: Plan, raw: RawContract)
    requires MarkersOf(raw.initial) != []
    ensures GeneratedErrors(h, p, raw) == [] <==> Compiled(h, p) == Ok(raw)
  {
    hide Accepted, Goals, SortStrings, Actions;
    if Compiled(h, p) == Ok(raw) {
      SingleMarker(SourceFact(h, p));
    }
  }

  /** Recompilation is stable: the installed contract validates against its own plan, and
      compiling the result again with the same options changes nothing. */
  lemma RecompilationIsStable(h: Hashing, p: Plan, o: Options, out: CompiledPlan)
    requires PlanCompiled(h, p, o) == Ok(out)
    ensures Anchors(out.plan.steps) == [Anchor(out.anchor, FormalCheck(h, out.contract, o))]
    ensures GeneratedErrors(h, out.plan, out.contract) == []
    ensures PlanCompiled(h, out.plan, o) == Ok(out)
  {
    hide Accepted, Goals, SortStrings, KeepSource, AnchorsIn, Actions, Anchors, SameSources, SourceFact, MarkersOf;
    var stripped := StripGenerated(p).value;
    var base := stripped.base;
    StrippedIsClean(p, stripped);
    StripUndoesInstall(h, base, out.contract, o, out.anchor);
    CompilationDependsOnSources(h, base, out.plan);
    SingleMarkerOf(h, out.plan, out.contract);
    GeneratedExactly(h, out.plan, out.contract);
  }

  lemma SingleMarkerOf(h: Hashing, p: Plan, raw: RawContract)
    requires Compiled(h, p) == Ok(raw)
    ensures MarkersOf(raw.initial) == [SourceFact(h, p)]
  {
    hide Accepted, Goals, SortStrings, Actions;
    SingleMarker(SourceFact(h, p));
  }

  // -------------------------------------------------- semantic alignment

  function Producers(raw: RawContract, fact: string): set<int> {
    set a | a in raw.actions && fact in a.addEffects :: a.step
  }

  /** The entry of the id-to-covers dictionary: the last step with the id decides. */
  predicate CoversAt(steps: seq<Step>, i: int, id: int, requirement: string) {
    && 0 <= i < |steps| && steps[i].id == id && (forall j :: i < j < |steps| ==> steps[j].id != id)
    && requirement in StrippedCovers(steps[i])
  }

  predicate Covers(steps: seq<Step>, id: int, requirement: string) {
    exists i :: 0 <= i < |steps| && CoversAt(steps, i, id, requirement)
  }

  predicate EffectFree(a: RawAction) {
    a.addEffects == [] && a.delEffects == []
  }

  predicate CheckedRequirement(r: Requirement) {
    IsRequired(r) && Strip(r.id) != ""
  }

  ghost predicate RequirementAligned(p: Plan, raw: RawContract, r: Requirement) {
    var fact := RequirementFact(r.id);
    CheckedRequirement(r) ==>
      && |fact| <= MAX_FACT_LEN && fact in raw.goals && fact !in raw.initial
      && Producers(raw, fact) != {}
      && forall sid :: sid in Producers(raw, fact) ==> Covers(p.steps, sid, Strip(r.id))
  }

  /** What `analyze_formal_semantics` demands of a plan with the given anchor contract. */
  ghost predicate Aligned(h: Hashing, p: Plan, raw: RawContract) {
    && (MarkersOf(raw.initial) != [] ==> GeneratedErrors(h, p, raw) == [])
    && (forall a :: a in raw.actions ==> !EffectFree(a))
    && forall r :: r in p.requirements ==> RequirementAligned(p, raw, r)
  }

  datatype SemanticError =
    | NotOneAnchor
    | Recompilation(error: GeneratedError)
    | NoEffect(step: int)
    | IdTooLong(requirement: string)
    | NotAGoal(requirement: string)
    | TrueInitially(requirement: string)
    | NoProducer(requirement: string)
    | StrayProducer(requirement: string)
    | NoCoveringProducer(requirement: string)

  /** The errors `analyze_formal_semantics` reports about one requirement. */
  ghost predicate RequirementFault(p: Plan, raw: RawContract, r: Requirement, e: SemanticError) {
    var fact := RequirementFact(r.id);
    var producers := Producers(raw, fact);
    match e
    case NotOneAnchor => false
    case Recompilation(_) => false
    case NoEffect(_) => false
    case IdTooLong(id) => id == Strip(r.id) && CheckedRequirement(r) && |fact| > MAX_FACT_LEN
    case NotAGoal(id) => id == Strip(r.id) && CheckedRequirement(r) && |fact| <= MAX_FACT_LEN && fact !in raw.goals
    case TrueInitially(id) => id == Strip(r.id) && BoundRequirement(raw, r) && fact in raw.initial
    case NoProducer(id) => id == Strip(r.id) && BoundRequirement(raw, r) && producers == {}
    case StrayProducer(id) =>
      id == Strip(r.id) && BoundRequirement(raw, r) && exists sid :: sid in producers && !Covers(p.steps, sid, id)
    case NoCoveringProducer(id) =>
      id == Strip(r.id) && BoundRequirement(raw, r) && producers != {} && forall sid :: sid in producers ==> !Covers(p.steps, sid, id)
  }

  /** The requirement's fact fits and is a goal. */
  predicate BoundRequirement(raw: RawContract, r: Requirement) {
    CheckedRequirement(r) && |RequirementFact(r.id)| <= MAX_FACT_LEN && RequirementFact(r.id) in raw.goals
  }

  ghost predicate SemanticFault(h: Hashing, p: Plan, raw: RawContract, e: SemanticError) {
    match e
    case NotOneAnchor => false
    case Recompilation(error) => MarkersOf(raw.initial) != [] && error in GeneratedErrors(h, p, raw)
    case NoEffect(step) => exists a :: a in raw.actions && EffectFree(a) && a.step == step
    case _ => exists r :: r in p.requirements && RequirementFault(p, raw, r, e)
  }

  /** The requirement loop body of `analyze_formal_semantics`. */
  method RequirementErrors(p: Plan, raw: RawContract, r: Requirement) returns (errors: seq<SemanticError>)
    ensures forall e :: e in errors <==> RequirementFault(p, raw, r, e)
  {
    hide Strip, RequirementFact, Covers, Producers;
    errors := [];
    if !CheckedRequirement(r) {
      return;
    }
    var id, fact := Strip(r.id), RequirementFact(r.id);
    if |fact| > MAX_FACT_LEN {
      return [IdTooLong(id)];
    }
    if fact !in raw.goals {
      return [NotAGoal(id)];
    }
    if fact in raw.initial {
      errors := errors + [TrueInitially(id)];
    }
    var producers := Producers(raw, fact);
    if producers == {} {
      return errors + [NoProducer(id)];
    }
    if exists sid :: sid in producers && !Covers(p.steps, sid, id) {
      errors := errors + [StrayProducer(id)];
    }
    if !exists sid :: sid in producers && Covers(p.steps, sid, id) {
      errors := errors + [NoCoveringProducer(id)];
    }
  }

  /** The action loop: actions without a symbolic effect. */
  method EffectErrors(raw: RawContract) returns (errors: seq<SemanticError>)
    ensures forall e :: e in errors <==> e.NoEffect? && exists a :: a in raw.actions && EffectFree(a) && a.step == e.step
  {
    errors := [];
    for k := 0 to |raw.actions|
      invariant forall e :: e in errors <==>
        e.NoEffect? && exists i :: 0 <= i < k && EffectFree(raw.actions[i]) && raw.actions[i].step == e.step
    {
      if EffectFree(raw.actions[k]) {
        errors := errors + [NoEffect(raw.actions[k].step)];
      }
    }
    forall e ensures e in errors <==> e.NoEffect? && exists a :: a in raw.actions && EffectFree(a) && a.step == e.step {
      if e.NoEffect? && exists a :: a in raw.actions && EffectFree(a) && a.step == e.step {
        var a :| a in raw.actions && EffectFree(a) && a.step == e.step;
        var i :| 0 <= i < |raw.actions| && raw.actions[i] == a;
      }
    }
  }

  /** The requirement loop. */
  method AllRequirementErrors(p: Plan, raw: RawContract) returns (errors: seq<SemanticError>)
    ensures forall e :: e in errors <==> exists r :: r in p.requirements && RequirementFault(p, raw, r, e)
  {
    hide RequirementFault;
    errors := [];
    for k := 0 to |p.requirements|
      invariant forall e :: e in errors <==> exists i :: 0 <= i < k && RequirementFault(p, raw, p.requirements[i], e)
    {
      var more := RequirementErrors(p, raw, p.requirements[k]);
      errors := errors + more;
    }
    forall e ensures e in errors <==> exists r :: r in p.requirements && RequirementFault(p, raw, r, e) {
      if r :| r in p.requirements && RequirementFault(p, raw, r, e) {
        var i :| 0 <= i < |p.requirements| && p.requirements[i] == r;
      }
    }
  }

  /** `analyze_formal_semantics`: nothing to report without an anchor; with exactly one, the faults of its contract,
      so no error exactly when the contract is aligned. */
  method AnalyzeSemantics(h: Hashing, p: Plan) returns (errors: seq<SemanticError>)
    ensures Anchors(p.steps) == [] ==> errors == []
    ensures |Anchors(p.steps)| > 1 ==> errors == [NotOneAnchor]
    ensures |Anchors(p.steps)| == 1 && Anchors(p.steps)[0].check.formal.Some? ==>
      forall e :: e in errors <==> SemanticFault(h, p, Anchors(p.steps)[0].check.formal.value, e)
    ensures |Anchors(p.steps)| == 1 && Anchors(p.steps)[0].check.formal.Some? ==>
      (errors == [] <==> Aligned(h, p, Anchors(p.steps)[0].check.formal.value))
    ensures |Anchors(p.steps)| == 1 && Anchors(p.steps)[0].check.formal.Some? ==>
      (errors == [] <==> AlignmentRules(h, p, Anchors(p.steps)[0].check.formal.value))
  {
    hide GeneratedErrors, MarkersOf, Anchors, RequirementFault, EffectFree, Aligned, AlignmentRules;
    errors := [];
    var anchors := Anchors(p.steps);
    if anchors == [] {
      return;
    }
    if |anchors| != 1 || anchors[0].check.formal.None? {
      return [NotOneAnchor];
    }
    var raw := anchors[0].check.formal.value;
    if MarkersOf(raw.initial) != [] {
      var generated := GeneratedErrors(h, p, raw);
      errors := seq(|generated|, i requires 0 <= i < |generated| => Recompilation(generated[i]));
      assert forall i :: 0 <= i < |generated| ==> errors[i] == Recompilation(generated[i]);
    }
    var effects := EffectErrors(raw);
    var requirements := AllRequirementErrors(p, raw);
    RequirementKinds(p, raw);
    errors := errors + effects + requirements;
    SilentExactly(h, p, raw);
    AlignedMeans(h, p, raw);
    if errors != [] {
      assert errors[0] in errors;
    }
  }

  lemma RequirementKinds(p: Plan, raw: RawContract)
    ensures forall r, e :: RequirementFault(p, raw, r, e) ==> !e.NotOneAnchor? && !e.Recompilation? && !e.NoEffect?
  {
  }

  // -------------------------------------------------- alignment, in terms of what the contract says

  lemma {:induction false} MarkersAre(facts: seq<string>)
    ensures forall f :: f in MarkersOf(facts) <==> f in facts && "formalization-source:" <= f
  {
    if facts != [] {
      MarkersAre(facts[..|facts| - 1]);
      assert facts == facts[..|facts| - 1] + [facts[|facts| - 1]];
    }
  }

  /** The step that the id stands for, the last one of that id, covers the requirement. */
  ghost predicate StepOwns(steps: seq<Step>, id: int, r: Requirement) {
    exists i, c :: 0 <= i < |steps| && steps[i].id == id && (forall j :: i < j < |steps| ==> steps[j].id != id)
      && c in steps[i].covers && Strip(c) == Strip(r.id)
  }

  /** The requirement's fact is a goal that is not true from the start; some action adds it, and only actions of steps that
      cover the requirement do. */
  ghost predicate Supported(p: Plan, raw: RawContract, r: Requirement) {
    var fact := REQUIREMENT_PREFIX + Strip(r.id);
    && |fact| <= 256 && fact in raw.goals && fact !in raw.initial && Added(raw, fact)
    && forall a :: a in raw.actions && fact in a.addEffects ==> StepOwns(p.steps, a.step, r)
  }

  /** A contract with a source marker is the recompiled one, every action has an effect, and every binding requirement is
      supported. */
  ghost predicate AlignmentRules(h: Hashing, p: Plan, raw: RawContract) {
    && (HasMarker(raw) ==> Compiled(h, p) == Ok(raw))
    && (forall a :: a in raw.actions ==> |a.addEffects| > 0 || |a.delEffects| > 0)
    && forall r :: r in p.requirements && Binding(r) && Named(r.id) ==> Supported(p, raw, r)
  }

  lemma CoversMeans(steps: seq<Step>, id: int, r: Requirement)
    ensures Covers(steps, id, Strip(r.id)) <==> StepOwns(steps, id, r)
  {
    hide Strip;
    if Covers(steps, id, Strip(r.id)) {
      var i :| 0 <= i < |steps| && CoversAt(steps, i, id, Strip(r.id));
      var k :| 0 <= k < |steps[i].covers| && StrippedCovers(steps[i])[k] == Strip(r.id);
      assert steps[i].covers[k] in steps[i].covers;
    }
    if StepOwns(steps, id, r) {
      var i, c :| 0 <= i < |steps| && steps[i].id == id && (forall j :: i < j < |steps| ==> steps[j].id != id) && c in steps[i].covers && Strip(c) == Strip(r.id);
      var k :| 0 <= k < |steps[i].covers| && steps[i].covers[k] == c;
      assert StrippedCovers(steps[i])[k] == Strip(r.id);
      assert CoversAt(steps, i, id, Strip(r.id));
    }
  }

  lemma RequirementMeans(p: Plan, raw: RawContract, r: Requirement)
    ensures RequirementAligned(p, raw, r) <==> (Binding(r) && Named(r.id) ==> Supported(p, raw, r))
  {
    hide Strip, Covers, StepOwns, Named;
    NamedStripped(r.id);
    var fact := RequirementFact(r.id);
    forall id ensures Covers(p.steps, id, Strip(r.id)) <==> StepOwns(p.steps, id, r) { CoversMeans(p.steps, id, r); }
    if Added(raw, fact) {
      var a :| a in raw.actions && fact in a.addEffects;
      assert a.step in Producers(raw, fact);
    }
    if Producers(raw, fact) != {} {
      var id := Member(Producers(raw, fact));
      var a :| a in raw.actions && fact in a.addEffects && a.step == id;
      assert Added(raw, fact);
    }
  }

  lemma AlignedMeans(h: Hashing, p: Plan, raw: RawContract)
    ensures Aligned(h, p, raw) <==> AlignmentRules(h, p, raw)
  {
    hide GeneratedErrors, RequirementAligned, Supported, Compiled, Named;
    MarkersAre(raw.initial);
    var markers := MarkersOf(raw.initial);
    if markers != [] {
      assert markers[0] in markers;
      GeneratedExactly(h, p, raw);
    }
    forall r ensures RequirementAligned(p, raw, r) <==> (Binding(r) && Named(r.id) ==> Supported(p, raw, r)) { RequirementMeans(p, raw, r); }
  }

  lemma NoRequirementFault(p: Plan, raw: RawContract, r: Requirement)
    ensures (forall e :: !RequirementFault(p, raw, r, e)) <==> RequirementAligned(p, raw, r)
  {
    hide Strip, RequirementFact, Covers, Producers;
    var id := Strip(r.id);
    if forall e :: !RequirementFault(p, raw, r, e) {
      assert !RequirementFault(p, raw, r, IdTooLong(id)) && !RequirementFault(p, raw, r, NotAGoal(id));
      assert !RequirementFault(p, raw, r, TrueInitially(id)) && !RequirementFault(p, raw, r, NoProducer(id));
      assert !RequirementFault(p, raw, r, StrayProducer(id));
    }
    if RequirementAligned(p, raw, r) && CheckedRequirement(r) {
      var sid := Member(Producers(raw, RequirementFact(r.id)));
      assert Covers(p.steps, sid, id);
    }
  }

  lemma SilentExactly(h: Hashing, p: Plan, raw: RawContract)
    ensures (forall e :: !SemanticFault(h, p, raw, e)) <==> Aligned(h, p, raw)
  {
    hide GeneratedErrors, MarkersOf, RequirementFault, RequirementAligned, EffectFree;
    RequirementKinds(p, raw);
    if forall e :: !SemanticFault(h, p, raw, e) {
      var generated := GeneratedErrors(h, p, raw);
      assert generated != [] ==> generated[0] in generated && !SemanticFault(h, p, raw, Recompilation(generated[0]));
      forall a | a in raw.actions ensures !EffectFree(a) {
        assert !SemanticFault(h, p, raw, NoEffect(a.step));
      }
      forall r | r in p.requirements ensures RequirementAligned(p, raw, r) {
        forall e ensures !RequirementFault(p, raw, r, e) {
          assert !SemanticFault(h, p, raw, e);
        }
        NoRequirementFault(p, raw, r);
      }
    }
    if Aligned(h, p, raw) {
      forall r | r in p.requirements ensures forall e :: !RequirementFault(p, raw, r, e) {
        NoRequirementFault(p, raw, r);
      }
    }
  }

  lemma CoversLast(steps: seq<Step>, k: nat, id: string)
    requires Distinct(StepIds(steps)) && k < |steps| && id in StrippedCovers(steps[k])
    ensures Covers(steps, steps[k].id, id)
  {
    assert forall j :: k < j < |steps| ==> StepIds(steps)[k] != StepIds(steps)[j];
    assert CoversAt(steps, k, steps[k].id, id);
  }

  lemma CompiledIdsDistinct(h: Hashing, p: Plan, raw: RawContract)
    requires Compiled(h, p) == Ok(raw)
    ensures Distinct(StepIds(p.steps))
  {
  }

  lemma RequirementFactProducer(h: Hashing, p: Plan, s: Step, id: string)
    requires Trimmed(id) && RequirementFact(id) in Adds(h, p, s)
    ensures id in StrippedCovers(s) && id in Required(p)
  {
    hide StripLeft, StripRight, Numeral, Strip;
    var fact := RequirementFact(id);
    PrefixesDiffer("", Numeral(s.id), "", Strip(id));
    forall n ensures OutputFact(h, s.id, n) != fact {
      PrefixesDiffer("", "", Numeral(s.id) + ":" + h.cleaned(n) + ":" + h.digest(n), Strip(id));
    }
    var c :| c in StrippedCovers(s) && c in Required(p) && RequirementFact(c) == fact;
    PrefixCancel(REQUIREMENT_PREFIX, Strip(c), Strip(id));
    var i :| 0 <= i < |s.covers| && StrippedCovers(s)[i] == c;
    StripIsTrimmed(s.covers[i]);
  }

  lemma CompiledRequirementAligned(h: Hashing, p: Plan, raw: RawContract, r: Requirement)
    requires Compiled(h, p) == Ok(raw) && r in p.requirements && CheckedRequirement(r)
    ensures RequirementAligned(p, raw, r)
  {
    hide Strip, StripLeft, StripRight, SortStrings, StepAccepted, RequirementsAccepted, GraphAccepted, Adds, RefFacts, OutputFacts, SourceFact, AllOutputFacts, AllStepFacts;
    var id := Strip(r.id);
    StripIsTrimmed(r.id);
    var fact := RequirementFact(id);
    assert fact == RequirementFact(r.id);
    assert id in Required(p);
    assert fact in Goals(h, p);
    assert fact in Elems(raw.goals);
    MarkerIsNoRequirement(h, p, id);
    CompiledProducers(h, p, raw, id);
  }

  lemma CompiledProducers(h: Hashing, p: Plan, raw: RawContract, id: string)
    requires Compiled(h, p) == Ok(raw) && id in Required(p) && Trimmed(id)
    ensures |RequirementFact(id)| <= MAX_FACT_LEN
    ensures Producers(raw, RequirementFact(id)) != {}
    ensures forall sid :: sid in Producers(raw, RequirementFact(id)) ==> Covers(p.steps, sid, id)
  {
    hide Strip, SortStrings, StepAccepted, RequirementsAccepted, GraphAccepted, Adds, RefFacts, SourceFact, Goals, Required, RequirementFact, Covers, StrippedCovers, Trimmed, RequirementFacts, OutputFacts;
    CompiledIdsDistinct(h, p, raw);
    var fact := RequirementFact(id);
    SomeProducer(h, p, raw, id);
    forall sid | sid in Producers(raw, fact) ensures Covers(p.steps, sid, id) {
      var a :| a in raw.actions && fact in a.addEffects && a.step == sid;
      var k :| 0 <= k < |raw.actions| && raw.actions[k] == a;
      assert fact in Elems(a.addEffects);
      RequirementFactProducer(h, p, p.steps[k], id);
      CoversLast(p.steps, k, id);
    }
  }

  lemma SomeProducer(h: Hashing, p: Plan, raw: RawContract, id: string)
    requires Compiled(h, p) == Ok(raw) && id in Required(p)
    ensures |RequirementFact(id)| <= MAX_FACT_LEN
    ensures Producers(raw, RequirementFact(id)) != {}
  {
    hide Strip, SortStrings, StepAccepted, RequirementsAccepted, GraphAccepted, Adds, RefFacts, SourceFact, Goals, Required, RequirementFact;
    var fact := RequirementFact(id);
    assert id in Covered(p.steps);
    var s :| s in p.steps && id in StrippedCovers(s);
    CoveredFact(h, p, s, id);
    var i :| 0 <= i < |p.steps| && p.steps[i] == s;
    assert raw.actions[i] in raw.actions;
    assert fact in Elems(raw.actions[i].addEffects);
    assert s.id in Producers(raw, fact);
  }

  lemma MarkerIsNoRequirement(h: Hashing, p: Plan, id: string)
    ensures RequirementFact(id) != SourceFact(h, p)
  {
    hide Strip;
    PrefixesDiffer(h.source(SourceProjection(p)), "", "", Strip(id));
  }

  lemma CoveredFact(h: Hashing, p: Plan, s: Step, id: string)
    requires Accepted(h, p) && s in p.steps && id in StrippedCovers(s) && id in Required(p)
    ensures RequirementFact(id) in Adds(h, p, s) && |RequirementFact(id)| <= MAX_FACT_LEN
  {
    hide Strip, RequirementsAccepted, GraphAccepted, Required, Covered;
    assert StepAccepted(h, p, s);
    assert RequirementFact(id) in RequirementFacts(p, s);
  }

  /** Whatever the compiler installs is aligned: `analyze_formal_semantics` reports no error. */
  lemma CompiledPlanAligned(h: Hashing, p: Plan, o: Options, out: CompiledPlan)
    requires PlanCompiled(h, p, o) == Ok(out)
    ensures Aligned(h, out.plan, out.contract)
  {
    hide Accepted, SortStrings, KeepSource, AnchorsIn, Anchors, SourceFact, MarkersOf, GeneratedErrors, RequirementAligned, Adds, RefFacts, Goals;
    RecompilationIsStable(h, p, o, out);
    var raw, q := out.contract, out.plan;
    RecompiledContract(h, p, o, out);
    forall a | a in raw.actions ensures !EffectFree(a) {
      var i :| 0 <= i < |raw.actions| && raw.actions[i] == a;
      StepFactAdded(h, q, q.steps[i]);
      assert StepFact(q.steps[i].id) in Elems(a.addEffects);
    }
    forall r | r in q.requirements ensures RequirementAligned(q, raw, r) {
      if CheckedRequirement(r) {
        CompiledRequirementAligned(h, q, raw, r);
      } else {
        Unchecked(q, raw, r);
      }
    }
  }

  lemma Unchecked(p: Plan, raw: RawContract, r: Requirement)
    requires !CheckedRequirement(r)
    ensures RequirementAligned(p, raw, r)
  {
  }

  lemma StepFactAdded(h: Hashing, p: Plan, s: Step)
    ensures StepFact(s.id) in Adds(h, p, s)
  {
  }

  lemma RecompiledContract(h: Hashing, p: Plan, o: Options, out: CompiledPlan)
    requires PlanCompiled(h, p, o) == Ok(out)
    ensures Compiled(h, out.plan) == Ok(out.contract)
  {
    hide Accepted, Goals, SortStrings, KeepSource, AnchorsIn, Actions, Anchors, SameSources, SourceFact;
    var stripped := StripGenerated(p).value;
    StrippedIsClean(p, stripped);
    StripUndoesInstall(h, stripped.base, out.contract, o, out.anchor);
    CompilationDependsOnSources(h, stripped.base, out.plan);
  }
}

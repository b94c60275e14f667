/** A two-step plan on which compiling, linking and parsing can be followed by hand: the plan
    behind the untrimmed reference, and a hash that keeps outputs apart. */
module Witness {
  import opened Sequences
  import opened Text
  import opened Plans
  import opened PlanGraph
  import opened Compiler

  const TESTS := Check("pytest", None, None, "")

  /** Step 1 declares one output; step 2 depends on it by the same name. */
  function Producer(name: string): Step {
    Step(1, "make", Some([]), [], [Output(name, "", [TESTS])], ["R"], [TESTS])
  }

  function Consumer(name: string): Step {
    Step(2, "use", Some([1]), [OutputRef(1, name)], [], [], [TESTS])
  }

  function TwoSteps(name: string): Plan {
    Plan("task", [Requirement("R", "works", "must")], [], [Producer(name), Consumer(name)])
  }

  lemma ShortStrips()
    ensures Strip("") == "" && Strip("R") == "R" && Strip("works") == "works"
    ensures Strip("a") == "a" && Strip(" a") == "a"
  {
    assert " a"[1..] == "a";
    assert StripLeft(" a") == StripLeft("a") == "a" && StripLeft("R") == "R" && StripLeft("works") == "works";
  }

  lemma TwoStepsGraph(name: string)
    ensures GraphAccepted(TwoSteps(name).steps)
    ensures GraphOf(TwoSteps(name).steps) == map[1 := [], 2 := [1]]
    ensures !Cyclic(GraphOf(TwoSteps(name).steps))
    ensures Reaches(GraphOf(TwoSteps(name).steps), 2, 1)
  {
    var steps := TwoSteps(name).steps;
    var g := GraphOf(steps);
    assert StepIds(steps) == [1, 2];
    assert steps[..1] == [Producer(name)] && [Producer(name)][..0] == [];
    assert GraphOf([Producer(name)]) == map[1 := DeclaredDeps(Producer(name))];
    assert g == GraphOf([Producer(name)])[2 := DeclaredDeps(Consumer(name))];
    var order := [1, 2];
    assert order[..0] == [] && order[..1] == [1];
    assert InTurn(g, order, 0) && InTurn(g, order, 1);
    assert Elems(order) == g.Keys;
    TopologicalMeansAcyclic(g, order);
    var walk := [2, 1];
    assert EdgeAt(g, walk, 0);
    assert Walk(g, walk) && walk[0] == 2 && walk[|walk| - 1] == 1;
  }

  lemma TwoStepsLink(name: string)
    requires name == "a" || name == " a"
    ensures LinksValid(TwoSteps(name).steps)
  {
    ShortStrips();
    TwoStepsGraph(name);
    hide GraphAccepted, GraphOf, Cyclic, Reaches, Strip;
    var steps := TwoSteps(name).steps;
    assert OutputNames(Producer(name)) == [name] && name in OutputNames(Producer(name));
    assert Producer(name) in steps && Declares(steps, 1, name);
    assert OutputRef(1, name) in Consumer(name).requiresOutputs && Linked(Consumer(name), 1);
    assert forall s :: s in steps ==> s == Producer(name) || s == Consumer(name);
    assert StepRefsValid(steps, Producer(name)) && StepRefsValid(steps, Consumer(name));
    assert OutputsAccepted(Producer(name)) && OutputsAccepted(Consumer(name));
  }

  lemma TwoStepsRequirement(name: string)
    ensures var p := TwoSteps(name);
      && RequirementsAccepted(p) && RequirementIds(p) == ["R"] && Required(p) == {"R"}
      && StrippedCovers(Producer(name)) == ["R"] && StrippedCovers(Consumer(name)) == []
      && Required(p) <= Covered(p.steps)
  {
    ShortStrips();
    hide Strip;
    var p := TwoSteps(name);
    assert p.requirements[0] in p.requirements;
    assert Strip(p.requirements[0].id) in Required(p);
    assert RequirementIds(p) == ["R"];
    assert StrippedCovers(Producer(name)) == ["R"];
    assert Producer(name) == p.steps[0] && Producer(name) in p.steps && "R" in StrippedCovers(Producer(name));
  }

  lemma TwoStepsAccepted(h: Hashing, name: string)
    requires name == "a" || name == " a"
    requires |OutputFact(h, 1, "a")| <= MAX_FACT_LEN && |OutputFact(h, 1, name)| <= MAX_FACT_LEN
    ensures StepAccepted(h, TwoSteps(name), Producer(name)) && StepAccepted(h, TwoSteps(name), Consumer(name))
  {
    var p := TwoSteps(name);
    ShortStrips();
    TwoStepsRequirement(name);
    assert |RequirementFact("R")| <= MAX_FACT_LEN;
    hide Strip, OutputFact, RequirementFact, Required, RequirementIds, StrippedCovers;
    assert StrippedNames(Producer(name)) == ["a"] && StrippedNames(Consumer(name)) == [];
    assert OutputRef(1, name) in Consumer(name).requiresOutputs && Linked(Consumer(name), 1);
  }

  lemma TwoStepsCompile(h: Hashing, name: string)
    requires name == "a" || name == " a"
    requires |OutputFact(h, 1, "a")| <= MAX_FACT_LEN && |OutputFact(h, 1, name)| <= MAX_FACT_LEN
    ensures Compiled(h, TwoSteps(name)).Ok?
  {
    var p := TwoSteps(name);
    hide GraphAccepted, GraphOf, StepAccepted, TwoSteps, Producer, Consumer, Required, RequirementsAccepted, Covered, Compiled;
    TwoStepsGraph(name);
    TwoStepsRequirement(name);
    TwoStepsAccepted(h, name);
    StepsOf(name);
    AcceptedCompiles(h, p);
  }

  lemma StepsOf(name: string)
    ensures var p := TwoSteps(name); p.steps != [] && forall s :: s in p.steps ==> s == Producer(name) || s == Consumer(name)
  {
  }

  lemma AcceptedCompiles(h: Hashing, p: Plan)
    requires Accepted(h, p)
    ensures Compiled(h, p).Ok?
  {
    hide Accepted, Goals, SortStrings, Actions, SourceFact;
  }

  /** With the name written as " a" in both places, the plan links and compiles, and its contract is rejected. */
  lemma UntrimmedPlanRejected(h: Hashing)
    requires InjectiveOutputs(h)
    requires |OutputFact(h, 1, "a")| <= MAX_FACT_LEN && |OutputFact(h, 1, " a")| <= MAX_FACT_LEN
    ensures var p := TwoSteps(" a");
      && LinksValid(p.steps) && Compiled(h, p).Ok?
      && ParseContract(p.steps, Compiled(h, p).value) == Err
  {
    hide LinksValid, Compiled, ParseContract, InjectiveOutputs, OutputFact;
    var p := TwoSteps(" a");
    TwoStepsLink(" a");
    TwoStepsCompile(h, " a");
    assert Consumer(" a") in p.steps && OutputRef(1, " a") in Consumer(" a").requiresOutputs;
    UntrimmedReferenceRejected(h, p, Compiled(h, p).value);
  }

  /** With the name written as "a", the contract parses as soon as it is within the limits. */
  lemma TrimmedPlanParses(h: Hashing)
    requires InjectiveOutputs(h) && |OutputFact(h, 1, "a")| <= MAX_FACT_LEN
    ensures var p := TwoSteps("a");
      && LinksValid(p.steps) && Compiled(h, p).Ok?
      && (ParseContract(p.steps, Compiled(h, p).value).Ok? <==> WithinLimits(Compiled(h, p).value))
  {
    ShortStrips();
    hide LinksValid, Compiled, InjectiveOutputs, OutputFact, ContractAccepted, WithinLimits, Strip;
    var p := TwoSteps("a");
    TwoStepsLink("a");
    TwoStepsCompile(h, "a");
    assert RefsTrimmed(p);
    CompiledParses(h, p, Compiled(h, p).value);
  }

  // -------------------------------------------------- injective output facts

  lemma {:induction false} NoColon(n: nat)
    ensures ':' !in Decimal(n)
  {
    if n >= 10 { NoColon(n / 10); }
  }

  lemma SplitAtColon(x: string, y: string, x': string, y': string)
    requires ':' !in x && ':' !in x' && x + (":" + y) == x' + (":" + y')
    ensures x == x' && y == y'
  {
    var s := x + (":" + y);
    assert s[|x|] == ':' && s[|x'|] == ':';
    assert forall i :: 0 <= i < |x| ==> s[i] == x[i];
    assert forall i :: 0 <= i < |x'| ==> s[i] == x'[i];
    assert x == s[..|x|] && x' == s[..|x'|];
    PrefixCancel(x, ":" + y, ":" + y');
    PrefixCancel(":", y, y');
  }

  lemma NumeralNoColon(n: int)
    ensures ':' !in Numeral(n)
  {
    NoColon(if n < 0 then -n else n);
  }

  /** Cleaned names hold no colon, so an injective digest is all that output facts need to be injective. */
  lemma DigestSeparatesOutputs(h: Hashing)
    requires forall n :: ':' !in h.cleaned(n)
    requires forall n, n' :: h.digest(n) == h.digest(n') ==> n == n'
    ensures InjectiveOutputs(h)
  {
    forall s, n, s', n' | OutputFact(h, s, n) == OutputFact(h, s', n') ensures s == s' && n == n' {
      SameOutputFact(h, s, n, s', n');
    }
  }

  lemma SameOutputFact(h: Hashing, s: int, n: string, s': int, n': string)
    requires ':' !in h.cleaned(n) && ':' !in h.cleaned(n')
    requires OutputFact(h, s, n) == OutputFact(h, s', n')
    ensures s == s' && h.digest(n) == h.digest(n')
  {
    hide Numeral;
    var rest, rest' := h.cleaned(n) + (":" + h.digest(n)), h.cleaned(n') + (":" + h.digest(n'));
    var tail, tail' := Numeral(s) + (":" + rest), Numeral(s') + (":" + rest');
    assert OutputFact(h, s, n) == OUTPUT_PREFIX + tail && OutputFact(h, s', n') == OUTPUT_PREFIX + tail';
    PrefixCancel(OUTPUT_PREFIX, tail, tail');
    NumeralNoColon(s);
    NumeralNoColon(s');
    SplitAtColon(Numeral(s), rest, Numeral(s'), rest');
    NumeralInjective(s, s');
    SplitAtColon(h.cleaned(n), h.digest(n), h.cleaned(n'), h.digest(n'));
  }
}

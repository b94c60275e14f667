/** The exported PDDL `:strips` problem and what its plans are. */
module Pddl {
  import opened Sequences
  import opened Text
  import opened Planning

  type Atom = string

  datatype PddlAction = PddlAction(pre: set<Atom>, add: set<Atom>, del: set<Atom>)

  /** Domain and problem file together; actions are listed by the step they are named after. */
  datatype Problem = Problem(predicates: set<Atom>, actions: map<int, PddlAction>, init: set<Atom>, goal: set<Atom>)

  // -------------------------------------------------- meaning of PDDL

  function After(p: Problem, plan: seq<int>): Option<set<Atom>> {
    if plan == [] then Some(p.init)
    else
      var name := plan[|plan| - 1];
      match After(p, plan[..|plan| - 1])
      case None => None
      case Some(state) =>
        if name in p.actions && p.actions[name].pre <= state
        then Some((state - p.actions[name].del) + p.actions[name].add) else None
  }

  ghost predicate ValidPlan(p: Problem, plan: seq<int>) {
    After(p, plan).Some? && p.goal <= After(p, plan).value
  }

  ghost predicate WellFormed(p: Problem) {
    && p.init <= p.predicates && p.goal <= p.predicates
    && forall s :: s in p.actions ==>
         p.actions[s].pre <= p.predicates && p.actions[s].add <= p.predicates && p.actions[s].del <= p.predicates
  }

  // -------------------------------------------------- the export

  function Universe(c: Contract): set<Fact> {
    c.initial + c.goals
    + (set s, f | s in c.actions && f in c.actions[s].preconditions :: f)
    + (set s, f | s in c.actions && f in c.actions[s].addEffects :: f)
    + (set s, f | s in c.actions && f in c.actions[s].delEffects :: f)
  }

  function FactAtom(index: nat): Atom { "f" + Padded(index, 4) }

  function UnusedAtom(step: int): Atom { "unused-step-" + Numeral(step) }

  function DoneAtom(step: int): Atom { "done-step-" + Numeral(step) }

  /** Facts are renamed by their position, from 1, in the sorted universe. */
  function FactMapping(c: Contract): (m: map<Fact, Atom>)
    ensures m.Keys == Universe(c)
    ensures forall f, g :: f in m && g in m && m[f] == m[g] ==> f == g
  {
    var sorted := SortStrings(Universe(c));
    RenamingInjective(sorted);
    map f | f in Universe(c) :: Renamed(sorted, f)
  }

  function Renamed(sorted: seq<string>, f: Fact): Atom
    requires f in Elems(sorted)
  {
    FactAtom(Position(sorted, f) + 1)
  }

  lemma RenamingInjective(sorted: seq<string>)
    ensures forall f, g :: f in Elems(sorted) && g in Elems(sorted) && Renamed(sorted, f) == Renamed(sorted, g) ==> f == g
  {
    forall f, g | f in Elems(sorted) && g in Elems(sorted) && Renamed(sorted, f) == Renamed(sorted, g) ensures f == g {
      PrefixCancel("f", Padded(Position(sorted, f) + 1, 4), Padded(Position(sorted, g) + 1, 4));
      PaddedInjective(Position(sorted, f) + 1, Position(sorted, g) + 1, 4);
    }
  }

  function Image(m: map<Fact, Atom>, facts: set<Fact>): set<Atom> {
    set f | f in facts && f in m :: m[f]
  }

  function ExportAction(c: Contract, deps: Dependencies, m: map<Fact, Atom>, step: int): PddlAction
    requires step in c.actions
  {
    var a := c.actions[step];
    PddlAction(
      {UnusedAtom(step)} + (set d | d in DepsOf(deps, step) :: DoneAtom(d)) + Image(m, a.preconditions),
      {DoneAtom(step)} + Image(m, a.addEffects),
      {UnusedAtom(step)} + Image(m, a.delEffects))
  }

  /** `export_pddl`. */
  function Export(c: Contract, deps: Dependencies): Problem {
    var m := FactMapping(c);
    Problem(
      Image(m, Universe(c)) + (set s | s in c.actions :: UnusedAtom(s)) + (set s | s in c.actions :: DoneAtom(s)),
      map s | s in c.actions :: ExportAction(c, deps, m, s),
      Image(m, c.initial) + (set s | s in c.actions :: UnusedAtom(s)),
      Image(m, c.goals) + (set s | s in c.actions :: DoneAtom(s)))
  }

  // -------------------------------------------------- names never clash

  ghost predicate Named(m: map<Fact, Atom>, atom: Atom) {
    exists f :: f in m && m[f] == atom
  }

  lemma MappingNames(c: Contract, f: Fact)
    requires f in FactMapping(c)
    ensures FactMapping(c)[f][0] == 'f'
  {
  }

  lemma NamesDisjoint(c: Contract, s: int, t: int)
    ensures !Named(FactMapping(c), UnusedAtom(s)) && !Named(FactMapping(c), DoneAtom(s))
    ensures UnusedAtom(s) != DoneAtom(t)
    ensures UnusedAtom(s) == UnusedAtom(t) ==> s == t
    ensures DoneAtom(s) == DoneAtom(t) ==> s == t
  {
    assert UnusedAtom(s)[0] == 'u' && DoneAtom(s)[0] == 'd' && DoneAtom(t)[0] == 'd';
    if UnusedAtom(s) == UnusedAtom(t) {
      PrefixCancel("unused-step-", Numeral(s), Numeral(t));
      NumeralInjective(s, t);
    }
    if DoneAtom(s) == DoneAtom(t) {
      PrefixCancel("done-step-", Numeral(s), Numeral(t));
      NumeralInjective(s, t);
    }
    forall f | f in FactMapping(c) ensures FactMapping(c)[f] != UnusedAtom(s) && FactMapping(c)[f] != DoneAtom(s) {
      MappingNames(c, f);
    }
  }

  // -------------------------------------------------- simulation

  ghost function Encode(c: Contract, order: seq<int>): set<Atom> {
    Image(FactMapping(c), FactsAfter(c, order))
    + (set s | s in order :: DoneAtom(s))
    + (set s | s in c.actions && s !in order :: UnusedAtom(s))
  }

  lemma {:induction false} FactsInUniverse(c: Contract, order: seq<int>)
    ensures FactsAfter(c, order) <= Universe(c)
  {
    if order != [] { FactsInUniverse(c, order[..|order| - 1]); }
  }

  lemma ImageSubset(c: Contract, a: set<Fact>, order: seq<int>)
    requires a <= Universe(c)
    ensures Image(FactMapping(c), a) <= Encode(c, order) <==> a <= FactsAfter(c, order)
  {
    var m := FactMapping(c);
    FactsInUniverse(c, order);
    if Image(m, a) <= Encode(c, order) {
      forall f | f in a ensures f in FactsAfter(c, order) {
        assert m[f] in Image(m, a);
        NotStepAtom(c, order, f);
      }
    }
    forall atom | a <= FactsAfter(c, order) && atom in Image(m, a) ensures atom in Encode(c, order) {
      var f :| f in a && f in m && m[f] == atom;
      assert m[f] in Image(m, FactsAfter(c, order));
    }
  }

  lemma NotStepAtom(c: Contract, order: seq<int>, f: Fact)
    requires f in FactMapping(c) && FactMapping(c)[f] in Encode(c, order)
    ensures f in FactsAfter(c, order)
  {
    var m := FactMapping(c);
    assert Named(m, m[f]);
    forall s ensures m[f] != DoneAtom(s) && m[f] != UnusedAtom(s) {
      NamesDisjoint(c, s, s);
    }
    assert m[f] in Image(m, FactsAfter(c, order));
  }

  lemma StepAtoms(c: Contract, order: seq<int>, s: int)
    ensures DoneAtom(s) in Encode(c, order) <==> s in order
    ensures UnusedAtom(s) in Encode(c, order) <==> s in c.actions && s !in order
  {
    var m := FactMapping(c);
    NamesDisjoint(c, s, s);
    assert forall f :: f in m ==> Named(m, m[f]);
    forall t ensures DoneAtom(s) == DoneAtom(t) ==> s == t
             ensures UnusedAtom(s) == UnusedAtom(t) ==> s == t
             ensures UnusedAtom(s) != DoneAtom(t) && UnusedAtom(t) != DoneAtom(s) {
      NamesDisjoint(c, s, t);
      NamesDisjoint(c, t, s);
    }
  }

  lemma ApplicableInBoth(c: Contract, deps: Dependencies, order: seq<int>, s: int)
    requires s in c.actions
    ensures Export(c, deps).actions[s].pre <= Encode(c, order) <==> StepOk(c, deps, order, s)
  {
    var m := FactMapping(c);
    var a := c.actions[s];
    var dones := set d | d in DepsOf(deps, s) :: DoneAtom(d);
    assert Export(c, deps).actions[s].pre == {UnusedAtom(s)} + dones + Image(m, a.preconditions);
    StepAtoms(c, order, s);
    ImageSubset(c, a.preconditions, order);
    forall d ensures DoneAtom(d) in Encode(c, order) <==> d in order {
      StepAtoms(c, order, d);
    }
    assert dones <= Encode(c, order) <==> forall d :: d in DepsOf(deps, s) ==> d in order by {
      if dones <= Encode(c, order) {
        forall d | d in DepsOf(deps, s) ensures d in order { assert DoneAtom(d) in dones; }
      }
    }
    assert forall d :: d in order <==> d in Elems(order);
  }

  lemma ImageOfApply(c: Contract, a: Action, facts: set<Fact>)
    requires facts <= Universe(c) && a.addEffects <= Universe(c) && a.delEffects <= Universe(c)
    ensures Image(FactMapping(c), Apply(a, facts)) ==
      (Image(FactMapping(c), facts) - Image(FactMapping(c), a.delEffects)) + Image(FactMapping(c), a.addEffects)
  {
    var m := FactMapping(c);
    forall atom | atom in (Image(m, facts) - Image(m, a.delEffects)) + Image(m, a.addEffects)
      ensures atom in Image(m, Apply(a, facts))
    {
      if atom in Image(m, a.addEffects) {
        var f :| f in a.addEffects && f in m && m[f] == atom;
        assert f in Apply(a, facts);
      } else {
        var f :| f in facts && f in m && m[f] == atom;
        assert f !in a.delEffects;
      }
    }
  }

  lemma EffectInBoth(c: Contract, deps: Dependencies, order: seq<int>, s: int)
    requires s in c.actions && s !in order
    ensures var act := Export(c, deps).actions[s];
      (Encode(c, order) - act.del) + act.add == Encode(c, order + [s])
  {
    var m := FactMapping(c);
    var a := c.actions[s];
    var act := Export(c, deps).actions[s];
    FactsInUniverse(c, order);
    FactsAfterAppend(c, order, s);
    ImageOfApply(c, a, FactsAfter(c, order));
    var dones, unused := (set t | t in order :: DoneAtom(t)), (set t | t in c.actions && t !in order :: UnusedAtom(t));
    var facts := Image(m, FactsAfter(c, order));
    StepSetsSeparate(c, m, facts, Image(m, a.delEffects), dones, unused, s, order);
    StepSetsAfter(c, order, s);
    SetAlgebra(facts, dones, unused, Image(m, a.delEffects), Image(m, a.addEffects), UnusedAtom(s), DoneAtom(s));
  }

  lemma StepSetsAfter(c: Contract, order: seq<int>, s: int)
    ensures (set t | t in order + [s] :: DoneAtom(t)) == (set t | t in order :: DoneAtom(t)) + {DoneAtom(s)}
    ensures (set t | t in c.actions && t !in order + [s] :: UnusedAtom(t)) ==
      (set t | t in c.actions && t !in order :: UnusedAtom(t)) - {UnusedAtom(s)}
  {
    assert forall t :: t in order + [s] <==> t in order || t == s;
    forall t | t in c.actions && t != s ensures UnusedAtom(t) != UnusedAtom(s) {
      NamesDisjoint(c, s, t);
    }
  }

  lemma SetAlgebra(facts: set<Atom>, dones: set<Atom>, unused: set<Atom>, dels: set<Atom>, adds: set<Atom>, u: Atom, d: Atom)
    requires u !in facts + dones && dels !! dones && dels !! unused
    ensures ((facts + dones + unused) - ({u} + dels)) + ({d} + adds)
      == ((facts - dels) + adds) + (dones + {d}) + (unused - {u})
  {
  }

  lemma StepSetsSeparate(c: Contract, m: map<Fact, Atom>, facts: set<Atom>, dels: set<Atom>,
                         dones: set<Atom>, unused: set<Atom>, s: int, order: seq<int>)
    requires m == FactMapping(c)
    requires forall x :: x in facts + dels ==> Named(m, x)
    requires dones == set t | t in order :: DoneAtom(t)
    requires unused == set t | t in c.actions && t !in order :: UnusedAtom(t)
    ensures UnusedAtom(s) !in facts + dones
    ensures dels !! dones && dels !! unused
  {
    forall t ensures !Named(m, DoneAtom(t)) && !Named(m, UnusedAtom(t)) && UnusedAtom(s) != DoneAtom(t) {
      NamesDisjoint(c, t, t);
      NamesDisjoint(c, s, t);
    }
  }

  /** The exported problem follows exactly the executable step orders. */
  lemma {:induction false} Simulates(c: Contract, deps: Dependencies, plan: seq<int>)
    ensures After(Export(c, deps), plan) ==
      if Executable(c, deps, plan) then Some(Encode(c, plan)) else None
  {
    if plan == [] {
      assert Encode(c, []) == Export(c, deps).init;
    } else {
      var before, s := plan[..|plan| - 1], plan[|plan| - 1];
      assert plan == before + [s];
      Simulates(c, deps, before);
      if Executable(c, deps, plan) {
        ExecutablePrefix(c, deps, plan, |before|);
        assert StepAt(c, deps, plan, |before|);
        ApplicableInBoth(c, deps, before, s);
        EffectInBoth(c, deps, before, s);
      } else if Executable(c, deps, before) && s in c.actions {
        ApplicableInBoth(c, deps, before, s);
        if StepOk(c, deps, before, s) {
          ExecutableExtend(c, deps, before, s);
        }
      }
    }
  }

  /** Export preserves meaning: the valid plans of the PDDL problem, of whatever length, are
      exactly the solutions of the contract. */
  lemma ExportPreservesMeaning(c: Contract, deps: Dependencies, plan: seq<int>)
    ensures ValidPlan(Export(c, deps), plan) <==> Solution(c, deps, plan)
  {
    hide FactMapping, After, Encode, Executable, DoneAtom;
    Simulates(c, deps, plan);
    if Executable(c, deps, plan) {
      var m := FactMapping(c);
      var dones := set s | s in c.actions :: DoneAtom(s);
      ImageSubset(c, c.goals, plan);
      ExecutableDistinct(c, deps, plan);
      forall s ensures DoneAtom(s) in Encode(c, plan) <==> s in plan {
        StepAtoms(c, plan, s);
      }
      if dones <= Encode(c, plan) {
        forall s | s in c.actions.Keys ensures s in Elems(plan) { assert DoneAtom(s) in dones; }
      }
      if c.actions.Keys == Elems(plan) {
        forall atom | atom in dones ensures atom in Encode(c, plan) {
          var s :| s in c.actions && DoneAtom(s) == atom;
          assert s in Elems(plan);
        }
      }
    }
  }

  /** Every atom the export uses is declared, given a dependency graph over the contract's steps. */
  lemma ExportWellFormed(c: Contract, deps: Dependencies)
    requires forall s, d :: s in c.actions && d in DepsOf(deps, s) ==> d in c.actions
    ensures WellFormed(Export(c, deps))
  {
    hide FactMapping, Universe, Image, UnusedAtom, DoneAtom;
    var p := Export(c, deps);
    var m := FactMapping(c);
    InUniverse(c);
    ImageMonotone(m, c.initial, Universe(c));
    ImageMonotone(m, c.goals, Universe(c));
    forall s | s in p.actions
      ensures p.actions[s].pre <= p.predicates && p.actions[s].add <= p.predicates && p.actions[s].del <= p.predicates
    {
      var a := c.actions[s];
      ImageMonotone(m, a.preconditions, Universe(c));
      ImageMonotone(m, a.addEffects, Universe(c));
      ImageMonotone(m, a.delEffects, Universe(c));
    }
  }

  lemma ImageMonotone(m: map<Fact, Atom>, a: set<Fact>, b: set<Fact>)
    requires a <= b
    ensures Image(m, a) <= Image(m, b)
  {
  }

  lemma InUniverse(c: Contract)
    ensures c.initial <= Universe(c) && c.goals <= Universe(c)
    ensures forall s :: s in c.actions ==>
      c.actions[s].preconditions <= Universe(c) && c.actions[s].addEffects <= Universe(c) && c.actions[s].delEffects <= Universe(c)
  {
  }
}

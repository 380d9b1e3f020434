/** Planning one rule: rewritten sideways or cut at its filters, or neither; then every rule of the rewrite compiled. */
module PlanJobs {
  import opened Wrappers
  import opened Datalog
  import opened Operators
  import opened Rules
  import opened CoreAtoms
  import opened Slices
  import opened RowPrograms
  import opened RulePlans
  import opened Refusals
  import Pushdown
  import Sideways
  import RuleCompiler

  /* ------------------------------------------------------------------ */
  /* Slices staged by their plans                                         */
  /* ------------------------------------------------------------------ */

  ghost predicate AllFaithful(rules: seq<Rule>, plans: seq<RulePlan>) {
    |plans| == |rules| && forall i :: 0 <= i < |rules| ==> Faithful(plans[i], rules[i])
  }

  /** The database with one more relation: the rows a slice's plan derives from it. */
  ghost predicate StagedBy(functions: Functions, name: string, plan: RulePlan, db: Database, db': Database)
    requires plan.program.Some? ==> ProgramOk(plan.program.value)
  {
    && name !in db && name in db'
    && (forall other :: other != name ==> (other in db' <==> other in db) && Rows(db', other) == Rows(db, other))
    && (forall row :: row in Rows(db', name) <==> PlanYields(functions, plan, db, Kept(row)))
  }

  /** The slices' plans run one after another, each over what the ones before it staged. */
  ghost predicate AllStagedBy(functions: Functions, slices: seq<Rule>, plans: seq<RulePlan>, dbs: seq<Database>)
    requires AllFaithful(slices, plans)
  {
    |dbs| == |slices| + 1 && forall i :: 0 <= i < |slices| ==> StagedBy(functions, slices[i].name, plans[i], dbs[i], dbs[i + 1])
  }

  lemma FitsIsTyped(rule: Rule, db: Database)
    ensures BodyFits(rule.body, db) <==> Typed(RelationalPart(rule), db)
  {
    if BodyFits(rule.body, db) {
      forall i | 0 <= i < |Positives(rule.body)|
        ensures Fits(db, Positives(rule.body)[i])
      {
        assert Positive(Positives(rule.body)[i]) in rule.body;
      }
      forall i | 0 <= i < |Negatives(rule.body)|
        ensures Fits(db, Negatives(rule.body)[i])
      {
        assert Negative(Negatives(rule.body)[i]) in rule.body;
      }
    }
    if Typed(RelationalPart(rule), db) {
      forall l | l in rule.body && (l.Positive? || l.Negative?)
        ensures Fits(db, l.atom)
      {
        LiteralFits(rule, db, l);
      }
    }
  }

  lemma LiteralFits(rule: Rule, db: Database, l: Literal)
    requires Typed(RelationalPart(rule), db) && l in rule.body && (l.Positive? || l.Negative?)
    ensures Fits(db, l.atom)
  {
    if l.Positive? {
      var i :| 0 <= i < |Positives(rule.body)| && Positives(rule.body)[i] == l.atom;
      assert Fits(db, RelationalPart(rule).positives[i]);
    } else {
      var i :| 0 <= i < |Negatives(rule.body)| && Negatives(rule.body)[i] == l.atom;
      assert Fits(db, RelationalPart(rule).negatives[i]);
    }
  }

  /** A body that reads the rule's relations and the first `n` slices fits what they staged. */
  lemma KnownIsTyped(functions: Functions, rule: Rule, slices: seq<Rule>, dbs: seq<Database>, n: nat, reader: Rule)
    requires n <= |slices| && StagedTo(functions, slices, dbs, n) && SlicesKnown(rule, slices)
    requires Typed(RelationalPart(rule), dbs[0])
    requires BodyKnown(rule, slices[..n], reader.body)
    ensures Typed(RelationalPart(reader), dbs[n])
  {
    FitsIsTyped(rule, dbs[0]);
    forall l | l in reader.body && (l.Positive? || l.Negative?)
      ensures Fits(dbs[n], l.atom)
    {
      KnownFits(functions, rule, slices, dbs, n, l.atom);
    }
    FitsIsTyped(reader, dbs[n]);
  }

  lemma StagedByIsStaged(functions: Functions, slice: Rule, plan: RulePlan, db: Database, db': Database)
    requires Faithful(plan, slice) && Typed(RelationalPart(slice), db) && StagedBy(functions, slice.name, plan, db, db')
    ensures Staged(functions, slice, db, db')
  {
  }

  /** The first `n` slices staged by their plans are staged. */
  lemma {:induction false} AllStagedTo(functions: Functions, rule: Rule, slices: seq<Rule>, plans: seq<RulePlan>,
                                       dbs: seq<Database>, n: nat)
    requires AllFaithful(slices, plans) && AllStagedBy(functions, slices, plans, dbs) && n <= |slices|
    requires SlicesKnown(rule, slices) && Typed(RelationalPart(rule), dbs[0])
    ensures StagedTo(functions, slices, dbs, n)
  {
    if n > 0 {
      AllStagedTo(functions, rule, slices, plans, dbs, n - 1);
      NextStaged(functions, rule, slices, plans, dbs, n - 1);
    }
  }

  lemma NextStaged(functions: Functions, rule: Rule, slices: seq<Rule>, plans: seq<RulePlan>, dbs: seq<Database>,
                   n: nat)
    requires AllFaithful(slices, plans) && AllStagedBy(functions, slices, plans, dbs) && n < |slices|
    requires SlicesKnown(rule, slices) && Typed(RelationalPart(rule), dbs[0]) && StagedTo(functions, slices, dbs, n)
    ensures Staged(functions, slices[n], dbs[n], dbs[n + 1])
  {
    assert BodyKnown(rule, slices[..n], slices[n].body);
    KnownIsTyped(functions, rule, slices, dbs, n, slices[n]);
    StagedByIsStaged(functions, slices[n], plans[n], dbs[n], dbs[n + 1]);
  }

  /** Slices staged by faithful plans are staged as the rules themselves say, and what reads them is typed. */
  lemma PlansStage(functions: Functions, rule: Rule, slices: seq<Rule>, plans: seq<RulePlan>, dbs: seq<Database>,
                   last: Rule)
    requires AllFaithful(slices, plans) && AllStagedBy(functions, slices, plans, dbs)
    requires SlicesKnown(rule, slices) && BodyKnown(rule, slices, last.body) && Typed(RelationalPart(rule), dbs[0])
    ensures StagedAll(functions, slices, dbs) && Typed(RelationalPart(last), dbs[|slices|])
  {
    AllStagedTo(functions, rule, slices, plans, dbs, |slices|);
    assert slices[..|slices|] == slices;
    KnownIsTyped(functions, rule, slices, dbs, |slices|, last);
  }

  /* ------------------------------------------------------------------ */
  /* Compiling the rules of a rewrite                                     */
  /* ------------------------------------------------------------------ */

  method AnyVariable(atoms: seq<Atom>) returns (x: Option<Var>)
    ensures x.Some? ==> x.value in Relational(atoms)
    ensures x.None? ==> Relational(atoms) == {}
  {
    var xs := Relational(atoms);
    if xs == {} {
      return None;
    }
    var y :| y in xs;
    return Some(y);
  }

  ghost predicate SomeRefused(rules: seq<Rule>, n: nat)
    requires n <= |rules|
  {
    exists i :: 0 <= i < n && Refused(RelationalPart(rules[i]))
  }

  /** The plans are over trees the optimizer picked. */
  ghost predicate AllPicked(rules: seq<Rule>, plans: seq<RulePlan>, optimized: bool)
    requires |plans| <= |rules|
  {
    plans == [] || (AllPicked(rules, plans[..|plans| - 1], optimized) && RuleCompiler.OverPickedTree(rules[|plans| - 1], optimized, plans[|plans| - 1]))
  }

  /** None of the first rules was refused, and their plans are faithful. */
  ghost predicate CompiledTo(rules: seq<Rule>, plans: seq<RulePlan>, n: nat) {
    |plans| == n <= |rules| && !SomeRefused(rules, n) && forall j :: 0 <= j < n ==> Faithful(plans[j], rules[j])
  }

  lemma CompiledMore(rules: seq<Rule>, plans: seq<RulePlan>, n: nat, plan: RulePlan)
    requires CompiledTo(rules, plans, n) && n < |rules| && !Refused(RelationalPart(rules[n]))
    requires Faithful(plan, rules[n])
    ensures CompiledTo(rules, plans + [plan], n + 1)
  {
  }

  lemma PickedMore(rules: seq<Rule>, plans: seq<RulePlan>, plan: RulePlan, optimized: bool)
    requires |plans| < |rules| && AllPicked(rules, plans, optimized)
    requires RuleCompiler.OverPickedTree(rules[|plans|], optimized, plan)
    ensures AllPicked(rules, plans + [plan], optimized)
  {
    LastApart(plans + [plan], (plans, plan));
  }

  method CompileNext(rule: Rule, optimized: bool) returns (plan: Option<RulePlan>)
    requires WellShaped(rule)
    ensures plan.None? <==> Refused(RelationalPart(rule))
    ensures plan.Some? ==> Faithful(plan.value, rule) && RuleCompiler.OverPickedTree(rule, optimized, plan.value)
  {
    var driver := AnyVariable(Positives(rule.body));
    plan := RuleCompiler.Compile(rule, driver, optimized);
  }

  /** The first rules compiled, over trees the optimizer picked. */
  ghost predicate Compiling(rules: seq<Rule>, plans: seq<RulePlan>, n: nat, optimized: bool) {
    n <= |rules| && CompiledTo(rules, plans, n) && AllPicked(rules, plans, optimized)
  }

  lemma CompilingMore(rules: seq<Rule>, plans: seq<RulePlan>, n: nat, plan: RulePlan, optimized: bool)
    requires Compiling(rules, plans, n, optimized) && n < |rules| && !Refused(RelationalPart(rules[n]))
    requires Faithful(plan, rules[n]) && RuleCompiler.OverPickedTree(rules[n], optimized, plan)
    ensures Compiling(rules, plans + [plan], n + 1, optimized)
  {
    CompiledMore(rules, plans, n, plan);
    PickedMore(rules, plans, plan, optimized);
  }

  lemma AllCompiled(rules: seq<Rule>, plans: seq<RulePlan>, optimized: bool)
    requires Compiling(rules, plans, |rules|, optimized)
    ensures AllFaithful(rules, plans) && AllPicked(rules, plans, optimized) && !SomeRefused(rules, |rules|)
  {
  }

  /** Compiles the rules one by one; refused exactly when one of them is. */
  method CompileAll(rules: seq<Rule>, optimized: bool) returns (plans: Option<seq<RulePlan>>)
    requires forall i :: 0 <= i < |rules| ==> WellShaped(rules[i])
    ensures plans.None? <==> SomeRefused(rules, |rules|)
    ensures plans.Some? ==> AllFaithful(rules, plans.value) && AllPicked(rules, plans.value, optimized)
  {
    var compiled: seq<RulePlan> := [];
    for i := 0 to |rules|
      invariant Compiling(rules, compiled, i, optimized)
    {
      var plan := CompileNext(rules[i], optimized);
      if plan.None? {
        return None;
      }
      CompilingMore(rules, compiled, i, plan.value, optimized);
      compiled := compiled + [plan.value];
    }
    AllCompiled(rules, compiled, optimized);
    plans := Some(compiled);
  }

  /* ------------------------------------------------------------------ */
  /* One job                                                              */
  /* ------------------------------------------------------------------ */

  function CoreAtomCount(rule: Rule): nat {
    |set i | 0 <= i < |Positives(rule.body)| && IsCore(VariableSets(Positives(rule.body)), i)|
  }

  method CountCores(rule: Rule) returns (n: nat)
    ensures n == CoreAtomCount(rule)
  {
    var core := PopulateIsCoreAtomBitmap(VariableSets(Positives(rule.body)));
    n := 0;
    ghost var seen: set<int> := {};
    for i := 0 to |core|
      invariant seen == (set j | 0 <= j < i && IsCore(VariableSets(Positives(rule.body)), j)) && |seen| == n
    {
      if core[i] {
        n := n + 1;
        seen := seen + {i};
      }
    }
  }

  /** How a rule is to be planned: the program's optimization level, and what the rule itself asks for. */
  datatype Wish = Wish(level: Option<nat>, sip: bool, planning: bool) {
    predicate Sideways() {
      sip || (level.Some? && (level.value == 1 || level.value == 3))
    }

    predicate Optimized() {
      planning || (level.Some? && level.value >= 2)
    }
  }

  /** Over every database, and for all embedded functions, the plans of a rewrite - the slices' run in order, the last
      over what they staged - end in a row, a drop or a fault exactly when the rule does. */
  ghost predicate PlansRule(rule: Rule, slices: seq<Rule>, plans: seq<RulePlan>, plan: RulePlan) {
    && AllFaithful(slices, plans) && (plan.program.Some? ==> ProgramOk(plan.program.value))
    && forall functions, dbs :: |dbs| == |slices| + 1 && Typed(RelationalPart(rule), dbs[0]) && AllStagedBy(functions, slices, plans, dbs) ==>
      EndsAs(functions, rule, plan, dbs[0], dbs[|slices|])
  }

  ghost predicate EndsAs(functions: Functions, rule: Rule, plan: RulePlan, db0: Database, db: Database)
    requires plan.program.Some? ==> ProgramOk(plan.program.value)
  {
    forall outcome :: PlanYields(functions, plan, db, outcome) <==> Yields(functions, rule, db0, outcome)
  }

  /** Compiled slices, and then the compiled final rule, end every row as the rule does. */
  lemma SidewaysPlans(rule: Rule, slices: seq<Rule>, final: Rule, plans: seq<RulePlan>, plan: RulePlan)
    requires Sideways.Preserves(rule, slices, final) && SlicesKnown(rule, slices) && BodyKnown(rule, slices, final.body)
    requires AllFaithful(slices, plans) && Faithful(plan, final)
    ensures PlansRule(rule, slices, plans, plan)
  {
    forall functions, dbs | |dbs| == |slices| + 1 && Typed(RelationalPart(rule), dbs[0]) && AllStagedBy(functions, slices, plans, dbs)
      ensures EndsAs(functions, rule, plan, dbs[0], dbs[|slices|])
    {
      PlansStage(functions, rule, slices, plans, dbs, final);
      assert Sideways.PreservesOn(functions, rule, slices, final, dbs);
    }
  }

  lemma AlonePlans(rule: Rule, plan: RulePlan)
    requires Faithful(plan, rule)
    ensures PlansRule(rule, [], [], plan)
  {
  }

  /** The rules of a rewrite, the last one last. */
  function Chain(slices: seq<Rule>, last: Rule): seq<Rule> {
    slices + [last]
  }

  lemma ChainRefused(slices: seq<Rule>, last: Rule)
    ensures SomeRefused(Chain(slices, last), |slices| + 1) <==> RewriteRefused(slices, last)
  {
    var rules := Chain(slices, last);
    assert rules[|slices|] == last && forall i :: 0 <= i < |slices| ==> rules[i] == slices[i];
  }

  ghost predicate ChainPicked(slices: seq<Rule>, last: Rule, optimized: bool, plans: (seq<RulePlan>, RulePlan)) {
    |plans.0| == |slices| && AllPicked(Chain(slices, last), plans.0 + [plans.1], optimized)
  }

  method CompileChain(slices: seq<Rule>, last: Rule, optimized: bool) returns (r: Option<(seq<RulePlan>, RulePlan)>)
    requires (forall i :: 0 <= i < |slices| ==> WellShaped(slices[i])) && WellShaped(last)
    ensures r.None? <==> RewriteRefused(slices, last)
    ensures r.Some? ==> AllFaithful(slices, r.value.0) && Faithful(r.value.1, last)
    ensures r.Some? ==> ChainPicked(slices, last, optimized, r.value)
  {
    ChainRefused(slices, last);
    var plans := CompileAll(Chain(slices, last), optimized);
    if plans.None? {
      return None;
    }
    r := Some((plans.value[..|slices|], plans.value[|slices|]));
    ChainFaithful(slices, last, plans.value, r.value);
    ChainIsPicked(slices, last, optimized, plans.value, r.value);
  }

  lemma ChainFaithful(slices: seq<Rule>, last: Rule, plans: seq<RulePlan>, chain: (seq<RulePlan>, RulePlan))
    requires AllFaithful(Chain(slices, last), plans) && chain == (plans[..|slices|], plans[|slices|])
    ensures AllFaithful(slices, chain.0) && Faithful(chain.1, last)
  {
    var rules := Chain(slices, last);
    assert rules[|slices|] == last && forall i :: 0 <= i < |slices| ==> rules[i] == slices[i];
  }

  lemma ChainIsPicked(slices: seq<Rule>, last: Rule, optimized: bool, plans: seq<RulePlan>,
                      chain: (seq<RulePlan>, RulePlan))
    requires |plans| == |slices| + 1 && chain == (plans[..|slices|], plans[|slices|])
    requires AllPicked(Chain(slices, last), plans, optimized)
    ensures ChainPicked(slices, last, optimized, chain)
  {
    LastApart(plans, chain);
  }

  lemma LastApart(plans: seq<RulePlan>, chain: (seq<RulePlan>, RulePlan))
    requires plans != [] && (chain == (plans[..|plans| - 1], plans[|plans| - 1]) || plans == chain.0 + [chain.1])
    ensures plans == chain.0 + [chain.1] && plans[..|plans| - 1] == chain.0 && plans[|plans| - 1] == chain.1
  {
  }

  method CompileAlone(rule: Rule, optimized: bool) returns (r: Option<(seq<RulePlan>, RulePlan)>)
    requires WellShaped(rule)
    ensures r.None? <==> Refused(RelationalPart(rule))
    ensures r.Some? ==> PlansRule(rule, [], r.value.0, r.value.1) && ChainPicked([], rule, optimized, r.value)
  {
    var plan := CompileNext(rule, optimized);
    if plan.None? {
      return None;
    }
    AlonePlans(rule, plan.value);
    r := Some(([], plan.value));
  }

  /** Plans one rule. With more than two core atoms it is passed sideways if that is wished, and its trees are optimized
      if that is; either way the plans end every row as the rule does. Planning is refused exactly when the rule as
      written is. */
  method PlanRule(rule: Rule, names: nat -> string, wish: Wish)
    returns (slices: seq<Rule>, last: Rule, r: Option<(seq<RulePlan>, RulePlan)>)
    requires WellShaped(rule) && Sideways.NamesFresh(rule, names)
    ensures r.None? <==> Refused(RelationalPart(rule))
    ensures r.Some? ==> PlansRule(rule, slices, r.value.0, r.value.1)
    ensures CoreAtomCount(rule) <= 2 || !wish.Sideways() ==> slices == [] && last == rule
    ensures CoreAtomCount(rule) > 2 && wish.Sideways() ==> Sideways.SemijoinReduced(rule, names, slices, last)
    ensures r.Some? ==> ChainPicked(slices, last, CoreAtomCount(rule) > 2 && wish.Optimized(), r.value)
  {
    var cores := CountCores(rule);
    if cores > 2 && wish.Sideways() {
      slices, last := Sideways.Sideways(rule, names);
      assert forall i :: 0 <= i < |slices| ==> Sideways.SliceShaped(slices[i]);
      SidewaysRefuses(rule, slices, last);
      r := CompileChain(slices, last, wish.Optimized());
      if r.Some? {
        SidewaysPlans(rule, slices, last, r.value.0, r.value.1);
      }
    } else {
      slices, last := [], rule;
      r := CompileAlone(rule, cores > 2 && wish.Optimized());
    }
  }

  /* ------------------------------------------------------------------ */
  /* Rules with filters                                                   */
  /* ------------------------------------------------------------------ */

  /** The plans of a cut rule derive exactly the rule's rows; the last faults exactly when a faulting solution of the
      rule passes every slice's filters, and no slice's plan faults. */
  ghost predicate PlansCut(rule: Rule, slices: seq<Rule>, plans: seq<RulePlan>, plan: RulePlan) {
    && AllFaithful(slices, plans) && (plan.program.Some? ==> ProgramOk(plan.program.value))
    && forall functions, dbs :: CutRun(functions, rule, slices, plans, dbs) ==> EndsAsCut(functions, rule, slices, plan, dbs[0], dbs[|slices|])
  }

  /** Filters answer 0 or 1, the database is typed, and the slices' plans were run over it. */
  ghost predicate CutRun(functions: Functions, rule: Rule, slices: seq<Rule>, plans: seq<RulePlan>, dbs: seq<Database>)
    requires AllFaithful(slices, plans)
  {
    && Pushdown.BooleanFilters(functions, rule.body) && AllStagedBy(functions, slices, plans, dbs)
    && Typed(RelationalPart(rule), dbs[0])
  }

  ghost predicate EndsAsCut(functions: Functions, rule: Rule, slices: seq<Rule>, plan: RulePlan, db0: Database,
                            db: Database)
    requires plan.program.Some? ==> ProgramOk(plan.program.value)
  {
    && (forall row :: PlanYields(functions, plan, db, Kept(row)) <==> Yields(functions, rule, db0, Kept(row)))
    && (PlanYields(functions, plan, db, Fault) <==> Pushdown.FaultsPastAll(functions, rule, slices, db0))
  }

  lemma CutPlans(rule: Rule, slices: seq<Rule>, last: Rule, plans: seq<RulePlan>, plan: RulePlan)
    requires Pushdown.Refines(rule, slices, last) && SlicesKnown(rule, slices) && BodyKnown(rule, slices, last.body)
    requires AllFaithful(slices, plans) && Faithful(plan, last)
    ensures PlansCut(rule, slices, plans, plan)
  {
    forall functions, dbs | CutRun(functions, rule, slices, plans, dbs)
      ensures EndsAsCut(functions, rule, slices, plan, dbs[0], dbs[|slices|])
    {
      PlansStage(functions, rule, slices, plans, dbs, last);
      assert Pushdown.RefinesOn(functions, rule, slices, last, dbs);
    }
  }

  /** Cuts a rule at its filters and plans slices and rest as written: what happens to a rule outside recursion that is
      neither optimized nor passed sideways. A cut rule is refused exactly when some refused atom of it is put in the
      same rule as a comparison it is refused for. */
  method PlanCut(rule: Rule, sliceName: nat -> string)
    returns (cut: Option<(seq<Rule>, Rule)>, r: Option<(seq<RulePlan>, RulePlan)>)
    requires WellShaped(rule) && Pushdown.NewNames(rule, sliceName)
    ensures cut.None? <==> Pushdown.NoCut(rule.body, {})
    ensures cut.Some? ==> (r.None? <==> RefusedTogether(rule, cut.value.0)) && (r.None? ==> Refused(RelationalPart(rule)))
    ensures cut.Some? && r.Some? ==> PlansCut(rule, cut.value.0, r.value.0, r.value.1)
    ensures cut.None? ==> (r.None? <==> Refused(RelationalPart(rule)))
    ensures cut.None? && r.Some? ==> PlansRule(rule, [], r.value.0, r.value.1)
    ensures cut.Some? && r.Some? ==> ChainPicked(cut.value.0, cut.value.1, false, r.value)
    ensures cut.None? && r.Some? ==> ChainPicked([], rule, false, r.value)
  {
    cut := Pushdown.PushDownFilterCalls(rule, sliceName);
    if cut.None? {
      r := CompileAlone(rule, false);
    } else {
      r := CompileCut(rule, sliceName, cut.value.0, cut.value.1);
    }
  }

  method CompileCut(rule: Rule, ghost sliceName: nat -> string, slices: seq<Rule>, last: Rule)
    returns (r: Option<(seq<RulePlan>, RulePlan)>)
    requires WellShaped(rule) && Pushdown.CutsWell(rule, sliceName, Some((slices, last)))
    ensures r.None? <==> RefusedTogether(rule, slices)
    ensures r.None? ==> Refused(RelationalPart(rule))
    ensures r.Some? ==> PlansCut(rule, slices, r.value.0, r.value.1) && ChainPicked(slices, last, false, r.value)
  {
    CutIsShaped(rule, sliceName, slices, last);
    CutRefuses(rule, slices, last);
    r := CompileChain(slices, last, false);
    if r.Some? {
      CutPlans(rule, slices, last, r.value.0, r.value.1);
    }
  }
}

/** The compiler, end to end: a rule to a tree, a relational plan and a row program. */
module RuleCompiler {
  import opened Wrappers
  import opened Datalog
  import opened Rules
  import opened Bodies
  import opened RulePlans
  import Optimizer

  /** The plan joins as a tree that the optimizer picks for the rule, with or without optimization. */
  ghost predicate OverPickedTree(rule: Rule, optimized: bool, plan: RulePlan) {
    && PlannedAsTree(rule, plan)
    && exists picked: Optimizer.PlanTree :: picked.joinTree == plan.tree
         && Optimizer.Picked(Positives(rule.body), HeadArgVariables(rule.head), optimized, picked)
  }

  /** Compiles a rule with whatever tree the optimizer picks. Over every database, and for all embedded functions, some
      row of the plan ends in a head row, a drop or a fault exactly when some solution of the rule's body does. Planning
      is refused exactly when a negated atom cannot be traced. The plan joins as the picked tree does. */
  method Compile(rule: Rule, driver: Option<Var>, optimized: bool) returns (r: Option<RulePlan>)
    requires WellShaped(rule)
    requires driver.Some? ==> driver.value in Relational(Positives(rule.body))
    requires driver.None? ==> Relational(Positives(rule.body)) == {}
    ensures r.None? <==> Refused(RelationalPart(rule))
    ensures r.Some? ==> Faithful(r.value, rule) && OverPickedTree(rule, optimized, r.value)
  {
    var plan := Optimizer.PickTree(Positives(rule.body), HeadArgVariables(rule.head), optimized);
    r := CompileOver(rule, driver, plan);
    if r.Some? {
      PickedTree(rule, optimized, r.value, plan);
    }
  }

  method CompileOver(rule: Rule, driver: Option<Var>, plan: Optimizer.PlanTree) returns (r: Option<RulePlan>)
    requires WellShaped(rule) && Optimizer.TreeOk(Optimizer.CoreBitmap(Positives(rule.body)), plan)
    requires driver.Some? ==> driver.value in Relational(Positives(rule.body))
    requires driver.None? ==> Relational(Positives(rule.body)) == {}
    ensures r.None? <==> Refused(RelationalPart(rule))
    ensures r.Some? ==> Faithful(r.value, rule) && PlannedAsTree(rule, r.value) && r.value.tree == plan.joinTree
  {
    assert Spans(RelationalPart(rule), plan.joinTree);
    r := CompileRule(rule, plan.joinTree, plan.subTrees, driver);
  }

  lemma PickedTree(rule: Rule, optimized: bool, plan: RulePlan, picked: Optimizer.PlanTree)
    requires PlannedAsTree(rule, plan) && picked.joinTree == plan.tree
    requires Optimizer.Picked(Positives(rule.body), HeadArgVariables(rule.head), optimized, picked)
    ensures OverPickedTree(rule, optimized, plan)
  {
  }
}

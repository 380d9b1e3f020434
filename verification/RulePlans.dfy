/** A rule's whole relational plan, against the meaning of its body. */
module RulePlans {
  import opened Wrappers
  import opened Datalog
  import opened Catalogs
  import opened Flows
  import opened Operators
  import opened AtomPlans
  import opened JoinTrees
  import opened Planner
  import opened CoreAtoms
  import opened Rules
  import opened Bodies
  import opened RowPrograms

  /** What validation guarantees: positive atoms bind every variable the rest of the rule reads. */
  predicate Safe(cat: Catalog, head: seq<Var>) {
    && |cat.positives| > 0
    && (forall i :: 0 <= i < |cat.negatives| ==> Variables(cat.negatives[i]) <= Relational(cat.positives))
    && (forall i :: 0 <= i < |cat.comparisons| ==> ComparisonVariables(cat.comparisons[i]) <= Relational(cat.positives))
    && Elements(head) <= Relational(cat.positives)
  }

  /** The tree spans exactly the core atoms. */
  ghost predicate Spans(cat: Catalog, tree: JoinTree) {
    forall i: nat :: i in PreOrder(tree) <==> i < |cat.positives| && IsCore(VariableSets(cat.positives), i)
  }

  function AllComparisons(cat: Catalog): (ids: seq<nat>)
    ensures ValidComparisons(cat, ids) && forall i: nat :: i in ids <==> i < |cat.comparisons|
  {
    var ids := seq(|cat.comparisons|, k requires 0 <= k < |cat.comparisons| => k as nat);
    assert forall i: nat :: i < |cat.comparisons| ==> i in ids by {
      forall i: nat | i < |cat.comparisons|
        ensures i in ids
      {
        assert ids[i] == i;
      }
    }
    ids
  }

  /** Some atom of the tree has all the variables of a given atom. */
  lemma SpanningSubsumes(cat: Catalog, tree: JoinTree, i: nat) returns (k: nat)
    requires Spans(cat, tree) && i < |cat.positives|
    ensures k < |PreOrder(tree)| && PreOrder(tree)[k] < |cat.positives|
    ensures Variables(cat.positives[i]) <= Variables(cat.positives[PreOrder(tree)[k]])
  {
    var c := SubsumedByCore(VariableSets(cat.positives), i);
    assert c in PreOrder(tree);
    k :| 0 <= k < |PreOrder(tree)| && PreOrder(tree)[k] == c;
  }

  lemma SpanningBindsAll(cat: Catalog, tree: JoinTree)
    requires Spans(cat, tree)
    ensures ValidScope(cat, PreOrder(tree)) && VarsOf(cat, PreOrder(tree)) == Relational(cat.positives)
  {
    var scope := PreOrder(tree);
    assert forall k :: 0 <= k < |scope| ==> scope[k] in scope;
    forall x | x in Relational(cat.positives)
      ensures x in VarsOf(cat, scope)
    {
      var i: nat :| i < |cat.positives| && x in Variables(cat.positives[i]);
      var k := SpanningSubsumes(cat, tree, i);
    }
  }

  /** The root's goal names every positive atom: the core ones it joins, and the others they subsume. */
  lemma RootPositives(cat: Catalog, tree: JoinTree, nonCore: seq<bool>, i: nat)
    requires Spans(cat, tree) && ValidScope(cat, PreOrder(tree)) && |nonCore| == |cat.positives|
    requires forall i :: 0 <= i < |nonCore| ==> (nonCore[i] <==> !IsCore(VariableSets(cat.positives), i))
    ensures i in Indices(PreOrder(tree)) + Subsumed(cat, PreOrder(tree), nonCore) <==> i < |cat.positives|
  {
    if i < |cat.positives| && nonCore[i] {
      var k := SpanningSubsumes(cat, tree, i);
    }
  }

  /** The goal of the root is the whole body. */
  lemma RootGoal(cat: Catalog, tree: JoinTree, negation: seq<bool>, nonCore: seq<bool>, db: Database, s: Valuation)
    requires Spans(cat, tree) && ValidScope(cat, PreOrder(tree)) && BitmapsFit(cat, negation, nonCore)
    requires forall n :: 0 <= n < |negation| ==> negation[n] && Variables(cat.negatives[n]) <= Relational(cat.positives)
    requires forall i :: 0 <= i < |nonCore| ==> (nonCore[i] <==> !IsCore(VariableSets(cat.positives), i))
    ensures Satisfies(cat, db, NodeGoal(cat, PreOrder(tree), negation, nonCore, AllComparisons(cat)), s) <==>
      BodySolution(cat, db, s)
  {
    var g := NodeGoal(cat, PreOrder(tree), negation, nonCore, AllComparisons(cat));
    assert forall i: nat :: i in g.positives <==> i < |cat.positives| by {
      forall i: nat {
        RootPositives(cat, tree, nonCore, i);
      }
    }
    assert forall n: nat :: n in g.negatives <==> n < |cat.negatives| by {
      SpanningBindsAll(cat, tree);
    }
    assert forall i: nat :: i in g.comparisons <==> i < |cat.comparisons|;
    WholeGoal(cat, db, g, s);
  }

  lemma WholeGoal(cat: Catalog, db: Database, g: Goal, s: Valuation)
    requires forall i: nat :: i in g.positives <==> i < |cat.positives|
    requires forall n: nat :: n in g.negatives <==> n < |cat.negatives|
    requires forall i: nat :: i in g.comparisons <==> i < |cat.comparisons|
    ensures Satisfies(cat, db, g, s) <==> BodySolution(cat, db, s)
  {
    if Satisfies(cat, db, g, s) {
      assert forall i: nat :: i < |cat.positives| ==> i in g.positives;
      assert forall n: nat :: n < |cat.negatives| ==> n in g.negatives;
      assert forall i: nat :: i < |cat.comparisons| ==> i in g.comparisons;
    }
  }

  /** The rows a plan should produce: the head image of every solution of the body. */
  ghost predicate Answers(cat: Catalog, db: Database, head: seq<Var>, row: Row) {
    exists s :: BodySolution(cat, db, s) && row == Image(s, head)
  }

  /** What the planner refuses: a negated atom it cannot trace its columns or comparisons through. */
  ghost predicate Refused(cat: Catalog) {
    exists n: nat :: n < |cat.negatives| && Refuses(cat, n, AllComparisons(cat))
  }

  /** A comparison inside a negated atom that reads a variable standing behind a constant or a wildcard. */
  lemma RefusedBehind(cat: Catalog, n: nat, i: nat, x: Var)
    requires n < |cat.negatives| && i < |cat.comparisons|
    requires ComparisonVariables(cat.comparisons[i]) <= Variables(cat.negatives[n])
    requires x in ComparisonVariables(cat.comparisons[i]) && !TraceableNegated(cat.negatives[n], x)
    ensures Refused(cat)
  {
    var ids := Contained(cat, AllComparisons(cat), Variables(cat.negatives[n]));
    assert i in AllComparisons(cat) && i in ids;
    var k :| 0 <= k < |ids| && ids[k] == i;
    assert !TraceableComparison(cat, cat.comparisons[ids[k]], n);
    assert Refuses(cat, n, AllComparisons(cat));
  }

  /** The relational part of `out(x) :- p(x), !n(1, x), x > 0`. */
  function BehindConstant(): Catalog {
    Catalog([Atom("p", [Variable("x")])], [Atom("n", [Constant(1), Variable("x")])],
            [Comparison(Arithmetic(Label("x"), []), GreaterThan, Arithmetic(Factor.Literal(0), []))])
  }

  lemma BehindConstantReads()
    ensures var cat := BehindConstant();
      Variables(cat.positives[0]) == Variables(cat.negatives[0]) == ComparisonVariables(cat.comparisons[0]) == {"x"}
  {
    var cat := BehindConstant();
    assert cat.positives[0].args[0] == Variable("x") && cat.negatives[0].args[1] == Variable("x");
    assert Labels(cat.comparisons[0].left) == ["x"] && Labels(cat.comparisons[0].right) == [];
  }

  /** A safe rule can be refused. */
  lemma RefusedBehindConstant()
    ensures Safe(BehindConstant(), ["x"]) && Refused(BehindConstant())
  {
    BehindConstantReads();
    BehindConstantSafe();
    BehindConstantUntraced();
    RefusedBehind(BehindConstant(), 0, 0, "x");
  }

  lemma BehindConstantSafe()
    ensures Safe(BehindConstant(), ["x"])
  {
    BehindConstantReads();
    assert "x" in Variables(BehindConstant().positives[0]);
    assert Elements(["x"]) == {"x"};
  }

  lemma BehindConstantUntraced()
    ensures "x" in Variables(BehindConstant().negatives[0]) && !TraceableNegated(BehindConstant().negatives[0], "x")
  {
    BehindConstantReads();
    var args := BehindConstant().negatives[0].args;
    assert args[1..] == [Variable("x")] && First(args, "x") == 1;
  }

  /** Over every database, the plan's rows are exactly the head images of the body's solutions. */
  ghost predicate Answering(cat: Catalog, t: Transformation, head: seq<Var>) {
    forall db, rec :: Typed(cat, db) ==> (rec in Eval(t, db) <==> rec.key == [] && Answers(cat, db, head, rec.value))
  }

  /** Plans a rule over any tree spanning its core atoms. Over every database, the plan's rows are exactly the head
      images of the body's solutions; planning is refused exactly when some negated atom is refused; and every
      subsumed atom and every negation is consumed, so the closing assertions hold. */
  method FromCatalog(cat: Catalog, tree: JoinTree, subTrees: map<nat, seq<nat>>, head: seq<Var>)
    returns (r: Option<Transformation>)
    requires Safe(cat, head) && Spans(cat, tree) && ExactSubTrees(tree, subTrees)
    ensures r.None? <==> Refused(cat)
    ensures r.Some? ==> r.value.output.keys == [] && Names(cat, r.value.output.values) == head
    ensures r.Some? ==> Answering(cat, r.value, head) && PlansTree(cat, r.value, tree)
  {
    SpanningBindsAll(cat, tree);
    var bitmap := PopulateIsCoreAtomBitmap(VariableSets(cat.positives));
    var negation := new bool[|cat.negatives|](_ => true);
    var nonCore := new bool[|cat.positives|](i requires 0 <= i < |bitmap| => !bitmap[i]);
    ghost var negation0, nonCore0 := negation[..], nonCore[..];
    AllScoped(cat, head, tree);
    ElementsBound(cat, head, PreOrder(tree), Relational(cat.positives));
    r := RecursiveTransformations(cat, subTrees, tree, [], head, negation, nonCore, AllComparisons(cat));
    if r.Some? {
      NothingLeft(cat, tree, negation0, nonCore0, negation[..], nonCore[..]);
      // the closing assertions
      assert forall n :: 0 <= n < negation.Length ==> !negation[n];
      assert forall i :: 0 <= i < nonCore.Length ==> !nonCore[i];
      PlannedAnswers(cat, tree, head, negation0, nonCore0, r.value);
    }
    RootRefuses(cat, tree, negation0);
  }

  lemma AllScoped(cat: Catalog, head: seq<Var>, tree: JoinTree)
    requires Safe(cat, head) && Spans(cat, tree) && ValidScope(cat, PreOrder(tree))
    requires Relational(cat.positives) <= VarsOf(cat, PreOrder(tree))
    ensures ScopedComparisons(cat, AllComparisons(cat), VarsOf(cat, PreOrder(tree)))
  {
    assert forall k :: 0 <= k < |AllComparisons(cat)| ==> AllComparisons(cat)[k] in AllComparisons(cat);
  }

  /** Planning the root consumes every subsumed atom and every negation. */
  lemma NothingLeft(cat: Catalog, tree: JoinTree, negation: seq<bool>, nonCore: seq<bool>, negation': seq<bool>,
                    nonCore': seq<bool>)
    requires Spans(cat, tree) && ValidScope(cat, PreOrder(tree)) && BitmapsFit(cat, negation, nonCore)
    requires forall n :: 0 <= n < |negation| ==> negation[n] && Variables(cat.negatives[n]) <= Relational(cat.positives)
    requires Consumed(cat, PreOrder(tree), negation, nonCore, negation', nonCore')
    ensures forall n :: 0 <= n < |negation'| ==> !negation'[n]
    ensures forall i :: 0 <= i < |nonCore'| ==> !nonCore'[i]
  {
    SpanningBindsAll(cat, tree);
    forall i | 0 <= i < |nonCore'|
      ensures !nonCore'[i]
    {
      var k := SpanningSubsumes(cat, tree, i);
    }
  }

  lemma RootRefuses(cat: Catalog, tree: JoinTree, negation: seq<bool>)
    requires Spans(cat, tree) && ValidScope(cat, PreOrder(tree)) && |negation| == |cat.negatives|
    requires forall n :: 0 <= n < |negation| ==> negation[n] && Variables(cat.negatives[n]) <= Relational(cat.positives)
    ensures RefusesIn(cat, VarsOf(cat, PreOrder(tree)), negation, AllComparisons(cat)) <==> Refused(cat)
  {
    SpanningBindsAll(cat, tree);
    assert forall n: nat :: n < |cat.negatives| <==> n in NegatedIn(cat, VarsOf(cat, PreOrder(tree)), negation);
  }

  lemma PlannedAnswers(cat: Catalog, tree: JoinTree, head: seq<Var>, negation: seq<bool>, nonCore: seq<bool>,
                       t: Transformation)
    requires Spans(cat, tree) && ValidScope(cat, PreOrder(tree)) && BitmapsFit(cat, negation, nonCore)
    requires forall n :: 0 <= n < |negation| ==> negation[n] && Variables(cat.negatives[n]) <= Relational(cat.positives)
    requires forall i :: 0 <= i < |nonCore| ==> (nonCore[i] <==> !IsCore(VariableSets(cat.positives), i))
    requires Planned(cat, PreOrder(tree), [], head, negation, nonCore, AllComparisons(cat), t)
    ensures t.output.keys == [] && Names(cat, t.output.values) == head
    ensures Answering(cat, t, head)
  {
    var g := NodeGoal(cat, PreOrder(tree), negation, nonCore, AllComparisons(cat));
    assert t.output.keys == [];
    forall db, rec | Typed(cat, db)
      ensures rec in Eval(t, db) <==> rec.key == [] && Answers(cat, db, head, rec.value)
    {
      if Derives(cat, db, g, t.output, rec) {
        var s :| Satisfies(cat, db, g, s) && rec == Shown(cat, t.output, s);
        RootGoal(cat, tree, negation, nonCore, db, s);
      }
      if rec.key == [] && Answers(cat, db, head, rec.value) {
        var s :| BodySolution(cat, db, s) && rec.value == Image(s, head);
        RootGoal(cat, tree, negation, nonCore, db, s);
        assert rec == Shown(cat, t.output, s);
      }
    }
  }

  /* ------------------------------------------------------------------ */
  /* The whole rule                                                       */
  /* ------------------------------------------------------------------ */

  /** The tree a rule was planned over, its relational plan, and the row program run on its rows, if it needs one. */
  datatype RulePlan = RulePlan(tree: JoinTree, relational: Transformation, program: Option<RowProgram>)

  /** Evaluating the plan meets the outcome: some row of the relational plan ends in it. */
  ghost predicate PlanYields(functions: Functions, plan: RulePlan, db: Database, outcome: Outcome<Row>)
    requires plan.program.Some? ==> ProgramOk(plan.program.value)
  {
    exists rec :: rec in Eval(plan.relational, db) && RowYields(functions, plan, rec, outcome)
  }

  ghost predicate RowYields(functions: Functions, plan: RulePlan, rec: Record, outcome: Outcome<Row>)
    requires plan.program.Some? ==> ProgramOk(plan.program.value)
  {
    match plan.program
    case None => outcome == Kept(rec.value)
    case Some(p) => |rec.value| == |p.inputVariables| && outcome == RunProgram(functions, p, rec.value)
  }

  ghost predicate Faithful(plan: RulePlan, rule: Rule) {
    && (plan.program.Some? ==> ProgramOk(plan.program.value))
    && forall functions, db, outcome :: Typed(RelationalPart(rule), db) ==> (PlanYields(functions, plan, db, outcome) <==> Yields(functions, rule, db, outcome))
  }

  method Projection(rule: Rule, driver: Option<Var>) returns (program: Option<RowProgram>, head: seq<Var>)
    requires WellShaped(rule)
    requires driver.Some? ==> driver.value in Relational(Positives(rule.body))
    requires driver.None? ==> Relational(Positives(rule.body)) == {}
    ensures Projects(program, rule, head) && Safe(RelationalPart(rule), head)
  {
    program := FromRule(rule, driver);
    match program {
      case None =>
        head := HeadVariables(rule.head);
        PlainHeadBound(rule);
      case Some(p) => head := p.inputVariables;
    }
    RelationalSafe(rule, head);
  }

  /** The relational plan joins as its tree does. */
  ghost predicate PlannedAsTree(rule: Rule, plan: RulePlan) {
    PlansTree(RelationalPart(rule), plan.relational, plan.tree)
  }

  /** Compiles a whole rule over any tree spanning its core atoms. Over every database and all embedded functions,
      evaluating the plan ends in a row, a drop or a fault exactly when some solution of the rule's body does. */
  method CompileRule(rule: Rule, tree: JoinTree, subTrees: map<nat, seq<nat>>, driver: Option<Var>)
    returns (r: Option<RulePlan>)
    requires WellShaped(rule) && Spans(RelationalPart(rule), tree) && ExactSubTrees(tree, subTrees)
    requires driver.Some? ==> driver.value in Relational(Positives(rule.body))
    requires driver.None? ==> Relational(Positives(rule.body)) == {}
    ensures r.None? <==> Refused(RelationalPart(rule))
    ensures r.Some? ==> Faithful(r.value, rule) && r.value.tree == tree && PlannedAsTree(rule, r.value)
  {
    var program, head := Projection(rule, driver);
    var plan := FromCatalog(RelationalPart(rule), tree, subTrees, head);
    if plan.None? {
      return None;
    }
    r := Some(RulePlan(tree, plan.value, program));
    PlanFaithful(rule, r.value, head);
  }

  lemma PlainHeadBound(rule: Rule)
    requires WellShaped(rule) && !NeedsProgram(rule)
    ensures forall i :: 0 <= i < |rule.head| ==> HeadVariables(rule.head)[i] in Relational(Positives(rule.body))
  {
    assert Outputs(Calls(rule.body)) == {};
    forall i | 0 <= i < |rule.head|
      ensures HeadVariables(rule.head)[i] in Relational(Positives(rule.body))
    {
      assert !HeadComputes(rule.head[i]);
      LabelsOfTerms(HeadExpression(rule.head[i]));
    }
  }

  lemma RelationalSafe(rule: Rule, head: seq<Var>)
    requires WellShaped(rule) && forall i :: 0 <= i < |head| ==> head[i] in Relational(Positives(rule.body))
    ensures Safe(RelationalPart(rule), head)
  {
    forall i: nat | i < |RelationalPart(rule).comparisons|
      ensures ComparisonVariables(RelationalPart(rule).comparisons[i]) <= Relational(Positives(rule.body))
    {
      RelationalReads(rule, i);
    }
  }

  lemma PlanFaithful(rule: Rule, plan: RulePlan, head: seq<Var>)
    requires Projects(plan.program, rule, head)
    requires Answering(RelationalPart(rule), plan.relational, head)
    ensures Faithful(plan, rule)
  {
    var cat := RelationalPart(rule);
    forall functions, db, outcome | Typed(cat, db)
      ensures PlanYields(functions, plan, db, outcome) <==> Yields(functions, rule, db, outcome)
    {
      if PlanYields(functions, plan, db, outcome) {
        var rec :| rec in Eval(plan.relational, db) && RowYields(functions, plan, rec, outcome);
        var s :| BodySolution(cat, db, s) && rec.value == Image(s, head);
        SolutionRow(functions, rule, plan, head, s);
      }
      if Yields(functions, rule, db, outcome) {
        var s :| BodySolution(cat, db, s) && EvaluateSolution(functions, rule, s) == outcome;
        var rec := Record([], Image(s, head));
        assert Answers(cat, db, head, rec.value);
        SolutionRow(functions, rule, plan, head, s);
        assert rec in Eval(plan.relational, db);
      }
    }
  }

  lemma SolutionRow(functions: Functions, rule: Rule, plan: RulePlan, head: seq<Var>, s: Valuation)
    requires Projects(plan.program, rule, head)
    ensures RowYields(functions, plan, Record([], Image(s, head)), EvaluateSolution(functions, rule, s))
  {
    if plan.program.None? {
      NoProgram(functions, rule, s);
    }
  }
}

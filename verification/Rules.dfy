/** Whole rules: a relational body, embedded calls, computed comparisons and a computed head. */
module Rules {
  import opened Datalog
  import opened Catalogs

  /** The embedded functions: deterministic, and partial - where one has no value, it faults. */
  type Functions = imap<(string, Row), Val>

  /** What evaluating a rule does with one row. A fault ends the evaluation. */
  datatype Outcome<+T> = Fault | Dropped | Kept(value: T) {
    predicate IsFailure() {
      !Kept?
    }

    function PropagateFailure<U>(): Outcome<U>
      requires !Kept?
    {
      if Fault? then Fault else Dropped
    }

    function Extract(): T
      requires Kept?
    {
      value
    }
  }

  datatype CallExpr = CallExpr(name: string, args: seq<Factor<Var>>)

  /** A call binds one result, or filters. A prefilter is a filter's copy, run early: a fault keeps the row. */
  datatype CallPredicate = Bind(output: Var, call: CallExpr) | Filter(call: CallExpr) | Prefilter(call: CallExpr)

  datatype HeadArg = HeadVariable(name: Var) | HeadArithmetic(arithmetic: Arithmetic<Var>) | HeadAggregate(arithmetic: Arithmetic<Var>)

  datatype Literal = Positive(atom: Atom) | Negative(atom: Atom) | Compare(comparison: Comparison<Var>) | Call(call: CallPredicate)

  datatype Rule = Rule(name: string, head: seq<HeadArg>, body: seq<Literal>)

  /* ------------------------------------------------------------------ */
  /* The parts of a body                                                  */
  /* ------------------------------------------------------------------ */

  function Positives(body: seq<Literal>): (r: seq<Atom>)
    ensures forall i :: 0 <= i < |r| ==> Positive(r[i]) in body
    ensures forall k :: 0 <= k < |body| && body[k].Positive? ==> body[k].atom in r
  {
    if body == [] then
      []
    else
      var front := Positives(body[..|body| - 1]);
      if body[|body| - 1].Positive? then front + [body[|body| - 1].atom] else front
  }

  function Negatives(body: seq<Literal>): (r: seq<Atom>)
    ensures forall i :: 0 <= i < |r| ==> Negative(r[i]) in body
    ensures forall k :: 0 <= k < |body| && body[k].Negative? ==> body[k].atom in r
  {
    if body == [] then
      []
    else
      var front := Negatives(body[..|body| - 1]);
      if body[|body| - 1].Negative? then front + [body[|body| - 1].atom] else front
  }

  function Calls(body: seq<Literal>): (r: seq<CallPredicate>)
    ensures forall i :: 0 <= i < |r| ==> Call(r[i]) in body
    ensures forall k :: 0 <= k < |body| && body[k].Call? ==> body[k].call in r
  {
    if body == [] then
      []
    else
      var front := Calls(body[..|body| - 1]);
      if body[|body| - 1].Call? then front + [body[|body| - 1].call] else front
  }

  function Outputs(calls: seq<CallPredicate>): set<Var> {
    set k | 0 <= k < |calls| && calls[k].Bind? :: calls[k].output
  }

  /** The last call binds its output, if any, and the ones before it bind theirs. */
  lemma OutputsOfLast(calls: seq<CallPredicate>)
    requires calls != []
    ensures Outputs(calls) == Outputs(calls[..|calls| - 1]) + if calls[|calls| - 1].Bind? then {calls[|calls| - 1].output} else {}
  {
    var n := |calls| - 1;
    forall x | x in Outputs(calls[..n])
      ensures x in Outputs(calls)
    {
      var k :| 0 <= k < n && calls[..n][k].Bind? && calls[..n][k].output == x;
      assert calls[k].output == x;
    }
    forall x | x in Outputs(calls)
      ensures x in Outputs(calls[..n]) || (calls[n].Bind? && x == calls[n].output)
    {
      var k :| 0 <= k < |calls| && calls[k].Bind? && calls[k].output == x;
      assert k < n ==> calls[..n][k] == calls[k];
    }
  }

  /** The comparisons that read a call result (`computed`), or the others. */
  function Comparisons(body: seq<Literal>, outputs: set<Var>, computed: bool): (r: seq<Comparison<Var>>)
  {
    if body == [] then
      []
    else
      var front, last := Comparisons(body[..|body| - 1], outputs, computed), body[|body| - 1];
      if last.Compare? && (computed <==> ComparisonVariables(last.comparison) * outputs != {}) then front + [last.comparison] else front
  }

  lemma {:induction false} ComparisonsMembers(body: seq<Literal>, outputs: set<Var>, computed: bool)
    ensures forall c :: c in Comparisons(body, outputs, computed) <==>
      Compare(c) in body && (computed <==> ComparisonVariables(c) * outputs != {})
  {
    if body != [] {
      ComparisonsMembers(body[..|body| - 1], outputs, computed);
      assert body == body[..|body| - 1] + [body[|body| - 1]];
    }
  }

  function RelationalPart(rule: Rule): Catalog {
    Catalog(Positives(rule.body), Negatives(rule.body), Comparisons(rule.body, Outputs(Calls(rule.body)), false))
  }

  function ComputedComparisons(rule: Rule): seq<Comparison<Var>> {
    Comparisons(rule.body, Outputs(Calls(rule.body)), true)
  }

  lemma RelationalMember(rule: Rule, i: nat)
    requires i < |RelationalPart(rule).comparisons|
    ensures Compare(RelationalPart(rule).comparisons[i]) in rule.body
    ensures ComparisonVariables(RelationalPart(rule).comparisons[i]) * Outputs(Calls(rule.body)) == {}
  {
    ComparisonsMembers(rule.body, Outputs(Calls(rule.body)), false);
    assert RelationalPart(rule).comparisons[i] in RelationalPart(rule).comparisons;
  }

  lemma ComputedMember(body: seq<Literal>, outputs: set<Var>, i: nat)
    requires i < |Comparisons(body, outputs, true)|
    ensures Compare(Comparisons(body, outputs, true)[i]) in body
  {
    ComparisonsMembers(body, outputs, true);
    assert Comparisons(body, outputs, true)[i] in Comparisons(body, outputs, true);
  }

  /** Every comparison of the body is relational or computed. */
  lemma ComparisonPlaced(rule: Rule, c: Comparison<Var>)
    requires Compare(c) in rule.body
    ensures if ComparisonVariables(c) * Outputs(Calls(rule.body)) ==
      {} then c in RelationalPart(rule).comparisons else c in ComputedComparisons(rule)
  {
    ComparisonsMembers(rule.body, Outputs(Calls(rule.body)), false);
    ComparisonsMembers(rule.body, Outputs(Calls(rule.body)), true);
  }

  function HeadExpression(arg: HeadArg): Arithmetic<Var> {
    if arg.HeadVariable? then Arithmetic(Label(arg.name), []) else arg.arithmetic
  }

  function HeadExpressions(head: seq<HeadArg>): seq<Arithmetic<Var>> {
    seq(|head|, i requires 0 <= i < |head| => HeadExpression(head[i]))
  }

  /** The variables the positive atoms bind. */
  function Relational(atoms: seq<Atom>): (xs: set<Var>)
    ensures forall i, x :: 0 <= i < |atoms| && x in Variables(atoms[i]) ==> x in xs
    ensures forall x :: x in xs ==> exists i :: 0 <= i < |atoms| && x in Variables(atoms[i])
  {
    set i, x | 0 <= i < |atoms| && x in Variables(atoms[i]) :: x
  }

  /* ------------------------------------------------------------------ */
  /* What a rule means, over names                                        */
  /* ------------------------------------------------------------------ */

  function Arguments(args: seq<Factor<Var>>, s: Valuation): (r: Row)
    ensures |r| == |args| && forall i :: 0 <= i < |r| ==> r[i] == FactorValue(args[i], Env(s))
  {
    seq(|args|, i requires 0 <= i < |args| => FactorValue(args[i], Env(s)))
  }

  /** A filter's verdict on a row: 1 keeps it, 0 drops it, and nothing else is a boolean. */
  function Verdict<T>(value: Val, kept: T): Outcome<T> {
    if value == 0 then Dropped else if value == 1 then Kept(kept) else Fault
  }

  function RunCall(functions: Functions, call: CallPredicate, s: Valuation): Outcome<Valuation> {
    var key := (call.call.name, Arguments(call.call.args, s));
    match call
    case Bind(output, _) => if key in functions then Kept(s[output := functions[key]]) else Fault
    case Filter(_) => if key in functions then Verdict(functions[key], s) else Fault
    case Prefilter(_) => if key in functions then Verdict(functions[key], s) else Kept(s)
  }

  function RunCalls(functions: Functions, calls: seq<CallPredicate>, s: Valuation): Outcome<Valuation> {
    if calls == [] then
      Kept(s)
    else
      var t :- RunCalls(functions, calls[..|calls| - 1], s);
      RunCall(functions, calls[|calls| - 1], t)
  }

  /** The value of an expression, or a fault. */
  function Compute<T>(a: Arithmetic<T>, env: T -> Val): Outcome<Val> {
    var value := Evaluate(a, env);
    if value.Some? then Kept(value.value) else Fault
  }

  function RunComparison(c: Comparison<Var>, s: Valuation): Outcome<Valuation> {
    var left :- Compute(c.left, Env(s));
    var right :- Compute(c.right, Env(s));
    if CompareInts(left, c.operator, right) then Kept(s) else Dropped
  }

  function RunComparisons(cs: seq<Comparison<Var>>, s: Valuation): Outcome<Valuation> {
    if cs == [] then
      Kept(s)
    else
      var t :- RunComparisons(cs[..|cs| - 1], s);
      RunComparison(cs[|cs| - 1], t)
  }

  function HeadRow(head: seq<Arithmetic<Var>>, s: Valuation): (r: Outcome<Row>)
    ensures r.Kept? ==> |r.value| == |head|
  {
    if head == [] then
      Kept([])
    else
      var front :- HeadRow(head[..|head| - 1], s);
      var last :- Compute(head[|head| - 1], Env(s));
      Kept(front + [last])
  }

  /** The row-local part of a rule, on one solution of its relational part: the calls in order, then the comparisons
      that read their results, then the head. */
  function RowLocal(functions: Functions, calls: seq<CallPredicate>, computed: seq<Comparison<Var>>,
                    head: seq<Arithmetic<Var>>,
                    s: Valuation): Outcome<Row> {
    var called :- RunCalls(functions, calls, s);
    var compared :- RunComparisons(computed, called);
    HeadRow(head, compared)
  }

  function EvaluateSolution(functions: Functions, rule: Rule, s: Valuation): Outcome<Row> {
    RowLocal(functions, Calls(rule.body), ComputedComparisons(rule), HeadExpressions(rule.head), s)
  }

  /** A solution of the relational body: every positive atom matches, no negated atom does, every comparison holds. */
  ghost predicate BodySolution(cat: Catalog, db: Database, s: Valuation) {
    && (forall i :: 0 <= i < |cat.positives| ==> AtomHolds(db, cat.positives[i], s))
    && (forall i :: 0 <= i < |cat.negatives| ==> !AtomHolds(db, cat.negatives[i], s))
    && (forall i :: 0 <= i < |cat.comparisons| ==> ComparisonHolds(cat.comparisons[i], s))
  }

  /** Some solution of the rule ends in the outcome. */
  ghost predicate Yields(functions: Functions, rule: Rule, db: Database, outcome: Outcome<Row>) {
    exists s :: BodySolution(RelationalPart(rule), db, s) && EvaluateSolution(functions, rule, s) == outcome
  }

  /* ------------------------------------------------------------------ */
  /* What validation guarantees                                           */
  /* ------------------------------------------------------------------ */

  predicate FactorsBound(factors: seq<Factor<Var>>, xs: set<Var>) {
    forall i :: 0 <= i < |factors| && factors[i].Label? ==> factors[i].place in xs
  }

  /** Every call reads only what positive atoms and earlier calls bind, and binds a fresh variable. */
  predicate CallsOk(calls: seq<CallPredicate>, xs: set<Var>) {
    forall k :: 0 <= k < |calls| ==>
      && FactorsBound(calls[k].call.args, xs + Outputs(calls[..k]))
      && (calls[k].Bind? ==> calls[k].output !in xs + Outputs(calls[..k]))
  }

  predicate WellShaped(rule: Rule) {
    var cat, xs := RelationalPart(rule), Relational(Positives(rule.body));
    var bound := xs + Outputs(Calls(rule.body));
    && |cat.positives| > 0
    && CallsOk(Calls(rule.body), xs)
    && (forall i :: 0 <= i < |cat.negatives| ==> Variables(cat.negatives[i]) <= xs)
    && (forall i :: 0 <= i < |cat.comparisons| ==> ComparisonVariables(cat.comparisons[i]) <= bound)
    && (forall i :: 0 <= i < |ComputedComparisons(rule)| ==> ComparisonVariables(ComputedComparisons(rule)[i]) <= bound)
    && (forall i :: 0 <= i < |rule.head| ==> ArithmeticVariables(HeadExpression(rule.head[i])) <= bound)
  }
}

/** A body read literal by literal, and what of a valuation a rule reads. */
module Bodies {
  import opened Datalog
  import opened Rules

  /* ------------------------------------------------------------------ */
  /* Reading a body literal by literal                                    */
  /* ------------------------------------------------------------------ */

  function CallVariables(call: CallExpr): set<Var> {
    set i | 0 <= i < |call.args| && call.args[i].Label? :: call.args[i].place
  }

  /** The variables a literal reads. A binding's output is not one of them. */
  function LiteralVariables(l: Literal): set<Var> {
    match l
    case Positive(atom) => Variables(atom)
    case Negative(atom) => Variables(atom)
    case Compare(c) => ComparisonVariables(c)
    case Call(call) => CallVariables(call.call)
  }

  function BodyVariables(body: seq<Literal>): (xs: set<Var>)
    ensures forall k, x :: 0 <= k < |body| && x in LiteralVariables(body[k]) ==> x in xs
    ensures forall x :: x in xs ==> exists k :: 0 <= k < |body| && x in LiteralVariables(body[k])
  {
    set k, x | 0 <= k < |body| && x in LiteralVariables(body[k]) :: x
  }

  function HeadArgVariables(head: seq<HeadArg>): (xs: set<Var>)
    ensures forall k :: 0 <= k < |head| ==> ArithmeticVariables(HeadExpression(head[k])) <= xs
    ensures forall x :: x in xs ==> exists k :: 0 <= k < |head| && x in ArithmeticVariables(HeadExpression(head[k]))
  {
    set k, x | 0 <= k < |head| && x in ArithmeticVariables(HeadExpression(head[k])) :: x
  }

  ghost predicate LiteralHolds(db: Database, outputs: set<Var>, l: Literal, s: Valuation) {
    match l
    case Positive(atom) => AtomHolds(db, atom, s)
    case Negative(atom) => !AtomHolds(db, atom, s)
    case Compare(c) => ComparisonVariables(c) * outputs == {} ==> ComparisonHolds(c, s)
    case Call(_) => true
  }

  ghost predicate BodyHolds(db: Database, outputs: set<Var>, body: seq<Literal>, s: Valuation) {
    forall k :: 0 <= k < |body| ==> LiteralHolds(db, outputs, body[k], s)
  }

  /** A solution of the relational part satisfies the body literal by literal, in whatever order it is written. */
  lemma SolutionByLiterals(rule: Rule, db: Database, s: Valuation)
    ensures BodySolution(RelationalPart(rule), db, s) <==> BodyHolds(db, Outputs(Calls(rule.body)), rule.body, s)
  {
    if BodySolution(RelationalPart(rule), db, s) {
      forall k | 0 <= k < |rule.body|
        ensures LiteralHolds(db, Outputs(Calls(rule.body)), rule.body[k], s)
      {
        SolutionHolds(rule, db, s, k);
      }
    }
    if BodyHolds(db, Outputs(Calls(rule.body)), rule.body, s) {
      HoldsSolution(rule, db, s);
    }
  }

  lemma SolutionHolds(rule: Rule, db: Database, s: Valuation, k: nat)
    requires BodySolution(RelationalPart(rule), db, s) && k < |rule.body|
    ensures LiteralHolds(db, Outputs(Calls(rule.body)), rule.body[k], s)
  {
    var cat, l := RelationalPart(rule), rule.body[k];
    if l.Positive? {
      var i :| 0 <= i < |cat.positives| && cat.positives[i] == l.atom;
    } else if l.Negative? {
      var i :| 0 <= i < |cat.negatives| && cat.negatives[i] == l.atom;
    } else if l.Compare? && ComparisonVariables(l.comparison) * Outputs(Calls(rule.body)) == {} {
      ComparisonPlaced(rule, l.comparison);
      var i :| 0 <= i < |cat.comparisons| && cat.comparisons[i] == l.comparison;
    }
  }

  lemma HoldsSolution(rule: Rule, db: Database, s: Valuation)
    requires BodyHolds(db, Outputs(Calls(rule.body)), rule.body, s)
    ensures BodySolution(RelationalPart(rule), db, s)
  {
    var cat, outputs := RelationalPart(rule), Outputs(Calls(rule.body));
    assert forall l :: l in rule.body ==> LiteralHolds(db, outputs, l, s);
    forall i | 0 <= i < |cat.positives|
      ensures AtomHolds(db, cat.positives[i], s)
    {
      assert LiteralHolds(db, outputs, Positive(cat.positives[i]), s);
    }
    forall i | 0 <= i < |cat.negatives|
      ensures !AtomHolds(db, cat.negatives[i], s)
    {
      assert LiteralHolds(db, outputs, Negative(cat.negatives[i]), s);
    }
    forall i | 0 <= i < |cat.comparisons|
      ensures ComparisonHolds(cat.comparisons[i], s)
    {
      RelationalMember(rule, i);
      assert LiteralHolds(db, outputs, Compare(cat.comparisons[i]), s);
    }
  }

  lemma LiteralAgrees(db: Database, outputs: set<Var>, l: Literal, s: Valuation, t: Valuation)
    requires AgreeOn(s, t, LiteralVariables(l))
    ensures LiteralHolds(db, outputs, l, s) <==> LiteralHolds(db, outputs, l, t)
  {
    match l
    case Positive(atom) => AtomHoldsAgrees(db, atom, s, t);
    case Negative(atom) => AtomHoldsAgrees(db, atom, s, t);
    case Compare(c) => ComparisonHoldsAgrees(c, s, t);
    case Call(_) =>
  }

  /* ------------------------------------------------------------------ */
  /* The row-local part reads nothing else                                */
  /* ------------------------------------------------------------------ */

  /** The same end, and values that agree on the given variables. */
  ghost predicate SameEnd(a: Outcome<Valuation>, b: Outcome<Valuation>, xs: set<Var>) {
    match a
    case Fault => b.Fault?
    case Dropped => b.Dropped?
    case Kept(s) => b.Kept? && AgreeOn(s, b.value, xs)
  }

  lemma {:induction false} CallsAgree(functions: Functions, calls: seq<CallPredicate>, s: Valuation, t: Valuation,
                                      xs: set<Var>)
    requires AgreeOn(s, t, xs)
    requires forall k :: 0 <= k < |calls| ==> CallVariables(calls[k].call) <= xs + Outputs(calls[..k])
    ensures SameEnd(RunCalls(functions, calls, s), RunCalls(functions, calls, t), xs + Outputs(calls))
  {
    if calls != [] {
      var n := |calls| - 1;
      assert forall k :: 0 <= k < n ==> calls[..n][..k] == calls[..k] && calls[..n][k] == calls[k];
      CallsAgree(functions, calls[..n], s, t, xs);
      var a, b := RunCalls(functions, calls[..n], s), RunCalls(functions, calls[..n], t);
      if a.Kept? {
        CallAgrees(functions, calls[n], a.value, b.value, xs + Outputs(calls[..n]));
        OutputsOfLast(calls);
      }
    } else {
      assert Outputs(calls) == {};
    }
  }

  lemma CallAgrees(functions: Functions, call: CallPredicate, s: Valuation, t: Valuation, xs: set<Var>)
    requires AgreeOn(s, t, xs) && CallVariables(call.call) <= xs
    ensures SameEnd(RunCall(functions, call, s), RunCall(functions, call, t), xs + if call.Bind? then {call.output} else {})
  {
    assert Arguments(call.call.args, s) == Arguments(call.call.args, t);
  }

  lemma ComputeAgrees(a: Arithmetic<Var>, s: Valuation, t: Valuation)
    requires AgreeOn(s, t, ArithmeticVariables(a))
    ensures Compute(a, Env(s)) == Compute(a, Env(t))
  {
    EvaluateAgrees(a, Env(s), Env(t));
  }

  lemma {:induction false} ComparisonsAgree(cs: seq<Comparison<Var>>, s: Valuation, t: Valuation, xs: set<Var>)
    requires AgreeOn(s, t, xs) && forall k :: 0 <= k < |cs| ==> ComparisonVariables(cs[k]) <= xs
    ensures SameEnd(RunComparisons(cs, s), RunComparisons(cs, t), xs)
  {
    if cs != [] {
      var n := |cs| - 1;
      ComparisonsAgree(cs[..n], s, t, xs);
      var a, b := RunComparisons(cs[..n], s), RunComparisons(cs[..n], t);
      if a.Kept? {
        ComparisonAgrees(cs[n], a.value, b.value, xs);
      }
    }
  }

  lemma ComparisonAgrees(c: Comparison<Var>, s: Valuation, t: Valuation, xs: set<Var>)
    requires AgreeOn(s, t, xs) && ComparisonVariables(c) <= xs
    ensures SameEnd(RunComparison(c, s), RunComparison(c, t), xs)
  {
    ComputeAgrees(c.left, s, t);
    ComputeAgrees(c.right, s, t);
  }

  lemma {:induction false} HeadAgrees(head: seq<Arithmetic<Var>>, s: Valuation, t: Valuation, xs: set<Var>)
    requires AgreeOn(s, t, xs) && forall k :: 0 <= k < |head| ==> ArithmeticVariables(head[k]) <= xs
    ensures HeadRow(head, s) == HeadRow(head, t)
  {
    if head != [] {
      HeadAgrees(head[..|head| - 1], s, t, xs);
      ComputeAgrees(head[|head| - 1], s, t);
    }
  }

  /** Two valuations that agree on what the row-local part reads, other than call results, end alike. */
  lemma RowLocalAgrees(functions: Functions, calls: seq<CallPredicate>, computed: seq<Comparison<Var>>,
                       head: seq<Arithmetic<Var>>,
                       s: Valuation, t: Valuation, xs: set<Var>)
    requires AgreeOn(s, t, xs)
    requires forall k :: 0 <= k < |calls| ==> CallVariables(calls[k].call) <= xs + Outputs(calls[..k])
    requires forall k :: 0 <= k < |computed| ==> ComparisonVariables(computed[k]) <= xs + Outputs(calls)
    requires forall k :: 0 <= k < |head| ==> ArithmeticVariables(head[k]) <= xs + Outputs(calls)
    ensures RowLocal(functions, calls, computed, head, s) == RowLocal(functions, calls, computed, head, t)
  {
    CallsAgree(functions, calls, s, t, xs);
    var a, b := RunCalls(functions, calls, s), RunCalls(functions, calls, t);
    if a.Kept? {
      ComparisonsAgree(computed, a.value, b.value, xs + Outputs(calls));
      var c, d := RunComparisons(computed, a.value), RunComparisons(computed, b.value);
      if c.Kept? {
        HeadAgrees(head, c.value, d.value, xs + Outputs(calls));
      }
    }
  }

  /** A well-shaped rule ends alike on valuations that agree on its relational variables. */
  lemma SolutionAgrees(functions: Functions, rule: Rule, s: Valuation, t: Valuation)
    requires WellShaped(rule) && AgreeOn(s, t, Relational(Positives(rule.body)))
    ensures EvaluateSolution(functions, rule, s) == EvaluateSolution(functions, rule, t)
  {
    var calls, xs := Calls(rule.body), Relational(Positives(rule.body));
    forall k | 0 <= k < |calls|
      ensures CallVariables(calls[k].call) <= xs + Outputs(calls[..k])
    {
      assert FactorsBound(calls[k].call.args, xs + Outputs(calls[..k]));
    }
    RowLocalAgrees(functions, calls, ComputedComparisons(rule), HeadExpressions(rule.head), s, t, xs);
  }

  lemma CallsRead(body: seq<Literal>, k: nat)
    requires k < |Calls(body)|
    ensures CallVariables(Calls(body)[k].call) <= BodyVariables(body)
  {
    assert Call(Calls(body)[k]) in body;
  }

  lemma ComputedRead(body: seq<Literal>, outputs: set<Var>, k: nat)
    requires k < |Comparisons(body, outputs, true)|
    ensures ComparisonVariables(Comparisons(body, outputs, true)[k]) <= BodyVariables(body)
  {
    ComputedMember(body, outputs, k);
  }

  /** The row-local part reads nothing but the variables of its body and head. */
  lemma BodyAgrees(functions: Functions, body: seq<Literal>, outputs: set<Var>, head: seq<HeadArg>, s: Valuation,
                   t: Valuation)
    requires AgreeOn(s, t, BodyVariables(body) + HeadArgVariables(head))
    ensures RowLocal(functions, Calls(body), Comparisons(body, outputs, true), HeadExpressions(head), s) ==
      RowLocal(functions, Calls(body), Comparisons(body, outputs, true), HeadExpressions(head), t)
  {
    forall k | 0 <= k < |Calls(body)|
      ensures CallVariables(Calls(body)[k].call) <= BodyVariables(body)
    {
      CallsRead(body, k);
    }
    forall k | 0 <= k < |Comparisons(body, outputs, true)|
      ensures ComparisonVariables(Comparisons(body, outputs, true)[k]) <= BodyVariables(body)
    {
      ComputedRead(body, outputs, k);
    }
    RowLocalAgrees(functions, Calls(body), Comparisons(body, outputs, true), HeadExpressions(head), s, t,
                   BodyVariables(body) + HeadArgVariables(head));
  }

  /** Relational variables are no call's output. */
  lemma RelationalUnbound(rule: Rule)
    requires WellShaped(rule)
    ensures Relational(Positives(rule.body)) !! Outputs(Calls(rule.body))
  {
    forall x | x in Outputs(Calls(rule.body))
      ensures x !in Relational(Positives(rule.body))
    {
      var k :| 0 <= k < |Calls(rule.body)| && Calls(rule.body)[k].Bind? && Calls(rule.body)[k].output == x;
    }
  }

  lemma {:induction false} NoCalls(body: seq<Literal>)
    requires forall l :: l in body ==> !l.Call?
    ensures Calls(body) == []
  {
    if body != [] {
      NoCalls(body[..|body| - 1]);
    }
  }

  lemma {:induction false} CallsConcat(a: seq<Literal>, b: seq<Literal>)
    ensures Calls(a + b) == Calls(a) + Calls(b)
  {
    if b == [] {
      assert a + b == a;
    } else {
      CallsConcat(a, b[..|b| - 1]);
      assert (a + b)[..|a + b| - 1] == a + b[..|b| - 1];
    }
  }

  lemma Associative<T>(a: seq<T>, b: seq<T>, c: seq<T>)
    ensures (a + b) + c == a + (b + c)
  {
  }

  lemma ComparisonsLast(body: seq<Literal>, l: Literal, outputs: set<Var>, computed: bool)
    ensures Comparisons(body + [l], outputs, computed) == Comparisons(body, outputs, computed)
      + if l.Compare? && (computed <==> ComparisonVariables(l.comparison) * outputs != {}) then [l.comparison] else []
  {
    assert (body + [l])[..|body|] == body;
  }

  lemma {:induction false} ComparisonsConcat(a: seq<Literal>, b: seq<Literal>, outputs: set<Var>, computed: bool)
    ensures Comparisons(a + b, outputs, computed) ==
      Comparisons(a, outputs, computed) + Comparisons(b, outputs, computed)
  {
    if b == [] {
      assert a + b == a;
    } else {
      var front, last := b[..|b| - 1], b[|b| - 1];
      ComparisonsConcat(a, front, outputs, computed);
      assert a + b == (a + front) + [last] && b == front + [last];
      ComparisonsLast(a + front, last, outputs, computed);
      ComparisonsLast(front, last, outputs, computed);
      Associative(Comparisons(a, outputs, computed), Comparisons(front, outputs, computed),
                  if last.Compare? && (computed <==> ComparisonVariables(last.comparison) * outputs != {}) then [last.comparison] else []);
    }
  }

  lemma {:induction false} NoneComputed(body: seq<Literal>, outputs: set<Var>)
    requires forall l :: l in body && l.Compare? ==> ComparisonVariables(l.comparison) * outputs == {}
    ensures Comparisons(body, outputs, true) == []
  {
    if body != [] {
      NoneComputed(body[..|body| - 1], outputs);
    }
  }

  lemma {:induction false} OutsideOutputs(functions: Functions, calls: seq<CallPredicate>, s: Valuation)
    requires RunCalls(functions, calls, s).Kept?
    ensures forall x :: x !in Outputs(calls) ==> At(RunCalls(functions, calls, s).value, x) == At(s, x)
  {
    if calls != [] {
      var n := |calls| - 1;
      OutsideOutputs(functions, calls[..n], s);
      assert forall k :: 0 <= k < n ==> calls[..n][k] == calls[k];
      assert Outputs(calls[..n]) <= Outputs(calls);
    }
  }

  /** A comparison that reads no call result reads relational variables only. */
  lemma RelationalReads(rule: Rule, i: nat)
    requires WellShaped(rule) && i < |RelationalPart(rule).comparisons|
    ensures ComparisonVariables(RelationalPart(rule).comparisons[i]) <= Relational(Positives(rule.body))
  {
    var xs := ComparisonVariables(RelationalPart(rule).comparisons[i]);
    RelationalMember(rule, i);
    assert forall x :: x in xs ==> x !in xs * Outputs(Calls(rule.body));
  }
}

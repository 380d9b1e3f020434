/** Running filters before the last joins: a rule cut into slices and a final rule. */
module Pushdown {
  import opened Wrappers
  import opened Datalog
  import opened Rules
  import opened CoreAtoms
  import opened Bodies
  import opened Slices

  /* ------------------------------------------------------------------ */
  /* What one cut does, and why it is right                               */
  /* ------------------------------------------------------------------ */

  /** A filter's function answers 0 or 1, as its Rust type `bool` does. */
  ghost predicate BooleanFilters(functions: Functions, body: seq<Literal>) {
    forall call, row :: Call(Filter(call)) in body && (call.name, row) in functions ==> functions[(call.name, row)] in {0, 1}
  }

  /** A rule, and what cutting it makes of it. */
  datatype Cut = Cut(rule: Rule, slice: Rule, rest: Rule, restBody: seq<Literal>, prefix: set<Var>, kept: seq<Var>)

  /** A cut of a rule: the slice holds what the variables `prefix` bind, with a lenient copy of some filters; the rest
      reads the slice, and keeps every call. */
  ghost predicate IsCut(c: Cut) {
    && c.slice.head == HeadOf(c.kept) && (forall x :: x in c.kept ==> x in c.prefix)
    && c.rest == Rule(c.rule.name, c.rule.head, [Positive(SliceAtom(c.slice.name, c.kept))] + c.restBody)
    && (forall x :: x in c.prefix && x in BodyVariables(c.restBody) + HeadArgVariables(c.rule.head) ==> x in c.kept)
    && (forall l :: l in c.rule.body && !l.Call? ==> l in c.slice.body || l in c.restBody)
    && (forall l :: l in c.slice.body ==> LiteralVariables(l) <= c.prefix && if l.Call? then l.call.Prefilter? && Call(Filter(l.call.call)) in c.rule.body else l in c.rule.body)
    && (forall l :: l in c.restBody ==> l in c.rule.body)
    && Calls(c.restBody) == Calls(c.rule.body)
    && Comparisons(c.restBody, Outputs(Calls(c.rule.body)), true) == ComputedComparisons(c.rule)
    && c.prefix !! Outputs(Calls(c.rule.body))
  }

  lemma {:induction false} CallsOfRest(atom: Atom, restBody: seq<Literal>)
    ensures Calls([Positive(atom)] + restBody) == Calls(restBody)
    ensures forall outputs, computed :: Comparisons([Positive(atom)] + restBody, outputs, computed) == Comparisons(restBody, outputs, computed)
  {
    if restBody != [] {
      CallsOfRest(atom, restBody[..|restBody| - 1]);
      FrontOf(atom, restBody);
    } else {
      assert [Positive(atom)] + restBody == [Positive(atom)];
    }
  }

  lemma FrontOf(atom: Atom, restBody: seq<Literal>)
    requires restBody != []
    ensures var body := [Positive(atom)] + restBody;
      && body[..|body| - 1] == [Positive(atom)] + restBody[..|restBody| - 1]
      && body[|body| - 1] == restBody[|restBody| - 1]
  {
  }

  /** The rest does exactly what the rule does on the same valuation. */
  lemma RestEvaluates(functions: Functions, c: Cut, s: Valuation)
    requires IsCut(c)
    ensures EvaluateSolution(functions, c.rest, s) == EvaluateSolution(functions, c.rule, s)
    ensures Calls(c.rest.body) == Calls(c.rule.body)
  {
    CallsOfRest(SliceAtom(c.slice.name, c.kept), c.restBody);
  }

  /** A run of filters that keeps a valuation ran every one of them to 1. */
  lemma {:induction false} KeptFilters(functions: Functions, calls: seq<CallPredicate>, s: Valuation, call: CallExpr)
    requires RunCalls(functions, calls, s).Kept? && Filter(call) in calls && CallVariables(call) !! Outputs(calls)
    ensures (call.name, Arguments(call.args, s)) in functions && functions[(call.name, Arguments(call.args, s))] == 1
  {
    var n := |calls| - 1;
    var t := RunCalls(functions, calls[..n], s).value;
    assert forall k :: 0 <= k < n ==> calls[..n][k] == calls[k];
    assert Outputs(calls[..n]) <= Outputs(calls);
    if calls[n] == Filter(call) {
      OutsideOutputs(functions, calls[..n], s);
      assert Arguments(call.args, s) == Arguments(call.args, t);
    } else {
      KeptFilters(functions, calls[..n], s, call);
    }
  }

  /** A prefilter drops the row: its function answers 0. */
  ghost predicate Drops(functions: Functions, call: CallExpr, s: Valuation) {
    var key := (call.name, Arguments(call.args, s));
    key in functions && functions[key] == 0
  }

  /** Prefilters keep a valuation unchanged unless one of them drops it; they never fault. */
  lemma {:induction false} PrefiltersRun(functions: Functions, calls: seq<CallPredicate>, s: Valuation)
    requires forall k :: 0 <= k < |calls| ==> calls[k].Prefilter?
    requires forall k, row :: 0 <= k < |calls| && (calls[k].call.name, row) in functions ==>
      functions[(calls[k].call.name, row)] in {0, 1}
    ensures RunCalls(functions, calls, s) ==
      if forall k :: 0 <= k < |calls| ==> !Drops(functions, calls[k].call, s) then Kept(s) else Dropped
  {
    if calls != [] {
      var n := |calls| - 1;
      PrefiltersRun(functions, calls[..n], s);
      assert forall k :: 0 <= k < n ==> calls[..n][k] == calls[k];
    }
  }

  lemma SliceCalls(c: Cut)
    requires IsCut(c)
    ensures Outputs(Calls(c.slice.body)) == {} && ComputedComparisons(c.slice) == []
    ensures forall k :: 0 <= k < |Calls(c.slice.body)| ==>
      Calls(c.slice.body)[k].Prefilter? && Call(Filter(Calls(c.slice.body)[k].call)) in c.rule.body
  {
    forall k | 0 <= k < |Calls(c.slice.body)|
      ensures Calls(c.slice.body)[k].Prefilter? && Call(Filter(Calls(c.slice.body)[k].call)) in c.rule.body
    {
      assert Call(Calls(c.slice.body)[k]) in c.slice.body;
    }
    assert Outputs(Calls(c.slice.body)) == {};
    NoneComputed(c.slice.body, {});
  }

  /** A slice keeps the projection of a solution unless a prefilter drops it; it never faults. */
  lemma SliceEvaluates(functions: Functions, c: Cut, s: Valuation)
    requires IsCut(c) && BooleanFilters(functions, c.rule.body)
    ensures EvaluateSolution(functions, c.slice, s) ==
      if Passes(functions, c.slice, s) then Kept(Image(s, c.kept)) else Dropped
  {
    SliceCalls(c);
    PrefiltersRun(functions, Calls(c.slice.body), s);
    HeadOfRow(c.kept, s);
  }

  /** No prefilter of the slice drops the solution. */
  ghost predicate Passes(functions: Functions, slice: Rule, s: Valuation) {
    forall k :: 0 <= k < |Calls(slice.body)| ==> !Drops(functions, Calls(slice.body)[k].call, s)
  }

  /** Behind a solution of the cut rule stands a solution of the slice that shows the same kept cells. */
  lemma SliceSolution(functions: Functions, c: Cut, db: Database, db': Database, t: Valuation) returns (s: Valuation)
    requires IsCut(c) && BooleanFilters(functions, c.rule.body) && Staged(functions, c.slice, db, db')
    requires BodySolution(RelationalPart(c.rest), db', t)
    ensures BodyHolds(db, {}, c.slice.body, s) && Passes(functions, c.slice, s)
    ensures forall x :: x in c.kept ==> At(s, x) == At(t, x)
  {
    SolutionByLiterals(c.rest, db', t);
    assert LiteralHolds(db', Outputs(Calls(c.rest.body)), c.rest.body[0], t);
    SliceHolds(functions, c.slice, c.kept, db, db', t);
    s :| BodySolution(RelationalPart(c.slice), db, s) && EvaluateSolution(functions, c.slice, s) == Kept(Image(t, c.kept));
    SliceEvaluates(functions, c, s);
    forall x | x in c.kept
      ensures At(s, x) == At(t, x)
    {
      var i :| 0 <= i < |c.kept| && c.kept[i] == x;
      assert Image(s, c.kept)[i] == Image(t, c.kept)[i];
    }
    SliceCalls(c);
    SolutionByLiterals(c.slice, db, s);
  }

  /** The cut rule's solution `t`, completed by the solution of the slice behind it, solves the rule. */
  lemma CutGivesSolution(functions: Functions, c: Cut, db: Database, db': Database, t: Valuation) returns (u: Valuation)
    requires IsCut(c) && BooleanFilters(functions, c.rule.body)
    requires Staged(functions, c.slice, db, db') && Unread(c.slice.name, c.rule.body)
    requires BodySolution(RelationalPart(c.rest), db', t)
    ensures BodySolution(RelationalPart(c.rule), db, u) && Passes(functions, c.slice, u)
    ensures AgreeOn(t, u, BodyVariables(c.restBody) + HeadArgVariables(c.rule.head))
  {
    var s := SliceSolution(functions, c, db, db', t);
    u := Combine(s, t, c.prefix);
    RestEvaluates(functions, c, t);
    SolutionByLiterals(c.rest, db', t);
    forall k | 0 <= k < |c.rule.body|
      ensures LiteralHolds(db, Outputs(Calls(c.rule.body)), c.rule.body[k], u)
    {
      CompletedHolds(functions, c, db, db', s, t, c.rule.body[k]);
    }
    SolutionByLiterals(c.rule, db, u);
    PassesAgrees(functions, c, s, u);
  }

  /** Prefilters read prefix variables only. */
  lemma PassesAgrees(functions: Functions, c: Cut, s: Valuation, u: Valuation)
    requires IsCut(c) && AgreeOn(s, u, c.prefix) && Passes(functions, c.slice, s)
    ensures Passes(functions, c.slice, u)
  {
    forall k | 0 <= k < |Calls(c.slice.body)|
      ensures !Drops(functions, Calls(c.slice.body)[k].call, u)
    {
      assert Call(Calls(c.slice.body)[k]) in c.slice.body;
      DropsAgrees(functions, Calls(c.slice.body)[k].call, s, u);
    }
  }

  lemma DropsAgrees(functions: Functions, call: CallExpr, t: Valuation, u: Valuation)
    requires AgreeOn(t, u, CallVariables(call))
    ensures Drops(functions, call, t) <==> Drops(functions, call, u)
  {
    assert Arguments(call.args, u) == Arguments(call.args, t);
  }

  lemma CompletedHolds(functions: Functions, c: Cut, db: Database, db': Database, s: Valuation, t: Valuation,
                       l: Literal)
    requires IsCut(c)
    requires Staged(functions, c.slice, db, db') && Unread(c.slice.name, c.rule.body)
    requires forall x :: x in c.kept ==> At(s, x) == At(t, x)
    requires BodyHolds(db, {}, c.slice.body, s) && BodyHolds(db', Outputs(Calls(c.rule.body)), c.rest.body, t)
    requires l in c.rule.body
    ensures LiteralHolds(db, Outputs(Calls(c.rule.body)), l, Combine(s, t, c.prefix))
  {
    var outputs, u := Outputs(Calls(c.rule.body)), Combine(s, t, c.prefix);
    if l.Call? {
    } else if l in c.slice.body {
      assert LiteralHolds(db, {}, l, s);
      LiteralAgrees(db, outputs, l, s, u);
    } else {
      RestLiteralHolds(functions, c, db, db', t, l);
      LiteralAgrees(db, outputs, l, t, u);
    }
  }

  /** A literal of the rest holds before staging what it holds after. */
  lemma RestLiteralHolds(functions: Functions, c: Cut, db: Database, db': Database, t: Valuation, l: Literal)
    requires IsCut(c) && Staged(functions, c.slice, db, db') && Unread(c.slice.name, c.rule.body)
    requires BodyHolds(db', Outputs(Calls(c.rule.body)), c.rest.body, t) && l in c.restBody
    ensures LiteralHolds(db, Outputs(Calls(c.rule.body)), l, t) && LiteralVariables(l) <= BodyVariables(c.restBody)
  {
    InBody(db', Outputs(Calls(c.rule.body)), c.rest.body, c.restBody, t, l);
    LiteralElsewhere(functions, c.slice, db, db', Outputs(Calls(c.rule.body)), l, t);
  }

  /** A literal of the back of a body holds with the body, and reads what the back reads. */
  lemma InBody(db: Database, outputs: set<Var>, body: seq<Literal>, back: seq<Literal>, s: Valuation, l: Literal)
    requires body != [] && body[1..] == back && BodyHolds(db, outputs, body, s) && l in back
    ensures LiteralHolds(db, outputs, l, s) && LiteralVariables(l) <= BodyVariables(back)
  {
    var k :| 0 <= k < |back| && back[k] == l;
    assert body[1..][k] == body[k + 1];
  }

  /** A solution of the rule solves the slice, which then shows it if its prefilters keep it. */
  lemma SolutionShown(functions: Functions, c: Cut, db: Database, db': Database, s: Valuation)
    requires IsCut(c) && BooleanFilters(functions, c.rule.body) && Staged(functions, c.slice, db, db')
    requires BodyHolds(db, Outputs(Calls(c.rule.body)), c.rule.body, s) && Passes(functions, c.slice, s)
    ensures AtomHolds(db', SliceAtom(c.slice.name, c.kept), s)
  {
    SliceCalls(c);
    forall l | l in c.slice.body
      ensures LiteralHolds(db, {}, l, s)
    {
      SliceLiteralHolds(c, db, s, l);
    }
    SolutionByLiterals(c.slice, db, s);
    SliceEvaluates(functions, c, s);
    SliceHolds(functions, c.slice, c.kept, db, db', s);
  }

  lemma SliceLiteralHolds(c: Cut, db: Database, s: Valuation, l: Literal)
    requires IsCut(c) && BodyHolds(db, Outputs(Calls(c.rule.body)), c.rule.body, s) && l in c.slice.body
    ensures LiteralHolds(db, {}, l, s)
  {
    if !l.Call? {
      assert LiteralHolds(db, Outputs(Calls(c.rule.body)), l, s);
      assert l.Compare? ==> ComparisonVariables(l.comparison) * Outputs(Calls(c.rule.body)) == {};
    }
  }

  /** A solution of the rule that passes the slice's prefilters solves the cut rule. */
  lemma SolutionGivesCut(functions: Functions, c: Cut, db: Database, db': Database, s: Valuation)
    requires IsCut(c) && BooleanFilters(functions, c.rule.body)
    requires Staged(functions, c.slice, db, db') && Unread(c.slice.name, c.rule.body)
    requires BodySolution(RelationalPart(c.rule), db, s) && Passes(functions, c.slice, s)
    ensures BodySolution(RelationalPart(c.rest), db', s)
  {
    var outputs := Outputs(Calls(c.rule.body));
    SolutionByLiterals(c.rule, db, s);
    SolutionShown(functions, c, db, db', s);
    RestEvaluates(functions, c, s);
    forall k | 0 <= k < |c.rest.body|
      ensures LiteralHolds(db', outputs, c.rest.body[k], s)
    {
      if k > 0 {
        var l := c.restBody[k - 1];
        assert c.rest.body[k] == l && l in c.restBody && LiteralHolds(db, outputs, l, s);
        LiteralElsewhere(functions, c.slice, db, db', outputs, l, s);
      }
    }
    SolutionByLiterals(c.rest, db', s);
  }

  /* ------------------------------------------------------------------ */
  /* The refinement                                                       */
  /* ------------------------------------------------------------------ */

  /** On valuations that agree on what the rest reads, the rule ends alike. */
  lemma CutEvaluates(functions: Functions, c: Cut, t: Valuation, u: Valuation)
    requires IsCut(c) && AgreeOn(t, u, BodyVariables(c.restBody) + HeadArgVariables(c.rule.head))
    ensures EvaluateSolution(functions, c.rest, t) == EvaluateSolution(functions, c.rule, u)
  {
    RestEvaluates(functions, c, t);
    BodyAgrees(functions, c.restBody, Outputs(Calls(c.rule.body)), c.rule.head, t, u);
  }

  /** Whatever the cut rule does, the rule does: it derives no other row, and faults only if the rule does. */
  lemma CutSound(functions: Functions, c: Cut, db: Database, db': Database, outcome: Outcome<Row>)
    requires IsCut(c) && BooleanFilters(functions, c.rule.body)
    requires Staged(functions, c.slice, db, db') && Unread(c.slice.name, c.rule.body)
    requires Yields(functions, c.rest, db', outcome)
    ensures Yields(functions, c.rule, db, outcome)
    ensures outcome.Fault? ==> FaultsPast(functions, c, db)
  {
    var t :| BodySolution(RelationalPart(c.rest), db', t) && EvaluateSolution(functions, c.rest, t) == outcome;
    var u := CutGivesSolution(functions, c, db, db', t);
    CutEvaluates(functions, c, t, u);
  }

  /** Some faulting solution of the rule passes the slice's prefilters. */
  ghost predicate FaultsPast(functions: Functions, c: Cut, db: Database) {
    exists s :: BodySolution(RelationalPart(c.rule), db, s) && EvaluateSolution(functions, c.rule, s).Fault? && Passes(functions, c.slice, s)
  }

  /** A solution the rule keeps passes every prefilter: the filter itself answered 1. */
  lemma KeptPasses(functions: Functions, c: Cut, s: Valuation)
    requires IsCut(c) && EvaluateSolution(functions, c.rule, s).Kept?
    ensures Passes(functions, c.slice, s)
  {
    forall k | 0 <= k < |Calls(c.slice.body)|
      ensures !Drops(functions, Calls(c.slice.body)[k].call, s)
    {
      SliceCalls(c);
      var call := Calls(c.slice.body)[k].call;
      assert Call(Calls(c.slice.body)[k]) in c.slice.body;
      assert CallVariables(call) <= c.prefix;
      KeptFilters(functions, Calls(c.rule.body), s, call);
    }
  }

  /** The cut rule derives exactly the rule's rows, and faults exactly when a faulting solution passes the
      prefilters. */
  lemma CutRefines(functions: Functions, c: Cut, db: Database, db': Database)
    requires IsCut(c) && BooleanFilters(functions, c.rule.body)
    requires Staged(functions, c.slice, db, db') && Unread(c.slice.name, c.rule.body)
    ensures forall row :: Yields(functions, c.rest, db', Kept(row)) <==> Yields(functions, c.rule, db, Kept(row))
    ensures Yields(functions, c.rest, db', Fault) <==> FaultsPast(functions, c, db)
    ensures !Yields(functions, c.slice, db, Fault)
  {
    forall row
      ensures Yields(functions, c.rest, db', Kept(row)) <==> Yields(functions, c.rule, db, Kept(row))
    {
      if Yields(functions, c.rest, db', Kept(row)) {
        CutSound(functions, c, db, db', Kept(row));
      }
      if Yields(functions, c.rule, db, Kept(row)) {
        var s :| BodySolution(RelationalPart(c.rule), db, s) && EvaluateSolution(functions, c.rule, s) == Kept(row);
        KeptPasses(functions, c, s);
        SolutionGivesCut(functions, c, db, db', s);
        RestEvaluates(functions, c, s);
      }
    }
    if Yields(functions, c.rest, db', Fault) {
      CutSound(functions, c, db, db', Fault);
    }
    if FaultsPast(functions, c, db) {
      var s :| BodySolution(RelationalPart(c.rule), db, s) && EvaluateSolution(functions, c.rule, s).Fault? && Passes(functions, c.slice, s);
      SolutionGivesCut(functions, c, db, db', s);
      RestEvaluates(functions, c, s);
    }
    forall s
      ensures EvaluateSolution(functions, c.slice, s) != Fault
    {
      SliceEvaluates(functions, c, s);
    }
  }

  /* ------------------------------------------------------------------ */
  /* Where to cut                                                         */
  /* ------------------------------------------------------------------ */

  function CoreCount(core: seq<bool>, n: nat): nat
    requires n <= |core|
  {
    if n == 0 then 0 else CoreCount(core, n - 1) + if core[n - 1] then 1 else 0
  }

  /** The variables of the core atoms among the first `n` atoms. */
  function PrefixVars(vars: seq<set<Var>>, core: seq<bool>, n: nat): (xs: set<Var>)
    requires n <= |vars| == |core|
    ensures forall i :: 0 <= i < n && core[i] ==> vars[i] <= xs
    ensures forall x :: x in xs ==> exists i :: 0 <= i < n && core[i] && x in vars[i]
  {
    set i, x | 0 <= i < n && core[i] && x in vars[i] :: x
  }

  lemma PrefixStep(vars: seq<set<Var>>, core: seq<bool>, n: nat)
    requires n < |vars| == |core|
    ensures PrefixVars(vars, core, n + 1) == PrefixVars(vars, core, n) + if core[n] then vars[n] else {}
  {
  }

  lemma PrefixMonotone(vars: seq<set<Var>>, core: seq<bool>)
    requires |vars| == |core|
    ensures forall m: nat, n: nat :: m <= n <= |vars| ==> PrefixVars(vars, core, m) <= PrefixVars(vars, core, n)
  {
  }

  /** The first `n` atoms are the shortest prefix whose core atoms bind the arguments; it joins two core atoms or more,
      and leaves one or more to join after it. */
  predicate UsefulAt(vars: seq<set<Var>>, core: seq<bool>, arguments: set<Var>, n: nat)
    requires |vars| == |core|
  {
    && 0 < n <= |vars| && arguments <= PrefixVars(vars, core, n) && !(arguments <= PrefixVars(vars, core, n - 1))
    && CoreCount(core, n) >= 2 && CoreCount(core, |core|) - CoreCount(core, n) >= 1
  }

  /** A prefix is useful exactly when it binds the arguments, no shorter one does, it holds two core atoms, and some
      core atom comes after it. */
  lemma UsefulMeans(vars: seq<set<Var>>, core: seq<bool>, arguments: set<Var>, n: nat)
    requires |vars| == |core| && arguments != {} && n <= |vars|
    ensures UsefulAt(vars, core, arguments, n) <==>
      && arguments <= PrefixVars(vars, core, n) && (forall m: nat :: m < n ==> !(arguments <= PrefixVars(vars, core, m)))
      && (exists i, j :: 0 <= i < j < n && core[i] && core[j]) && (exists i :: n <= i < |core| && core[i])
  {
    PrefixMonotone(vars, core);
    TwoCores(core, n);
    CoresAfter(core, n, |core|);
    assert PrefixVars(vars, core, 0) == {};
  }

  lemma {:induction false} OneCore(core: seq<bool>, n: nat)
    requires n <= |core|
    ensures CoreCount(core, n) >= 1 <==> exists i :: 0 <= i < n && core[i]
  {
    if n > 0 {
      OneCore(core, n - 1);
    }
  }

  lemma {:induction false} TwoCores(core: seq<bool>, n: nat)
    requires n <= |core|
    ensures CoreCount(core, n) >= 2 <==> exists i, j :: 0 <= i < j < n && core[i] && core[j]
  {
    if n > 0 {
      TwoCores(core, n - 1);
      OneCore(core, n - 1);
    }
  }

  lemma {:induction false} CoresAfter(core: seq<bool>, n: nat, m: nat)
    requires n <= m <= |core|
    ensures CoreCount(core, n) <= CoreCount(core, m)
    ensures CoreCount(core, m) > CoreCount(core, n) <==> exists i :: n <= i < m && core[i]
  {
    if n < m {
      CoresAfter(core, n, m - 1);
    }
  }

  lemma ShortestUnique(vars: seq<set<Var>>, core: seq<bool>, arguments: set<Var>, position: nat)
    requires |vars| == |core| && position < |vars|
    requires arguments <= PrefixVars(vars, core, position + 1) && !(arguments <= PrefixVars(vars, core, position))
    ensures forall n: nat :: UsefulAt(vars, core, arguments, n) ==> n == position + 1
  {
    PrefixMonotone(vars, core);
  }

  method NeededLength(vars: seq<set<Var>>, core: seq<bool>, arguments: set<Var>) returns (r: Option<nat>)
    requires |vars| == |core| && arguments != {}
    ensures forall n: nat :: UsefulAt(vars, core, arguments, n) <==> r == Some(n)
  {
    var total := 0;
    for i := 0 to |core|
      invariant total == CoreCount(core, i)
    {
      if core[i] {
        total := total + 1;
      }
    }
    var bound: set<Var>, cores := {}, 0;
    for position := 0 to |vars|
      invariant bound == PrefixVars(vars, core, position) && cores == CoreCount(core, position)
      invariant !(arguments <= bound)
    {
      PrefixStep(vars, core, position);
      if !core[position] {
        continue;
      }
      bound := bound + vars[position];
      cores := cores + 1;
      if arguments <= bound {
        ShortestUnique(vars, core, arguments, position);
        return if cores >= 2 && total - cores >= 1 then Some(position + 1) else None;
      }
    }
    PrefixMonotone(vars, core);
    return None;
  }

  /** A filter that no slice runs yet, and that reads relational variables only, at least one. */
  predicate Eligible(body: seq<Literal>, pushed: set<CallExpr>, call: CallExpr) {
    && Call(Filter(call)) in body && call !in pushed
    && CallVariables(call) != {} && CallVariables(call) <= Relational(Positives(body))
  }

  /** The literal is an eligible filter, and the first `n` atoms are the useful prefix it needs. */
  predicate CutAt(body: seq<Literal>, core: seq<bool>, pushed: set<CallExpr>, l: Literal, n: nat)
    requires |core| == |Positives(body)|
  {
    l.Call? && l.call.Filter? && Eligible(body, pushed, l.call.call) && UsefulAt(VariableSets(Positives(body)), core, CallVariables(l.call.call), n)
  }

  /** The prefix one literal needs, if it is an eligible filter and that cut is useful. */
  method LengthFor(body: seq<Literal>, core: seq<bool>, pushed: set<CallExpr>, l: Literal) returns (r: Option<nat>)
    requires |core| == |Positives(body)| && l in body
    ensures r.Some? ==> CutAt(body, core, pushed, l, r.value)
    ensures forall n: nat :: CutAt(body, core, pushed, l, n) ==> r.Some? && n == r.value
  {
    if !(l.Call? && l.call.Filter?) {
      return None;
    }
    var arguments := CallVariables(l.call.call);
    if arguments == {} || !(arguments <= Relational(Positives(body))) || l.call.call in pushed {
      return None;
    }
    assert Call(Filter(l.call.call)) == l;
    r := NeededLength(VariableSets(Positives(body)), core, arguments);
  }

  /** The least of the lengths the first `k` literals need, and a literal that needs it. */
  ghost predicate Least(needs: (nat, nat) -> bool, k: nat, best: Option<nat>, at: nat) {
    && (best.Some? ==> at < k && needs(at, best.value))
    && forall i: nat, n: nat :: i < k && needs(i, n) ==> best.Some? && best.value <= n
  }

  lemma LeastStep(needs: (nat, nat) -> bool, k: nat, best: Option<nat>, at: nat, needed: Option<nat>)
    requires Least(needs, k, best, at) && (needed.Some? ==> needs(k, needed.value))
    requires forall n: nat :: needs(k, n) ==> needed.Some? && n == needed.value
    ensures if needed.Some? && (best.None? || needed.value < best.value) then Least(needs, k + 1, needed, k) else Least(needs, k + 1, best, at)
  {
    forall i: nat, n: nat | i < k + 1 && needs(i, n)
      ensures i < k || (needed.Some? && n == needed.value)
    {
    }
  }

  /** The shortest useful prefix any filter needs. */
  method FindBest(body: seq<Literal>, core: seq<bool>, pushed: set<CallExpr>, ghost needs: (nat, nat) -> bool)
    returns (best: Option<nat>, ghost at: nat)
    requires |core| == |Positives(body)|
    requires forall i: nat, n: nat :: i < |body| ==> (needs(i, n) <==> CutAt(body, core, pushed, body[i], n))
    ensures Least(needs, |body|, best, at)
  {
    best := None;
    at := 0;
    for k := 0 to |body|
      invariant Least(needs, k, best, at)
    {
      var needed := LengthFor(body, core, pushed, body[k]);
      assert needed.Some? ==> needs(k, needed.value);
      assert forall n: nat :: needs(k, n) ==> needed.Some? && n == needed.value;
      LeastStep(needs, k, best, at, needed);
      if needed.Some? && (best.None? || needed.value < best.value) {
        best := needed;
        at := k;
      }
    }
  }

  /* ------------------------------------------------------------------ */
  /* Cutting                                                              */
  /* ------------------------------------------------------------------ */

  /** The expression divides somewhere, so some values of its variables make it fault. */
  predicate CanFault(a: Arithmetic<Var>) {
    exists i :: 0 <= i < |a.rest| && a.rest[i].operator in {Divide, Modulo}
  }

  lemma {:induction false} TermsNeverFault(result: Val, rest: seq<Term<Var>>, env: Var -> Val)
    requires forall i :: 0 <= i < |rest| ==> rest[i].operator !in {Divide, Modulo}
    ensures EvaluateTerms(result, rest, env).Some?
    decreases |rest|
  {
    if rest != [] {
      TermsNeverFault(Apply(rest[0].operator, result, FactorValue(rest[0].factor, env)).value, rest[1..], env);
    }
  }

  /** A comparison a slice takes over never faults, on any row. */
  lemma SafeComparison(c: Comparison<Var>, s: Valuation)
    requires !CanFault(c.left) && !CanFault(c.right)
    ensures !RunComparison(c, s).Fault?
  {
    TermsNeverFault(FactorValue(c.left.init, Env(s)), c.left.rest, Env(s));
    TermsNeverFault(FactorValue(c.right.init, Env(s)), c.right.rest, Env(s));
  }

  /** What a slice may hold: a literal of the body the prefix binds, without faults, or a filter's lenient copy. */
  ghost predicate SliceLiteral(body: seq<Literal>, prefix: set<Var>, l: Literal) {
    && LiteralVariables(l) <= prefix
    && match l
       case Positive(_) => l in body
       case Negative(_) => l in body
       case Compare(c) => l in body && !CanFault(c.left) && !CanFault(c.right)
       case Call(call) => call.Prefilter? && Call(Filter(call.call)) in body
  }

  /** A body the first literals of which are dealt out to the slice and to the rest. */
  ghost predicate Dealt(body: seq<Literal>, done: seq<Literal>, prefix: set<Var>, sliceBody: seq<Literal>,
                        restBody: seq<Literal>)
  {
    && (forall k :: 0 <= k < |done| && !done[k].Call? ==> done[k] in sliceBody || done[k] in restBody)
    && (forall k :: 0 <= k < |sliceBody| ==> SliceLiteral(body, prefix, sliceBody[k]))
    && (forall k :: 0 <= k < |restBody| ==> restBody[k] in done)
    && Calls(restBody) == Calls(done)
    && Comparisons(restBody, Outputs(Calls(body)), true) == Comparisons(done, Outputs(Calls(body)), true)
  }

  lemma DealtRest(body: seq<Literal>, done: seq<Literal>, prefix: set<Var>, sliceBody: seq<Literal>,
                  restBody: seq<Literal>, l: Literal)
    requires Dealt(body, done, prefix, sliceBody, restBody)
    ensures Dealt(body, done + [l], prefix, sliceBody, restBody + [l])
  {
    assert (done + [l])[..|done|] == done && (restBody + [l])[..|restBody|] == restBody;
  }

  lemma DealtSlice(body: seq<Literal>, done: seq<Literal>, prefix: set<Var>, sliceBody: seq<Literal>,
                   restBody: seq<Literal>, l: Literal)
    requires Dealt(body, done, prefix, sliceBody, restBody) && SliceLiteral(body, prefix, l)
    requires prefix !! Outputs(Calls(body))
    ensures l.Call? ==> Dealt(body, done, prefix, sliceBody + [l], restBody)
    ensures !l.Call? ==> Dealt(body, done + [l], prefix, sliceBody + [l], restBody)
  {
    assert (done + [l])[..|done|] == done;
    assert l.Compare? ==> ComparisonVariables(l.comparison) * Outputs(Calls(body)) == {};
  }

  lemma {:induction false} PositivesPrefix(body: seq<Literal>, k: nat)
    requires k <= |body|
    ensures Positives(body[..k]) <= Positives(body)
  {
    if k < |body| {
      PositivesPrefix(body[..|body| - 1], k);
      assert body[..|body| - 1][..k] == body[..k];
    } else {
      assert body[..k] == body;
    }
  }

  /** A core atom of the prefix is in the slice, another core atom in the rest, and a subsumed atom the prefix binds in
      the slice. */
  ghost predicate AtomDealt(atoms: seq<Atom>, core: seq<bool>, n: nat, prefix: set<Var>, i: nat,
                            sliceBody: seq<Literal>, restBody: seq<Literal>)
    requires i < |atoms| == |core|
  {
    if core[i] then
      Positive(atoms[i]) in if i < n then sliceBody else restBody
    else
      Variables(atoms[i]) <= prefix ==> Positive(atoms[i]) in sliceBody
  }

  ghost predicate AtomsDealt(atoms: seq<Atom>, core: seq<bool>, n: nat, prefix: set<Var>, upTo: nat,
                             sliceBody: seq<Literal>, restBody: seq<Literal>)
    requires upTo <= |atoms| == |core|
  {
    forall i :: 0 <= i < upTo ==> AtomDealt(atoms, core, n, prefix, i, sliceBody, restBody)
  }

  /** Filters the prefix binds are run early, each text once. */
  ghost predicate FiltersPushed(done: seq<Literal>, prefix: set<Var>, sliceBody: seq<Literal>, pushed: set<CallExpr>,
                                pushed': set<CallExpr>)
  {
    && pushed <= pushed'
    && (forall k :: 0 <= k < |done| && done[k].Call? && done[k].call.Filter? && CallVariables(done[k].call.call) != {} && CallVariables(done[k].call.call) <= prefix
          ==> done[k].call.call in pushed')
    && (forall call :: call in pushed' && call !in pushed ==> Call(Prefilter(call)) in sliceBody && Call(Filter(call)) in done)
  }

  /** Where a literal other than a filter's copy goes: what the prefix alone binds, without faults, is moved. */
  predicate Moves(body: seq<Literal>, core: seq<bool>, n: nat, prefix: set<Var>, l: Literal, position: nat)
    requires l.Positive? ==> position < |core|
  {
    match l
    case Positive(atom) => (core[position] && position < n) || (!core[position] && Variables(atom) <= prefix)
    case Negative(atom) => Variables(atom) <= prefix
    case Compare(c) => ComparisonVariables(c) <= prefix && !CanFault(c.left) && !CanFault(c.right)
    case Call(_) => false
  }

  /** Negations and comparisons: what a cut gives either to the slice or to the rest. */
  predicate Tested(l: Literal) {
    l.Negative? || l.Compare?
  }

  /** The prefix alone binds the negation or comparison, and it cannot fault. */
  predicate MovesAlone(prefix: set<Var>, l: Literal) {
    match l
    case Negative(atom) => Variables(atom) <= prefix
    case Compare(c) => ComparisonVariables(c) <= prefix && !CanFault(c.left) && !CanFault(c.right)
    case _ => false
  }

  /** What could move did not stay. */
  ghost predicate Stayed(prefix: set<Var>, restBody: seq<Literal>) {
    forall l :: l in restBody && Tested(l) ==> !MovesAlone(prefix, l)
  }

  predicate Copies(prefix: set<Var>, pushed: set<CallExpr>, l: Literal) {
    l.Call? && l.call.Filter? && CallVariables(l.call.call) != {} && CallVariables(l.call.call) <= prefix && l.call.call !in pushed
  }

  /** The state after dealing the first `k` literals. */
  ghost predicate DealtTo(body: seq<Literal>, core: seq<bool>, n: nat, prefix: set<Var>, k: nat,
                          sliceBody: seq<Literal>, restBody: seq<Literal>,
                          pushed: set<CallExpr>, pushed': set<CallExpr>)
    requires |core| == |Positives(body)| && k <= |body|
  {
    && |Positives(body[..k])| <= |core| && Dealt(body, body[..k], prefix, sliceBody, restBody)
    && AtomsDealt(Positives(body), core, n, prefix, |Positives(body[..k])|, sliceBody, restBody)
    && FiltersPushed(body[..k], prefix, sliceBody, pushed, pushed') && Stayed(prefix, restBody)
  }

  lemma AtomAt(body: seq<Literal>, core: seq<bool>, n: nat, k: nat)
    requires |core| == |Positives(body)| && n <= |core| && k < |body|
    ensures |Positives(body[..k + 1])| == |Positives(body[..k])| + if body[k].Positive? then 1 else 0
    ensures body[k].Positive? ==> |Positives(body[..k])| < |core| && Positives(body)[|Positives(body[..k])|] == body[k].atom
  {
    assert body[..k + 1][..k] == body[..k] && body[..k + 1][k] == body[k];
    PositivesPrefix(body, k + 1);
  }

  lemma AtomsStep(atoms: seq<Atom>, core: seq<bool>, n: nat, prefix: set<Var>, done: nat, next: nat,
                  sliceBody: seq<Literal>, restBody: seq<Literal>, sliceBody': seq<Literal>, restBody': seq<Literal>)
    requires done <= next <= |atoms| == |core| && next <= done + 1
    requires AtomsDealt(atoms, core, n, prefix, done, sliceBody, restBody)
    requires (forall l :: l in sliceBody ==> l in sliceBody') && forall l :: l in restBody ==> l in restBody'
    requires done < next ==> AtomDealt(atoms, core, n, prefix, done, sliceBody', restBody')
    ensures AtomsDealt(atoms, core, n, prefix, next, sliceBody', restBody')
  {
    forall i | 0 <= i < next
      ensures AtomDealt(atoms, core, n, prefix, i, sliceBody', restBody')
    {
      if i < done {
        assert AtomDealt(atoms, core, n, prefix, i, sliceBody, restBody);
      }
    }
  }

  /** Deals the body out: what the prefix alone binds goes to the slice, filters as lenient copies, the rest stays. */
  method DealBody(body: seq<Literal>, core: seq<bool>, n: nat, prefix: set<Var>, pushed: set<CallExpr>)
    returns (sliceBody: seq<Literal>, restBody: seq<Literal>, pushed': set<CallExpr>)
    requires |core| == |Positives(body)| && n <= |core|
    requires prefix == PrefixVars(VariableSets(Positives(body)), core, n) && prefix !! Outputs(Calls(body))
    ensures Dealt(body, body, prefix, sliceBody, restBody)
    ensures AtomsDealt(Positives(body), core, n, prefix, |core|, sliceBody, restBody)
    ensures FiltersPushed(body, prefix, sliceBody, pushed, pushed') && Stayed(prefix, restBody)
  {
    sliceBody, restBody, pushed' := [], [], pushed;
    var position := 0;
    for k := 0 to |body|
      invariant position == |Positives(body[..k])|
      invariant DealtTo(body, core, n, prefix, k, sliceBody, restBody, pushed, pushed')
    {
      AtomAt(body, core, n, k);
      sliceBody, restBody, pushed' := DealLiteral(body, core, n, prefix, k, position, sliceBody, restBody, pushed, pushed');
      if body[k].Positive? {
        position := position + 1;
      }
    }
    assert body[..|body|] == body;
  }

  /** The lenient copy of a filter, if it is to be run early. */
  function CopyOf(prefix: set<Var>, pushed: set<CallExpr>, l: Literal): seq<Literal> {
    if Copies(prefix, pushed, l) then [Call(Prefilter(l.call.call))] else []
  }

  method DealLiteral(body: seq<Literal>, core: seq<bool>, n: nat, prefix: set<Var>, k: nat, position: nat,
                     sliceBody: seq<Literal>, restBody: seq<Literal>,
                     ghost pushed0: set<CallExpr>, pushed: set<CallExpr>)
    returns (sliceBody': seq<Literal>, restBody': seq<Literal>, pushed': set<CallExpr>)
    requires |core| == |Positives(body)| && n <= |core| && k < |body| && position == |Positives(body[..k])|
    requires prefix == PrefixVars(VariableSets(Positives(body)), core, n) && prefix !! Outputs(Calls(body))
    requires DealtTo(body, core, n, prefix, k, sliceBody, restBody, pushed0, pushed)
    ensures DealtTo(body, core, n, prefix, k + 1, sliceBody', restBody', pushed0, pushed')
  {
    var l := body[k];
    AtomAt(body, core, n, k);
    sliceBody', restBody' := sliceBody + CopyOf(prefix, pushed, l), restBody;
    pushed' := if Copies(prefix, pushed, l) then pushed + {l.call.call} else pushed;
    if Moves(body, core, n, prefix, l, position) {
      sliceBody' := sliceBody' + [l];
    } else {
      restBody' := restBody + [l];
    }
    LiteralDealt(body, core, n, prefix, k, position, sliceBody, restBody, pushed0, pushed, sliceBody', restBody',
                 pushed');
  }

  lemma LiteralDealt(body: seq<Literal>, core: seq<bool>, n: nat, prefix: set<Var>, k: nat, position: nat,
                     sliceBody: seq<Literal>, restBody: seq<Literal>, pushed0: set<CallExpr>, pushed: set<CallExpr>,
                     sliceBody': seq<Literal>, restBody': seq<Literal>, pushed': set<CallExpr>)
    requires |core| == |Positives(body)| && n <= |core| && k < |body| && position == |Positives(body[..k])|
    requires prefix == PrefixVars(VariableSets(Positives(body)), core, n) && prefix !! Outputs(Calls(body))
    requires DealtTo(body, core, n, prefix, k, sliceBody, restBody, pushed0, pushed)
    requires body[k].Positive? ==> position < |core|
    requires DealsOut(body, core, n, prefix, body[k], position, sliceBody, restBody, pushed, sliceBody', restBody', pushed')
    ensures DealtTo(body, core, n, prefix, k + 1, sliceBody', restBody', pushed0, pushed')
  {
    var l := body[k];
    OneMore(body, k);
    AtomAt(body, core, n, k);
    DealtNext(body, core, n, prefix, body[..k], l, position, sliceBody, restBody, pushed, sliceBody', restBody',
              pushed');
    PushedStep(body[..k], l, prefix, sliceBody, sliceBody', pushed0, pushed, pushed');
    AtomsNext(body, core, n, prefix, l, position, |Positives(body[..k + 1])|, sliceBody, restBody, pushed, sliceBody',
              restBody', pushed');
    StayedNext(body, core, n, prefix, l, position, sliceBody, restBody, pushed, sliceBody', restBody', pushed');
  }

  lemma OneMore(body: seq<Literal>, k: nat)
    requires k < |body|
    ensures body[..k + 1] == body[..k] + [body[k]]
  {
  }

  /** One literal is dealt out. */
  ghost predicate DealsOut(body: seq<Literal>, core: seq<bool>, n: nat, prefix: set<Var>, l: Literal, position: nat,
                           sliceBody: seq<Literal>, restBody: seq<Literal>, pushed: set<CallExpr>,
                           sliceBody': seq<Literal>, restBody': seq<Literal>, pushed': set<CallExpr>)
    requires l.Positive? ==> position < |core|
  {
    var moved := Moves(body, core, n, prefix, l, position);
    && sliceBody' == (if moved then sliceBody + CopyOf(prefix, pushed, l) + [l] else sliceBody + CopyOf(prefix, pushed, l))
    && restBody' == (if moved then restBody else restBody + [l])
    && pushed' == if Copies(prefix, pushed, l) then pushed + {l.call.call} else pushed
  }

  lemma DealtNext(body: seq<Literal>, core: seq<bool>, n: nat, prefix: set<Var>, done: seq<Literal>, l: Literal,
                  position: nat, sliceBody: seq<Literal>, restBody: seq<Literal>, pushed: set<CallExpr>,
                  sliceBody': seq<Literal>, restBody': seq<Literal>, pushed': set<CallExpr>)
    requires |core| == |Positives(body)| && n <= |core| && (l.Positive? ==> position < |core|) && l in body
    requires l.Positive? ==> Positives(body)[position] == l.atom
    requires prefix == PrefixVars(VariableSets(Positives(body)), core, n) && prefix !! Outputs(Calls(body))
    requires Dealt(body, done, prefix, sliceBody, restBody)
    requires DealsOut(body, core, n, prefix, l, position, sliceBody, restBody, pushed, sliceBody', restBody', pushed')
    ensures Dealt(body, done + [l], prefix, sliceBody', restBody')
  {
    if Copies(prefix, pushed, l) {
      DealtSlice(body, done, prefix, sliceBody, restBody, CopyOf(prefix, pushed, l)[0]);
    } else {
      assert sliceBody + CopyOf(prefix, pushed, l) == sliceBody;
    }
    var copied := sliceBody + CopyOf(prefix, pushed, l);
    if Moves(body, core, n, prefix, l, position) {
      DealtSlice(body, done, prefix, copied, restBody, l);
    } else {
      DealtRest(body, done, prefix, copied, restBody, l);
    }
  }

  lemma AtomsNext(body: seq<Literal>, core: seq<bool>, n: nat, prefix: set<Var>, l: Literal, position: nat, next: nat,
                  sliceBody: seq<Literal>, restBody: seq<Literal>, pushed: set<CallExpr>,
                  sliceBody': seq<Literal>, restBody': seq<Literal>, pushed': set<CallExpr>)
    requires position <= |core| == |Positives(body)| && next == (if l.Positive? then position + 1 else position)
    requires l.Positive? ==> position < |core| && Positives(body)[position] == l.atom
    requires DealsOut(body, core, n, prefix, l, position, sliceBody, restBody, pushed, sliceBody', restBody', pushed')
    requires AtomsDealt(Positives(body), core, n, prefix, position, sliceBody, restBody)
    ensures AtomsDealt(Positives(body), core, n, prefix, next, sliceBody', restBody')
  {
    AtomDealtNext(body, core, n, prefix, l, position, sliceBody, restBody, pushed, sliceBody', restBody', pushed');
    AtomsStep(Positives(body), core, n, prefix, position, next, sliceBody, restBody, sliceBody', restBody');
  }

  lemma AtomDealtNext(body: seq<Literal>, core: seq<bool>, n: nat, prefix: set<Var>, l: Literal, position: nat,
                      sliceBody: seq<Literal>, restBody: seq<Literal>, pushed: set<CallExpr>,
                      sliceBody': seq<Literal>, restBody': seq<Literal>, pushed': set<CallExpr>)
    requires |core| == |Positives(body)| && (l.Positive? ==> position < |core| && Positives(body)[position] == l.atom)
    requires DealsOut(body, core, n, prefix, l, position, sliceBody, restBody, pushed, sliceBody', restBody', pushed')
    ensures (forall m :: m in sliceBody ==> m in sliceBody') && forall m :: m in restBody ==> m in restBody'
    ensures l.Positive? ==> AtomDealt(Positives(body), core, n, prefix, position, sliceBody', restBody')
  {
  }

  lemma StayedNext(body: seq<Literal>, core: seq<bool>, n: nat, prefix: set<Var>, l: Literal, position: nat,
                   sliceBody: seq<Literal>, restBody: seq<Literal>, pushed: set<CallExpr>,
                   sliceBody': seq<Literal>, restBody': seq<Literal>, pushed': set<CallExpr>)
    requires (l.Positive? ==> position < |core|) && Stayed(prefix, restBody)
    requires DealsOut(body, core, n, prefix, l, position, sliceBody, restBody, pushed, sliceBody', restBody', pushed')
    ensures Stayed(prefix, restBody')
  {
  }

  lemma PushedStep(done: seq<Literal>, l: Literal, prefix: set<Var>, sliceBody: seq<Literal>, sliceBody': seq<Literal>,
                   pushed0: set<CallExpr>, pushed: set<CallExpr>, pushed': set<CallExpr>)
    requires FiltersPushed(done, prefix, sliceBody, pushed0, pushed)
    requires forall m :: m in sliceBody + CopyOf(prefix, pushed, l) ==> m in sliceBody'
    requires pushed' == if Copies(prefix, pushed, l) then pushed + {l.call.call} else pushed
    ensures FiltersPushed(done + [l], prefix, sliceBody', pushed0, pushed')
  {
    forall call | call in pushed' && call !in pushed0
      ensures Call(Prefilter(call)) in sliceBody' && Call(Filter(call)) in done + [l]
    {
      if call in pushed {
        assert Call(Prefilter(call)) in sliceBody && Call(Filter(call)) in done;
      } else {
        assert CopyOf(prefix, pushed, l)[0] == Call(Prefilter(call));
      }
    }
  }

  /** The prefix variables something outside the slice reads, each once, by first occurrence. */
  method KeptVariables(atoms: seq<Atom>, core: seq<bool>, n: nat, needed: set<Var>) returns (kept: seq<Var>)
    requires n <= |atoms| == |core|
    ensures forall x :: x in kept <==> x in PrefixVars(VariableSets(atoms), core, n) && x in needed
    ensures forall i, j :: 0 <= i < j < |kept| ==> kept[i] != kept[j]
  {
    kept := [];
    for position := 0 to n
      invariant forall x :: x in kept <==> x in PrefixVars(VariableSets(atoms), core, position) && x in needed
      invariant forall i, j :: 0 <= i < j < |kept| ==> kept[i] != kept[j]
    {
      PrefixStep(VariableSets(atoms), core, position);
      if !core[position] {
        continue;
      }
      ghost var before := kept;
      var args := atoms[position].args;
      for k := 0 to |args|
        invariant forall x :: x in kept <==> x in before || (Variable(x) in args[..k] && x in needed)
        invariant forall i, j :: 0 <= i < j < |kept| ==> kept[i] != kept[j]
      {
        assert args[..k + 1] == args[..k] + [args[k]];
        if args[k].Variable? && args[k].name in needed && args[k].name !in kept {
          kept := kept + [args[k].name];
        }
      }
      assert args[..|args|] == args;
    }
  }

  /* ------------------------------------------------------------------ */
  /* One cut                                                              */
  /* ------------------------------------------------------------------ */

  function CoreOf(body: seq<Literal>): (core: seq<bool>)
    ensures |core| == |Positives(body)|
  {
    seq(|Positives(body)|, i requires 0 <= i < |Positives(body)| => IsCore(VariableSets(Positives(body)), i))
  }

  function Filters(calls: seq<CallPredicate>): set<CallExpr> {
    set k | 0 <= k < |calls| && calls[k].Filter? :: calls[k].call
  }

  /** What the rule reads outside the slice. */
  function NeededVariables(rule: Rule, restBody: seq<Literal>): set<Var> {
    HeadArgVariables(rule.head) + BodyVariables(restBody)
  }

  lemma PrefixRelational(rule: Rule, core: seq<bool>, n: nat)
    requires WellShaped(rule) && n <= |Positives(rule.body)| == |core|
    ensures PrefixVars(VariableSets(Positives(rule.body)), core, n) <= Relational(Positives(rule.body))
    ensures PrefixVars(VariableSets(Positives(rule.body)), core, n) !! Outputs(Calls(rule.body))
  {
    RelationalUnbound(rule);
  }

  /** A filter stays in the rest, so what it reads of the prefix is kept. */
  lemma FilterStays(body: seq<Literal>, restBody: seq<Literal>, l: Literal)
    requires Calls(restBody) == Calls(body) && l in body && l.Call?
    ensures l in restBody && LiteralVariables(l) <= BodyVariables(restBody)
  {
    var k :| 0 <= k < |Calls(restBody)| && Calls(restBody)[k] == l.call;
    assert Call(Calls(restBody)[k]) in restBody;
  }

  lemma DealtIsCut(c: Cut)
    requires Dealt(c.rule.body, c.rule.body, c.prefix, c.slice.body, c.restBody)
    requires c.prefix !! Outputs(Calls(c.rule.body))
    requires c.slice.head == HeadOf(c.kept)
    requires forall x :: x in c.kept <==> x in c.prefix && x in NeededVariables(c.rule, c.restBody)
    requires c.rest == Rule(c.rule.name, c.rule.head, [Positive(SliceAtom(c.slice.name, c.kept))] + c.restBody)
    ensures IsCut(c)
  {
  }

  /** Some filter that no slice ran is run by one now. */
  ghost predicate Retires(rule: Rule, pushed: set<CallExpr>, pushed': set<CallExpr>) {
    pushed <= pushed' && exists call :: call in Filters(Calls(rule.body)) && call in pushed' && call !in pushed
  }

  ghost predicate NoCut(body: seq<Literal>, pushed: set<CallExpr>) {
    forall k: nat, n: nat :: k < |body| ==> !CutAt(body, CoreOf(body), pushed, body[k], n)
  }

  /** The slice's atoms bind exactly the prefix variables. */
  ghost predicate CoversPrefix(c: Cut) {
    c.prefix == Relational(Positives(c.slice.body))
  }

  lemma CoreCovers(body: seq<Literal>, core: seq<bool>, n: nat, prefix: set<Var>, sliceBody: seq<Literal>,
                   restBody: seq<Literal>, x: Var)
    requires n <= |core| == |Positives(body)| && x in PrefixVars(VariableSets(Positives(body)), core, n)
    requires AtomsDealt(Positives(body), core, n, prefix, |core|, sliceBody, restBody)
    ensures x in Relational(Positives(sliceBody))
  {
    var i :| 0 <= i < n && core[i] && x in Variables(Positives(body)[i]);
    assert AtomDealt(Positives(body), core, n, prefix, i, sliceBody, restBody);
    assert Positives(body)[i] in Positives(sliceBody);
  }

  lemma CoresCover(body: seq<Literal>, core: seq<bool>, n: nat, prefix: set<Var>, sliceBody: seq<Literal>,
                   restBody: seq<Literal>)
    requires n <= |core| == |Positives(body)| && prefix == PrefixVars(VariableSets(Positives(body)), core, n)
    requires Dealt(body, body, prefix, sliceBody, restBody)
    requires AtomsDealt(Positives(body), core, n, prefix, |core|, sliceBody, restBody)
    ensures prefix == Relational(Positives(sliceBody))
  {
    forall x | x in prefix
      ensures x in Relational(Positives(sliceBody))
    {
      CoreCovers(body, core, n, prefix, sliceBody, restBody, x);
    }
    forall x | x in Relational(Positives(sliceBody))
      ensures x in prefix
    {
      var i :| 0 <= i < |Positives(sliceBody)| && x in Variables(Positives(sliceBody)[i]);
      var k :| 0 <= k < |sliceBody| && sliceBody[k] == Positive(Positives(sliceBody)[i]);
      assert SliceLiteral(body, prefix, sliceBody[k]);
    }
  }

  lemma RetiresFilter(rule: Rule, l: Literal, prefix: set<Var>, sliceBody: seq<Literal>, pushed: set<CallExpr>,
                      pushed': set<CallExpr>)
    requires FiltersPushed(rule.body, prefix, sliceBody, pushed, pushed') && l in rule.body && l.Call? && l.call.Filter?
    requires l.call.call !in pushed && CallVariables(l.call.call) != {} && CallVariables(l.call.call) <= prefix
    ensures Retires(rule, pushed, pushed')
  {
    assert l.call in Calls(rule.body);
    assert l.call.call in Filters(Calls(rule.body));
  }

  /** Every negation and comparison is in the slice if the prefix alone binds it without faults, and otherwise in the
      rest. */
  ghost predicate DealsTests(c: Cut) {
    && (forall l :: Tested(l) ==> (l in c.slice.body <==> l in c.rule.body && MovesAlone(c.prefix, l)))
    && (forall l :: Tested(l) ==> (l in c.rest.body <==> l in c.rule.body && !MovesAlone(c.prefix, l)))
  }

  lemma TestsDealt(c: Cut)
    requires Dealt(c.rule.body, c.rule.body, c.prefix, c.slice.body, c.restBody) && Stayed(c.prefix, c.restBody)
    requires c.rest.body == [Positive(SliceAtom(c.slice.name, c.kept))] + c.restBody
    ensures DealsTests(c)
  {
    forall l | l in c.slice.body && Tested(l)
      ensures l in c.rule.body && MovesAlone(c.prefix, l)
    {
      assert SliceLiteral(c.rule.body, c.prefix, l);
    }
    forall l | l in c.rule.body && Tested(l)
      ensures l in c.slice.body || l in c.restBody
    {
      var k :| 0 <= k < |c.rule.body| && c.rule.body[k] == l;
    }
    assert forall l :: Tested(l) ==> (l in c.rest.body <==> l in c.restBody);
  }

  /** The cut is after the first `n` atoms: the core ones among them are in the slice with every subsumed atom they
      bind, the other core atoms in the rest. */
  ghost predicate DealsAtoms(c: Cut, n: nat) {
    var atoms, core := Positives(c.rule.body), CoreOf(c.rule.body);
    n <= |atoms| && c.prefix == PrefixVars(VariableSets(atoms), core, n) && AtomsDealt(atoms, core, n, c.prefix, |atoms|, c.slice.body, c.restBody)
  }

  /** Some pending filter needs the first `n` atoms, and none can do with fewer. */
  ghost predicate FewestNeeded(body: seq<Literal>, pushed: set<CallExpr>, n: nat) {
    && (exists k :: 0 <= k < |body| && CutAt(body, CoreOf(body), pushed, body[k], n))
    && forall k, m: nat :: 0 <= k < |body| && CutAt(body, CoreOf(body), pushed, body[k], m) ==> n <= m
  }

  /** What a cut made at a filter's prefix promises. */
  ghost predicate CutMade(c: Cut, rule: Rule, name: string, pushed: set<CallExpr>, pushed': set<CallExpr>) {
    && IsCut(c) && c.rule == rule && c.slice.name == name && CoversPrefix(c)
    && Retires(rule, pushed, pushed') && FiltersPushed(rule.body, c.prefix, c.slice.body, pushed, pushed')
    && c.kept != []
    && DealsTests(c)
  }

  /** Cuts a rule after its first `n` atoms, the prefix a filter needs. */
  method CutAfter(rule: Rule, name: string, core: seq<bool>, n: nat, pushed: set<CallExpr>, ghost filter: Literal)
    returns (slice: Rule, rest: Rule, pushed': set<CallExpr>, ghost c: Cut)
    requires WellShaped(rule) && |core| == |Positives(rule.body)|
    requires core == CoreOf(rule.body) && CutAt(rule.body, core, pushed, filter, n)
    ensures CutMade(c, rule, name, pushed, pushed') && slice == c.slice && rest == c.rest && DealsAtoms(c, n)
  {
    var atoms := Positives(rule.body);
    var prefix := PrefixVars(VariableSets(atoms), core, n);
    PrefixRelational(rule, core, n);
    var sliceBody, restBody;
    sliceBody, restBody, pushed' := DealBody(rule.body, core, n, prefix, pushed);
    var kept := KeptVariables(atoms, core, n, NeededVariables(rule, restBody));
    FilterStays(rule.body, restBody, filter);
    // the filter stays in the rest and reads prefix variables, so the early return for an empty head is never taken
    assert kept != [];
    slice := Rule(name, HeadOf(kept), sliceBody);
    rest := Rule(rule.name, rule.head, [Positive(SliceAtom(name, kept))] + restBody);
    c := Cut(rule, slice, rest, restBody, prefix, kept);
    DealtIsCut(c);
    TestsDealt(c);
    CoresCover(rule.body, core, n, prefix, sliceBody, restBody);
    RetiresFilter(rule, filter, prefix, sliceBody, pushed, pushed');
  }

  /** Splits the rule after the least number of atoms any pending filter can do with. There is a cut exactly when some
      filter no slice runs yet needs a useful prefix; every cut runs such a filter early. */
  method CutOnce(rule: Rule, name: string, pushed: set<CallExpr>)
    returns (r: Option<(Rule, Rule)>, pushed': set<CallExpr>, ghost c: Cut)
    requires WellShaped(rule)
    ensures r.None? <==> NoCut(rule.body, pushed)
    ensures r.Some? ==> CutMade(c, rule, name, pushed, pushed') && r.value == (c.slice, c.rest)
    ensures r.Some? ==> exists n: nat :: FewestNeeded(rule.body, pushed, n) && DealsAtoms(c, n)
  {
    var core := PopulateIsCoreAtomBitmap(VariableSets(Positives(rule.body)));
    assert core == CoreOf(rule.body);
    ghost var needs := (k: nat, n: nat) => k < |rule.body| && CutAt(rule.body, core, pushed, rule.body[k], n);
    var best, at := FindBest(rule.body, core, pushed, needs);
    if best.None? {
      assert forall k: nat, n: nat :: k < |rule.body| ==> !needs(k, n);
      return None, pushed, Cut(rule, rule, rule, [], {}, []);
    }
    assert needs(at, best.value);
    var slice, rest;
    slice, rest, pushed', c := CutAfter(rule, name, core, best.value, pushed, rule.body[at]);
    assert FewestNeeded(rule.body, pushed, best.value) by {
      assert forall k: nat, m: nat :: k < |rule.body| && CutAt(rule.body, core, pushed, rule.body[k], m) ==> needs(k, m);
    }
    r := Some((slice, rest));
  }

  /* ------------------------------------------------------------------ */
  /* A cut keeps rules well shaped                                        */
  /* ------------------------------------------------------------------ */

  /** What the rest reads and the rule's atoms bind, the rest's atoms bind; they bind nothing else. */
  lemma RestBinds(c: Cut)
    requires IsCut(c) && CoversPrefix(c)
    ensures Relational(Positives(c.rest.body)) <= Relational(Positives(c.rule.body))
    ensures forall x :: x in NeededVariables(c.rule, c.restBody) && x in Relational(Positives(c.rule.body)) ==>
      x in Relational(Positives(c.rest.body))
  {
    forall x | x in Relational(Positives(c.rest.body))
      ensures x in Relational(Positives(c.rule.body))
    {
      var i :| 0 <= i < |Positives(c.rest.body)| && x in Variables(Positives(c.rest.body)[i]);
      RestAtom(c, Positives(c.rest.body)[i], x);
    }
    forall x | x in NeededVariables(c.rule, c.restBody) && x in Relational(Positives(c.rule.body))
      ensures x in Relational(Positives(c.rest.body))
    {
      NeededBound(c, x);
    }
  }

  lemma BindsAll(body: seq<Literal>, atom: Atom, x: Var)
    requires Positive(atom) in body && x in Variables(atom)
    ensures x in Relational(Positives(body))
  {
    var k :| 0 <= k < |body| && body[k] == Positive(atom);
    assert atom in Positives(body);
  }

  lemma KeptBound(c: Cut, x: Var)
    requires IsCut(c) && x in c.kept
    ensures x in Relational(Positives(c.rest.body))
  {
    SliceAtomVariables(c.slice.name, c.kept);
    assert c.rest.body[0] == Positive(SliceAtom(c.slice.name, c.kept));
    BindsAll(c.rest.body, SliceAtom(c.slice.name, c.kept), x);
  }

  lemma NeededBound(c: Cut, x: Var)
    requires IsCut(c) && CoversPrefix(c) && x in NeededVariables(c.rule, c.restBody)
    requires x in Relational(Positives(c.rule.body))
    ensures x in Relational(Positives(c.rest.body))
  {
    var i :| 0 <= i < |Positives(c.rule.body)| && x in Variables(Positives(c.rule.body)[i]);
    var atom := Positives(c.rule.body)[i];
    if Positive(atom) in c.slice.body {
      BindsAll(c.slice.body, atom, x);
      KeptBound(c, x);
    } else {
      BindsAll(c.rest.body, atom, x);
    }
  }

  lemma RestAtom(c: Cut, atom: Atom, x: Var)
    requires IsCut(c) && CoversPrefix(c) && Positive(atom) in c.rest.body && x in Variables(atom)
    ensures x in Relational(Positives(c.rule.body))
  {
    if atom == SliceAtom(c.slice.name, c.kept) {
      SliceAtomVariables(c.slice.name, c.kept);
      var i :| 0 <= i < |Positives(c.slice.body)| && x in Variables(Positives(c.slice.body)[i]);
      assert Positive(Positives(c.slice.body)[i]) in c.rule.body;
      assert Positives(c.slice.body)[i] in Positives(c.rule.body);
    } else {
      assert Positive(atom) in c.restBody && atom in Positives(c.rule.body);
    }
  }

  lemma RestCallsOk(c: Cut)
    requires IsCut(c) && CoversPrefix(c) && WellShaped(c.rule)
    ensures CallsOk(Calls(c.rule.body), Relational(Positives(c.rest.body)))
  {
    var calls := Calls(c.rule.body);
    RestBinds(c);
    forall k | 0 <= k < |calls|
      ensures FactorsBound(calls[k].call.args, Relational(Positives(c.rest.body)) + Outputs(calls[..k]))
    {
      CallsRead(c.restBody, k);
      assert FactorsBound(calls[k].call.args, Relational(Positives(c.rule.body)) + Outputs(calls[..k]));
    }
  }

  lemma RestLiteral(c: Cut, l: Literal)
    requires IsCut(c) && CoversPrefix(c) && WellShaped(c.rule) && l in c.restBody && !l.Call? && !l.Positive?
    ensures LiteralVariables(l) <= Relational(Positives(c.rest.body)) + Outputs(Calls(c.rule.body))
    ensures l.Negative? ==> LiteralVariables(l) <= Relational(Positives(c.rest.body))
  {
    RestBinds(c);
    BoundInRule(c.rule, l);
    assert LiteralVariables(l) <= BodyVariables(c.restBody);
  }

  lemma RestWellShaped(c: Cut)
    requires IsCut(c) && CoversPrefix(c) && WellShaped(c.rule)
    ensures WellShaped(c.rest) && Calls(c.rest.body) == Calls(c.rule.body)
  {
    var cat, bound := RelationalPart(c.rest), Relational(Positives(c.rest.body)) + Outputs(Calls(c.rule.body));
    CallsOfRest(SliceAtom(c.slice.name, c.kept), c.restBody);
    RestCallsOk(c);
    assert c.rest.body[0].atom in Positives(c.rest.body);
    forall i | 0 <= i < |cat.negatives|
      ensures Variables(cat.negatives[i]) <= Relational(cat.positives)
    {
      RestLiteral(c, Negative(cat.negatives[i]));
    }
    forall i | 0 <= i < |cat.comparisons|
      ensures ComparisonVariables(cat.comparisons[i]) <= bound
    {
      RelationalMember(c.rest, i);
      RestLiteral(c, Compare(cat.comparisons[i]));
    }
    forall i | 0 <= i < |ComputedComparisons(c.rest)|
      ensures ComparisonVariables(ComputedComparisons(c.rest)[i]) <= bound
    {
      ComputedMember(c.restBody, Outputs(Calls(c.rule.body)), i);
      RestLiteral(c, Compare(ComputedComparisons(c.rest)[i]));
    }
    RestBinds(c);
  }

  lemma BoundInRule(rule: Rule, l: Literal)
    requires WellShaped(rule) && l in rule.body && !l.Call? && !l.Positive?
    ensures LiteralVariables(l) <= Relational(Positives(rule.body)) + Outputs(Calls(rule.body))
    ensures l.Negative? ==> LiteralVariables(l) <= Relational(Positives(rule.body))
  {
    if l.Negative? {
      assert l.atom in Negatives(rule.body);
    } else {
      ComparisonPlaced(rule, l.comparison);
    }
  }

  lemma SliceWellShaped(c: Cut)
    requires IsCut(c) && CoversPrefix(c) && c.kept != []
    ensures WellShaped(c.slice)
  {
    SliceCalls(c);
    SliceComparisons(c);
    SliceFactors(c);
    SliceHead(c);
  }

  lemma SliceHead(c: Cut)
    requires IsCut(c) && CoversPrefix(c) && c.kept != []
    ensures |Positives(c.slice.body)| > 0
    ensures forall i :: 0 <= i < |c.slice.head| ==> ArithmeticVariables(HeadExpression(c.slice.head[i])) <= c.prefix
  {
    assert c.kept[0] in c.prefix;
  }

  lemma SliceComparisons(c: Cut)
    requires IsCut(c) && CoversPrefix(c)
    ensures forall i :: 0 <= i < |RelationalPart(c.slice).comparisons| ==>
      ComparisonVariables(RelationalPart(c.slice).comparisons[i]) <= c.prefix
  {
    forall i | 0 <= i < |RelationalPart(c.slice).comparisons|
      ensures ComparisonVariables(RelationalPart(c.slice).comparisons[i]) <= c.prefix
    {
      RelationalMember(c.slice, i);
      assert LiteralVariables(Compare(RelationalPart(c.slice).comparisons[i])) <= c.prefix;
    }
  }

  lemma SliceFactors(c: Cut)
    requires IsCut(c) && CoversPrefix(c)
    ensures forall k :: 0 <= k < |Calls(c.slice.body)| ==> FactorsBound(Calls(c.slice.body)[k].call.args, c.prefix)
  {
    forall k | 0 <= k < |Calls(c.slice.body)|
      ensures FactorsBound(Calls(c.slice.body)[k].call.args, c.prefix)
    {
      assert Call(Calls(c.slice.body)[k]) in c.slice.body;
    }
  }

  /* ------------------------------------------------------------------ */
  /* All the cuts                                                         */
  /* ------------------------------------------------------------------ */

  /** No slice's prefilter drops the solution. */
  ghost predicate PassesAll(functions: Functions, slices: seq<Rule>, s: Valuation) {
    forall i :: 0 <= i < |slices| ==> Passes(functions, slices[i], s)
  }

  /** Some faulting solution of the rule passes the prefilters of all slices. */
  ghost predicate FaultsPastAll(functions: Functions, rule: Rule, slices: seq<Rule>, db: Database) {
    exists s :: BodySolution(RelationalPart(rule), db, s) && EvaluateSolution(functions, rule, s).Fault? && PassesAll(functions, slices, s)
  }

  /** Whatever the functions and the database, once the slices are staged the final rule derives exactly the rule's
      rows; it faults exactly when a faulting solution of the rule passes every slice's prefilters, and no slice
      faults. */
  ghost predicate Refines(rule: Rule, slices: seq<Rule>, last: Rule) {
    forall functions, dbs :: BooleanFilters(functions, rule.body) && StagedAll(functions, slices, dbs) ==> RefinesOn(functions, rule, slices, last, dbs)
  }

  ghost predicate RefinesOn(functions: Functions, rule: Rule, slices: seq<Rule>, last: Rule, dbs: seq<Database>)
    requires |dbs| == |slices| + 1
  {
    && SameRows(functions, rule, last, dbs[0], dbs[|slices|])
    && (Yields(functions, last, dbs[|slices|], Fault) <==> FaultsPastAll(functions, rule, slices, dbs[0]))
    && Quiet(functions, slices, dbs)
  }

  /** No slice faults. */
  ghost predicate Quiet(functions: Functions, slices: seq<Rule>, dbs: seq<Database>)
    requires |dbs| == |slices| + 1
  {
    forall i :: 0 <= i < |slices| ==> !Yields(functions, slices[i], dbs[i], Fault)
  }

  lemma QuietMore(functions: Functions, slices: seq<Rule>, slice: Rule, dbs: seq<Database>)
    requires |dbs| == |slices| + 2 && Quiet(functions, slices, dbs[..|slices| + 1])
    requires !Yields(functions, slice, dbs[|slices|], Fault)
    ensures Quiet(functions, slices + [slice], dbs)
  {
    forall i | 0 <= i < |slices| + 1
      ensures !Yields(functions, (slices + [slice])[i], dbs[i], Fault)
    {
      if i < |slices| {
        assert (slices + [slice])[i] == slices[i] && dbs[..|slices| + 1][i] == dbs[i];
      } else {
        assert (slices + [slice])[i] == slice;
      }
    }
  }

  ghost predicate SameRows(functions: Functions, rule: Rule, last: Rule, db0: Database, db: Database) {
    forall row :: Yields(functions, last, db, Kept(row)) <==> Yields(functions, rule, db0, Kept(row))
  }

  /** What ending a row reads besides call results: arguments of calls, comparisons of call results, and the head. */
  function EndReads(rule: Rule): (xs: set<Var>)
    ensures forall k :: 0 <= k < |Calls(rule.body)| ==> CallVariables(Calls(rule.body)[k].call) <= xs
    ensures forall k :: 0 <= k < |ComputedComparisons(rule)| ==> ComparisonVariables(ComputedComparisons(rule)[k]) <= xs
    ensures HeadArgVariables(rule.head) <= xs
  {
    CallReads(Calls(rule.body)) + ComparisonReads(ComputedComparisons(rule)) + HeadArgVariables(rule.head)
  }

  function CallReads(calls: seq<CallPredicate>): (xs: set<Var>)
    ensures forall k :: 0 <= k < |calls| ==> CallVariables(calls[k].call) <= xs
    ensures forall x :: x in xs ==> exists k :: 0 <= k < |calls| && x in CallVariables(calls[k].call)
  {
    set k, x | 0 <= k < |calls| && x in CallVariables(calls[k].call) :: x
  }

  function ComparisonReads(cs: seq<Comparison<Var>>): (xs: set<Var>)
    ensures forall k :: 0 <= k < |cs| ==> ComparisonVariables(cs[k]) <= xs
    ensures forall x :: x in xs ==> exists k :: 0 <= k < |cs| && x in ComparisonVariables(cs[k])
  {
    set k, x | 0 <= k < |cs| && x in ComparisonVariables(cs[k]) :: x
  }

  /** The two rules end a row by the same calls, comparisons of call results, and head. */
  ghost predicate SameEnding(rule: Rule, current: Rule) {
    Calls(current.body) == Calls(rule.body) && ComputedComparisons(current) == ComputedComparisons(rule) && current.head == rule.head
  }

  lemma EndsAlike(functions: Functions, rule: Rule, t: Valuation, u: Valuation)
    requires AgreeOn(t, u, EndReads(rule))
    ensures EvaluateSolution(functions, rule, t) == EvaluateSolution(functions, rule, u)
  {
    RowLocalAgrees(functions, Calls(rule.body), ComputedComparisons(rule), HeadExpressions(rule.head), t, u,
                   EndReads(rule));
  }

  /** The rest of a cut still reads all that ending a row does. */
  lemma RestReads(c: Cut)
    requires IsCut(c)
    ensures SameEnding(c.rule, c.rest) && EndReads(c.rule) <= BodyVariables(c.restBody) + HeadArgVariables(c.rule.head)
  {
    CallsOfRest(SliceAtom(c.slice.name, c.kept), c.restBody);
    forall x | x in CallReads(Calls(c.rule.body))
      ensures x in BodyVariables(c.restBody)
    {
      var k :| 0 <= k < |Calls(c.rule.body)| && x in CallVariables(Calls(c.rule.body)[k].call);
      CallsRead(c.restBody, k);
    }
    forall x | x in ComparisonReads(ComputedComparisons(c.rule))
      ensures x in BodyVariables(c.restBody)
    {
      var k :| 0 <= k < |ComputedComparisons(c.rule)| && x in ComparisonVariables(ComputedComparisons(c.rule)[k]);
      ComputedRead(c.restBody, Outputs(Calls(c.rule.body)), k);
    }
  }

  /** A solution of the rule stands behind `t`: it passes every prefilter, and ends its row alike. */
  ghost predicate Backed(functions: Functions, rule: Rule, slices: seq<Rule>, db: Database, t: Valuation) {
    exists u :: BodySolution(RelationalPart(rule), db, u) && PassesAll(functions, slices, u) && AgreeOn(t, u, EndReads(rule))
  }

  /** The solutions of the current rule are the solutions of the rule that pass every prefilter, as far as the end of a
      row can tell. */
  ghost predicate Tracks(functions: Functions, rule: Rule, slices: seq<Rule>, current: Rule, db0: Database,
                         db: Database)
  {
    && (forall s :: BodySolution(RelationalPart(rule), db0, s) && PassesAll(functions, slices, s) ==> BodySolution(RelationalPart(current), db, s))
    && (forall t :: BodySolution(RelationalPart(current), db, t) ==> Backed(functions, rule, slices, db0, t))
  }

  lemma PassesLast(functions: Functions, slices: seq<Rule>, slice: Rule, s: Valuation)
    ensures PassesAll(functions, slices + [slice], s) <==>
      PassesAll(functions, slices, s) && Passes(functions, slice, s)
  {
    var all := slices + [slice];
    assert all[|slices|] == slice && forall i :: 0 <= i < |slices| ==> all[i] == slices[i];
  }

  /** A prefilter reads only what ending a row reads. */
  lemma PrefilterReads(c: Cut, k: nat)
    requires IsCut(c) && k < |Calls(c.slice.body)|
    ensures CallVariables(Calls(c.slice.body)[k].call) <= EndReads(c.rule)
  {
    SliceCalls(c);
    var call := Filter(Calls(c.slice.body)[k].call);
    assert call in Calls(c.rule.body);
  }

  lemma PassesReads(functions: Functions, c: Cut, t: Valuation, u: Valuation)
    requires IsCut(c) && AgreeOn(t, u, EndReads(c.rule)) && Passes(functions, c.slice, t)
    ensures Passes(functions, c.slice, u)
  {
    forall k | 0 <= k < |Calls(c.slice.body)|
      ensures !Drops(functions, Calls(c.slice.body)[k].call, u)
    {
      PrefilterReads(c, k);
      DropsAgrees(functions, Calls(c.slice.body)[k].call, t, u);
    }
  }

  lemma BackedStep(functions: Functions, rule: Rule, slices: seq<Rule>, c: Cut, db0: Database, db: Database,
                   db': Database, t: Valuation)
    requires Tracks(functions, rule, slices, c.rule, db0, db) && SameEnding(rule, c.rule)
    requires IsCut(c) && BooleanFilters(functions, c.rule.body) && Unread(c.slice.name, c.rule.body)
    requires Staged(functions, c.slice, db, db') && BodySolution(RelationalPart(c.rest), db', t)
    ensures Backed(functions, rule, slices + [c.slice], db0, t)
  {
    var mid := CutGivesSolution(functions, c, db, db', t);
    RestReads(c);
    assert Backed(functions, rule, slices, db0, mid);
    var u :| BodySolution(RelationalPart(rule), db0, u) && PassesAll(functions, slices, u) && AgreeOn(mid, u, EndReads(rule));
    PassesReads(functions, c, mid, u);
    PassesLast(functions, slices, c.slice, u);
  }

  lemma TracksStep(functions: Functions, rule: Rule, slices: seq<Rule>, c: Cut, db0: Database, db: Database,
                   db': Database)
    requires Tracks(functions, rule, slices, c.rule, db0, db) && SameEnding(rule, c.rule)
    requires IsCut(c) && BooleanFilters(functions, c.rule.body) && Unread(c.slice.name, c.rule.body)
    requires Staged(functions, c.slice, db, db')
    ensures Tracks(functions, rule, slices + [c.slice], c.rest, db0, db')
  {
    forall s | BodySolution(RelationalPart(rule), db0, s) && PassesAll(functions, slices + [c.slice], s)
      ensures BodySolution(RelationalPart(c.rest), db', s)
    {
      PassesLast(functions, slices, c.slice, s);
      SolutionGivesCut(functions, c, db, db', s);
    }
    forall t | BodySolution(RelationalPart(c.rest), db', t)
      ensures Backed(functions, rule, slices + [c.slice], db0, t)
    {
      BackedStep(functions, rule, slices, c, db0, db, db', t);
    }
  }

  /** The current rule faults exactly when a faulting solution of the rule passes every prefilter. */
  lemma TracksFaults(functions: Functions, rule: Rule, slices: seq<Rule>, current: Rule, db0: Database, db: Database)
    requires Tracks(functions, rule, slices, current, db0, db) && SameEnding(rule, current)
    ensures Yields(functions, current, db, Fault) <==> FaultsPastAll(functions, rule, slices, db0)
  {
    if Yields(functions, current, db, Fault) {
      var t :| BodySolution(RelationalPart(current), db, t) && EvaluateSolution(functions, current, t) == Fault;
      assert Backed(functions, rule, slices, db0, t);
      var u :| BodySolution(RelationalPart(rule), db0, u) && PassesAll(functions, slices, u) && AgreeOn(t, u, EndReads(rule));
      EndsAlike(functions, rule, t, u);
    }
    if FaultsPastAll(functions, rule, slices, db0) {
      var s :| BodySolution(RelationalPart(rule), db0, s) && EvaluateSolution(functions, rule, s).Fault? && PassesAll(functions, slices, s);
      assert BodySolution(RelationalPart(current), db, s) && EvaluateSolution(functions, current, s) == Fault;
    }
  }

  /** Staging one more slice: the rest's rows are still the rule's, and it still tracks the rule's solutions. */
  lemma CutStep(functions: Functions, rule: Rule, slices: seq<Rule>, c: Cut, db0: Database, db: Database, db': Database)
    requires SameRows(functions, rule, c.rule, db0, db) && Tracks(functions, rule, slices, c.rule, db0, db)
    requires SameEnding(rule, c.rule)
    requires IsCut(c) && BooleanFilters(functions, c.rule.body) && Unread(c.slice.name, c.rule.body)
    requires Staged(functions, c.slice, db, db')
    ensures SameRows(functions, rule, c.rest, db0, db') && Tracks(functions, rule, slices + [c.slice], c.rest, db0, db')
    ensures !Yields(functions, c.slice, db, Fault)
  {
    CutRefines(functions, c, db, db');
    TracksStep(functions, rule, slices, c, db0, db, db');
  }

  /** The current rule refines the rule on one staging, and tracks its solutions. */
  ghost predicate RefinesAndTracks(functions: Functions, rule: Rule, slices: seq<Rule>, current: Rule,
                                   dbs: seq<Database>)
    requires |dbs| == |slices| + 1
  {
    && SameRows(functions, rule, current, dbs[0], dbs[|slices|]) && Quiet(functions, slices, dbs)
    && Tracks(functions, rule, slices, current, dbs[0], dbs[|slices|])
  }

  /** So far, for all functions and databases. */
  ghost predicate RefinesSoFar(rule: Rule, slices: seq<Rule>, current: Rule) {
    && SameEnding(rule, current)
    && forall functions, dbs :: BooleanFilters(functions, rule.body) && StagedAll(functions, slices, dbs) ==>
      RefinesAndTracks(functions, rule, slices, current, dbs)
  }

  lemma RefinesOnStep(functions: Functions, rule: Rule, slices: seq<Rule>, c: Cut, dbs: seq<Database>)
    requires RefinesSoFar(rule, slices, c.rule) && IsCut(c) && Unread(c.slice.name, c.rule.body)
    requires BooleanFilters(functions, rule.body) && StagedAll(functions, slices + [c.slice], dbs)
    ensures RefinesAndTracks(functions, rule, slices + [c.slice], c.rest, dbs)
  {
    var n, front := |slices|, dbs[..|slices| + 1];
    StagedLast(functions, slices, c.slice, dbs);
    SameFilters(functions, rule.body, c.rule.body);
    assert RefinesAndTracks(functions, rule, slices, c.rule, front) && front[0] == dbs[0] && front[n] == dbs[n];
    CutStep(functions, rule, slices, c, dbs[0], dbs[n], dbs[n + 1]);
    QuietMore(functions, slices, c.slice, dbs);
  }

  lemma RefinesStep(rule: Rule, slices: seq<Rule>, c: Cut)
    requires RefinesSoFar(rule, slices, c.rule) && IsCut(c) && Unread(c.slice.name, c.rule.body)
    ensures RefinesSoFar(rule, slices + [c.slice], c.rest)
  {
    RestReads(c);
    forall functions, dbs | BooleanFilters(functions, rule.body) && StagedAll(functions, slices + [c.slice], dbs)
      ensures RefinesAndTracks(functions, rule, slices + [c.slice], c.rest, dbs)
    {
      RefinesOnStep(functions, rule, slices, c, dbs);
    }
  }

  lemma SameFilters(functions: Functions, body: seq<Literal>, body': seq<Literal>)
    requires BooleanFilters(functions, body) && Calls(body) == Calls(body')
    ensures BooleanFilters(functions, body')
  {
    forall call | Call(Filter(call)) in body'
      ensures Call(Filter(call)) in body
    {
      assert Filter(call) in Calls(body);
    }
  }

  lemma FewerFilters(rule: Rule, pushed: set<CallExpr>, pushed': set<CallExpr>)
    requires Retires(rule, pushed, pushed')
    ensures |Filters(Calls(rule.body)) - pushed'| < |Filters(Calls(rule.body)) - pushed|
  {
    var call :| call in Filters(Calls(rule.body)) && call in pushed' && call !in pushed;
    SubsetSizes(Filters(Calls(rule.body)) - pushed', Filters(Calls(rule.body)) - pushed);
    assert call in Filters(Calls(rule.body)) - pushed;
  }

  /** Every slice is a well-shaped rule, named after its level. */
  ghost predicate SlicesOk(slices: seq<Rule>, sliceName: nat -> string) {
    forall i :: 0 <= i < |slices| ==> WellShaped(slices[i]) && slices[i].name == sliceName(i)
  }

  lemma SlicesOkAppend(slices: seq<Rule>, sliceName: nat -> string, slice: Rule)
    requires SlicesOk(slices, sliceName) && WellShaped(slice) && slice.name == sliceName(|slices|)
    ensures SlicesOk(slices + [slice], sliceName)
  {
    forall i | 0 <= i < |slices| + 1
      ensures WellShaped((slices + [slice])[i]) && (slices + [slice])[i].name == sliceName(i)
    {
      if i < |slices| {
        assert (slices + [slice])[i] == slices[i];
      } else {
        assert (slices + [slice])[i] == slice;
      }
    }
  }

  /** The rule a negation or comparison ends in: the first slice whose atoms bind it, or the last rule. */
  ghost predicate Home(slices: seq<Rule>, l: Literal, j: nat) {
    && j <= |slices| && (j < |slices| ==> MovesAlone(Relational(Positives(slices[j].body)), l))
    && forall i :: 0 <= i < j ==> !MovesAlone(Relational(Positives(slices[i].body)), l)
  }

  /** Every negation and comparison of the rule is exactly in its home. */
  ghost predicate TestsAtHome(rule: Rule, slices: seq<Rule>, last: Rule) {
    forall l, j: nat :: Tested(l) && j <= |slices| ==>
      (l in (if j < |slices| then slices[j] else last).body <==> l in rule.body && Home(slices, l, j))
  }

  lemma HomeMore(slices: seq<Rule>, slice: Rule, l: Literal, j: nat)
    ensures j < |slices| ==> (Home(slices + [slice], l, j) <==> Home(slices, l, j))
    ensures j == |slices| ==> (Home(slices + [slice], l, j) <==> Home(slices, l, j) && MovesAlone(Relational(Positives(slice.body)), l))
    ensures j == |slices| + 1 ==>
      (Home(slices + [slice], l, j) <==> Home(slices, l, |slices|) && !MovesAlone(Relational(Positives(slice.body)), l))
  {
    var more := slices + [slice];
    assert more[|slices|] == slice && forall i :: 0 <= i < |slices| ==> more[i] == slices[i];
  }

  lemma TestsStep(rule: Rule, slices: seq<Rule>, c: Cut)
    requires TestsAtHome(rule, slices, c.rule) && DealsTests(c) && CoversPrefix(c)
    ensures TestsAtHome(rule, slices + [c.slice], c.rest)
  {
    var more := slices + [c.slice];
    forall l, j: nat | Tested(l) && j <= |more|
      ensures l in (if j < |more| then more[j] else c.rest).body <==> l in rule.body && Home(more, l, j)
    {
      HomeMore(slices, c.slice, l, j);
      assert l in c.rule.body <==> l in rule.body && Home(slices, l, |slices|);
      if j < |slices| {
        assert more[j] == slices[j];
      }
    }
  }

  /** Cutting so far: what the slices and the current rule promise. */
  ghost predicate CutSoFar(rule: Rule, sliceName: nat -> string, slices: seq<Rule>, current: Rule) {
    && TestsAtHome(rule, slices, current)
    && WellShaped(current) && RefinesSoFar(rule, slices, current)
    && SlicesOk(slices, sliceName) && SlicesKnown(rule, slices) && BodyKnown(rule, slices, current.body)
    && UnreadFrom(sliceName, |slices|, current.body)
  }

  /** The names from the `n`-th on are no relations of the body. */
  ghost predicate UnreadFrom(sliceName: nat -> string, n: nat, body: seq<Literal>) {
    forall i: nat :: i >= n ==> Unread(sliceName(i), body)
  }

  /** Slice names are new: pairwise different, and no relation of the rule. */
  ghost predicate NewNames(rule: Rule, sliceName: nat -> string) {
    UnreadFrom(sliceName, 0, rule.body) && forall i: nat, j: nat :: i < j ==> sliceName(i) != sliceName(j)
  }

  lemma NamesStayUnread(rule: Rule, sliceName: nat -> string, n: nat, c: Cut)
    requires NewNames(rule, sliceName) && IsCut(c) && c.slice.name == sliceName(n)
    requires UnreadFrom(sliceName, n, c.rule.body)
    ensures UnreadFrom(sliceName, n + 1, c.rest.body) && Unread(c.slice.name, rule.body)
    ensures Unread(c.slice.name, c.rule.body)
  {
    forall i: nat | i >= n + 1
      ensures Unread(sliceName(i), c.rest.body)
    {
      UnreadRest(c, sliceName(i));
    }
  }

  lemma CutSoFarStep(rule: Rule, sliceName: nat -> string, slices: seq<Rule>, current: Rule, pushed: set<CallExpr>,
                     c: Cut, pushed': set<CallExpr>)
    requires CutSoFar(rule, sliceName, slices, current) && CutMade(c, current, sliceName(|slices|), pushed, pushed')
    requires NewNames(rule, sliceName)
    ensures CutSoFar(rule, sliceName, slices + [c.slice], c.rest)
  {
    NamesStayUnread(rule, sliceName, |slices|, c);
    TestsStep(rule, slices, c);
    RefinesStep(rule, slices, c);
    RestWellShaped(c);
    SliceWellShaped(c);
    SlicesOkAppend(slices, sliceName, c.slice);
    CutReadsKnown(rule, slices, c);
  }

  /** Slice and rest read relations of the rule and earlier slices. */
  lemma CutReadsKnown(rule: Rule, slices: seq<Rule>, c: Cut)
    requires IsCut(c) && SlicesKnown(rule, slices) && BodyKnown(rule, slices, c.rule.body)
    requires Unread(c.slice.name, rule.body)
    ensures SlicesKnown(rule, slices + [c.slice]) && BodyKnown(rule, slices + [c.slice], c.rest.body)
  {
    SlicesKnownStep(rule, slices, c.slice);
    forall l | l in c.rest.body && (l.Positive? || l.Negative?)
      ensures Known(rule, slices + [c.slice], l.atom)
    {
      if l in c.restBody {
        KnownMore(rule, slices, c.slice, l.atom);
      } else {
        KnownSlice(rule, slices, c.slice, c.kept);
      }
    }
  }

  lemma UnreadRest(c: Cut, name: string)
    requires IsCut(c) && Unread(name, c.rule.body) && name != c.slice.name
    ensures Unread(name, c.rest.body)
  {
  }

  /** What cutting a rule gives: nothing if no filter can run before the last join; or slices and a last rule. */
  ghost predicate CutsWell(rule: Rule, sliceName: nat -> string, r: Option<(seq<Rule>, Rule)>) {
    && (r.None? <==> NoCut(rule.body, {}))
    && (r.Some? ==>
      var (slices, last) := r.value;
      && Refines(rule, slices, last) && WellShaped(last) && SlicesOk(slices, sliceName)
      && SlicesKnown(rule, slices) && BodyKnown(rule, slices, last.body) && TestsAtHome(rule, slices, last))
  }

  lemma CutsSoFarWell(rule: Rule, sliceName: nat -> string, slices: seq<Rule>, current: Rule)
    requires CutSoFar(rule, sliceName, slices, current) && !NoCut(rule.body, {})
    ensures CutsWell(rule, sliceName, Some((slices, current)))
  {
    forall functions, dbs | BooleanFilters(functions, rule.body) && StagedAll(functions, slices, dbs)
      ensures RefinesOn(functions, rule, slices, current, dbs)
    {
      assert RefinesAndTracks(functions, rule, slices, current, dbs);
      TracksFaults(functions, rule, slices, current, dbs[0], dbs[|slices|]);
    }
  }

  /** Cuts a rule as often as some filter can run before the last join. Every cut retires a filter, so this ends. */
  method PushDownFilterCalls(rule: Rule, sliceName: nat -> string) returns (r: Option<(seq<Rule>, Rule)>)
    requires WellShaped(rule) && NewNames(rule, sliceName)
    ensures CutsWell(rule, sliceName, r)
  {
    var slices: seq<Rule>, current, pushed: set<CallExpr> := [], rule, {};
    NothingCut(rule, sliceName);
    while true
      invariant Cutting(rule, sliceName, slices, current, pushed)
      decreases FiltersLeft(rule, pushed)
    {
      var cut, pushed', c := CutOnce(current, sliceName(|slices|), pushed);
      if cut.None? {
        AllCut(rule, sliceName, slices, current, pushed);
        return if slices == [] then None else Some((slices, current));
      }
      NextCut(rule, sliceName, slices, current, pushed, c, pushed');
      slices, current, pushed := slices + [cut.value.0], cut.value.1, pushed';
    }
  }

  ghost function FiltersLeft(rule: Rule, pushed: set<CallExpr>): nat {
    |Filters(Calls(rule.body)) - pushed|
  }

  /** The cuts so far, and the filters they retired. */
  ghost predicate Cutting(rule: Rule, sliceName: nat -> string, slices: seq<Rule>, current: Rule,
                          pushed: set<CallExpr>)
  {
    && CutSoFar(rule, sliceName, slices, current)
    && if slices == [] then current == rule && pushed == {} else !NoCut(rule.body, {})
  }

  lemma AllCut(rule: Rule, sliceName: nat -> string, slices: seq<Rule>, current: Rule, pushed: set<CallExpr>)
    requires Cutting(rule, sliceName, slices, current, pushed) && NoCut(current.body, pushed)
    ensures CutsWell(rule, sliceName, if slices == [] then None else Some((slices, current)))
  {
    if slices != [] {
      CutsSoFarWell(rule, sliceName, slices, current);
    }
  }

  lemma NextCut(rule: Rule, sliceName: nat -> string, slices: seq<Rule>, current: Rule, pushed: set<CallExpr>, c: Cut,
                pushed': set<CallExpr>)
    requires Cutting(rule, sliceName, slices, current, pushed)
    requires CutMade(c, current, sliceName(|slices|), pushed, pushed') && !NoCut(current.body, pushed)
    requires NewNames(rule, sliceName)
    ensures Cutting(rule, sliceName, slices + [c.slice], c.rest, pushed')
    ensures FiltersLeft(rule, pushed') < FiltersLeft(rule, pushed)
  {
    CutSoFarStep(rule, sliceName, slices, current, pushed, c, pushed');
    FewerLeft(rule, current, pushed, pushed');
  }

  lemma FewerLeft(rule: Rule, current: Rule, pushed: set<CallExpr>, pushed': set<CallExpr>)
    requires Retires(current, pushed, pushed') && SameEnding(rule, current)
    ensures FiltersLeft(rule, pushed') < FiltersLeft(rule, pushed)
  {
    FewerFilters(current, pushed, pushed');
  }

  lemma NothingCut(rule: Rule, sliceName: nat -> string)
    requires WellShaped(rule) && NewNames(rule, sliceName)
    ensures Cutting(rule, sliceName, [], rule, {})
  {
    RefinesNothing(rule);
    forall l | l in rule.body && (l.Positive? || l.Negative?)
      ensures Known(rule, [], l.atom)
    {
      assert ReadsAtom(rule.body, l.atom);
    }
  }

  lemma RefinesNothing(rule: Rule)
    ensures RefinesSoFar(rule, [], rule)
  {
    forall functions, dbs | BooleanFilters(functions, rule.body) && StagedAll(functions, [], dbs)
      ensures RefinesAndTracks(functions, rule, [], rule, dbs)
    {
      TracksNothing(functions, rule, dbs[0]);
    }
  }

  lemma TracksNothing(functions: Functions, rule: Rule, db: Database)
    ensures Tracks(functions, rule, [], rule, db, db)
  {
    forall t | BodySolution(RelationalPart(rule), db, t)
      ensures Backed(functions, rule, [], db, t)
    {
      assert PassesAll(functions, [], t) && AgreeOn(t, t, EndReads(rule));
    }
  }
}

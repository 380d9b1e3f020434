/** A rule that ends with a fault, and that cutting makes end without one: an input on which running a filter early is
    seen. */
module PushdownExample {
  import opened Datalog
  import opened Rules
  import opened CoreAtoms
  import opened Bodies
  import opened Slices
  import opened Pushdown

  /** A chain of three atoms, a call that binds, and a filter over the ends of the first two. */
  datatype Parts = Parts(p: Atom, q: Atom, r: Atom, g: CallExpr, f: CallExpr, x: Var, y: Var, z: Var, w: Var, u: Var)

  predicate Distinct(e: Parts) {
    && e.x != e.y && e.x != e.z && e.x != e.w && e.x != e.u && e.y != e.z && e.y != e.w && e.y != e.u
    && e.z != e.w && e.z != e.u && e.w != e.u
  }

  /** The atoms are p(x, y), q(y, z) and r(z, w); g reads x, and f reads x and z. */
  ghost predicate Fits(e: Parts) {
    && Distinct(e)
    && Variables(e.p) == {e.x, e.y} && Variables(e.q) == {e.y, e.z} && Variables(e.r) == {e.z, e.w}
    && CallVariables(e.g) == {e.x} && CallVariables(e.f) == {e.x, e.z}
  }

  function AtomsOf(e: Parts): seq<Literal> {
    [Positive(e.p), Positive(e.q), Positive(e.r)]
  }

  /** h(x) :- p(x, y), q(y, z), r(z, w), u = g(x), f(x, z). */
  function RuleOf(e: Parts): Rule {
    Rule("h", [HeadVariable(e.x)], AtomsOf(e) + [Call(Bind(e.u, e.g)), Call(Filter(e.f))])
  }

  /** slice(x, z) :- p(x, y), q(y, z), f(x, z), where the filter keeps a row it faults on. */
  function SliceOf(e: Parts, name: string): Rule {
    Rule(name, HeadOf([e.x, e.z]), [Positive(e.p), Positive(e.q), Call(Prefilter(e.f))])
  }

  function RestBodyOf(e: Parts): seq<Literal> {
    [Positive(e.r), Call(Bind(e.u, e.g)), Call(Filter(e.f))]
  }

  /** h(x) :- slice(x, z), r(z, w), u = g(x), f(x, z). */
  function RestOf(e: Parts, name: string): Rule {
    Rule("h", [HeadVariable(e.x)], [Positive(SliceAtom(name, [e.x, e.z]))] + RestBodyOf(e))
  }

  function CutOf(e: Parts, name: string): Cut {
    Cut(RuleOf(e), SliceOf(e, name), RestOf(e, name), RestBodyOf(e), {e.x, e.y, e.z}, [e.x, e.z])
  }

  /* ------------------------------------------------------------------ */
  /* The bodies                                                           */
  /* ------------------------------------------------------------------ */

  ghost predicate NoComparisons(body: seq<Literal>) {
    forall outputs, computed :: Comparisons(body, outputs, computed) == []
  }

  /** The atoms and calls a body ends up with, literal by literal. */
  ghost predicate HasParts(body: seq<Literal>, atoms: seq<Atom>, calls: seq<CallPredicate>) {
    Positives(body) == atoms && Negatives(body) == [] && Calls(body) == calls && NoComparisons(body)
  }

  lemma Nothing()
    ensures HasParts([], [], [])
  {
  }

  lemma WithAtom(front: seq<Literal>, atoms: seq<Atom>, calls: seq<CallPredicate>, atom: Atom)
    requires HasParts(front, atoms, calls)
    ensures HasParts(front + [Positive(atom)], atoms + [atom], calls)
  {
    assert (front + [Positive(atom)])[..|front|] == front;
  }

  lemma WithCall(front: seq<Literal>, atoms: seq<Atom>, calls: seq<CallPredicate>, call: CallPredicate)
    requires HasParts(front, atoms, calls)
    ensures HasParts(front + [Call(call)], atoms, calls + [call])
  {
    assert (front + [Call(call)])[..|front|] == front;
  }

  lemma Third<T>(a: T, b: T, c: T)
    ensures [a, b] + [c] == [a, b, c]
  {
  }

  lemma TwoParts(e: Parts)
    ensures HasParts([Positive(e.p), Positive(e.q)], [e.p, e.q], [])
  {
    Nothing();
    WithAtom([], [], [], e.p);
    SameLists([] + [Positive(e.p)], [Positive(e.p)], [] + [e.p], [e.p], [], []);
    WithAtom([Positive(e.p)], [e.p], [], e.q);
    SameLists([Positive(e.p)] + [Positive(e.q)], [Positive(e.p), Positive(e.q)], [e.p] + [e.q], [e.p, e.q], [], []);
  }

  lemma AtomsParts(e: Parts)
    ensures HasParts(AtomsOf(e), [e.p, e.q, e.r], [])
  {
    TwoParts(e);
    WithAtom([Positive(e.p), Positive(e.q)], [e.p, e.q], [], e.r);
    Third(Positive(e.p), Positive(e.q), Positive(e.r));
    Third(e.p, e.q, e.r);
    SameLists([Positive(e.p), Positive(e.q)] + [Positive(e.r)], AtomsOf(e), [e.p, e.q] + [e.r], [e.p, e.q, e.r], [],
              []);
  }

  lemma RuleParts(e: Parts)
    ensures HasParts(RuleOf(e).body, [e.p, e.q, e.r], [Bind(e.u, e.g), Filter(e.f)])
  {
    var atoms, bind, filter := AtomsOf(e), Bind(e.u, e.g), Filter(e.f);
    AtomsParts(e);
    WithCall(atoms, [e.p, e.q, e.r], [], bind);
    WithCall(atoms + [Call(bind)], [e.p, e.q, e.r], [] + [bind], filter);
    SameLists(atoms + [Call(bind)] + [Call(filter)], RuleOf(e).body, [e.p, e.q, e.r], [e.p, e.q, e.r],
              [] + [bind] + [filter], [bind, filter]);
  }

  lemma SameLists(body: seq<Literal>, body': seq<Literal>, atoms: seq<Atom>, atoms': seq<Atom>,
                  calls: seq<CallPredicate>, calls': seq<CallPredicate>)
    requires HasParts(body, atoms, calls) && body == body' && atoms == atoms' && calls == calls'
    ensures HasParts(body', atoms', calls')
  {
  }

  lemma RestParts(e: Parts)
    ensures HasParts(RestBodyOf(e), [e.r], [Bind(e.u, e.g), Filter(e.f)])
  {
    var bind, filter := Bind(e.u, e.g), Filter(e.f);
    Nothing();
    WithAtom([], [], [], e.r);
    WithCall([] + [Positive(e.r)], [] + [e.r], [], bind);
    WithCall([] + [Positive(e.r)] + [Call(bind)], [] + [e.r], [] + [bind], filter);
    SameLists([] + [Positive(e.r)] + [Call(bind)] + [Call(filter)], RestBodyOf(e), [] + [e.r], [e.r],
              [] + [bind] + [filter], [bind, filter]);
  }

  lemma SliceParts(e: Parts, name: string)
    ensures HasParts(SliceOf(e, name).body, [e.p, e.q], [Prefilter(e.f)])
  {
    TwoParts(e);
    WithCall([Positive(e.p), Positive(e.q)], [e.p, e.q], [], Prefilter(e.f));
    Third(Positive(e.p), Positive(e.q), Call(Prefilter(e.f)));
    SameLists([Positive(e.p), Positive(e.q)] + [Call(Prefilter(e.f))], SliceOf(e, name).body, [e.p, e.q], [e.p, e.q],
              [] + [Prefilter(e.f)], [Prefilter(e.f)]);
  }

  lemma OutputIs(e: Parts)
    ensures Outputs([Bind(e.u, e.g), Filter(e.f)]) == {e.u}
  {
    var calls := [Bind(e.u, e.g), Filter(e.f)];
    assert calls[0].Bind? && calls[0].output == e.u && !calls[1].Bind?;
  }

  lemma HeadReads(x: Var)
    ensures ArithmeticVariables(HeadExpression(HeadVariable(x))) == {x} && HeadArgVariables([HeadVariable(x)]) == {x}
  {
    assert [HeadVariable(x)][0] == HeadVariable(x);
  }

  lemma Bound(p: Atom, q: Atom, r: Atom)
    ensures Relational([p, q, r]) == Variables(p) + Variables(q) + Variables(r)
    ensures Relational([p, q]) == Variables(p) + Variables(q)
  {
    assert [p, q, r][0] == p && [p, q, r][1] == q && [p, q, r][2] == r;
    assert [p, q][0] == p && [p, q][1] == q;
  }

  lemma FactorsRead(call: CallExpr, xs: set<Var>)
    requires CallVariables(call) <= xs
    ensures FactorsBound(call.args, xs)
  {
    forall i | 0 <= i < |call.args| && call.args[i].Label?
      ensures call.args[i].place in xs
    {
      assert call.args[i].place in CallVariables(call);
    }
  }

  lemma TwoCalls(e: Parts, xs: set<Var>)
    requires CallVariables(e.g) <= xs && CallVariables(e.f) <= xs && e.u !in xs
    ensures CallsOk([Bind(e.u, e.g), Filter(e.f)], xs)
  {
    var calls := [Bind(e.u, e.g), Filter(e.f)];
    assert Outputs(calls[..0]) == {};
    FactorsRead(e.g, xs + Outputs(calls[..0]));
    FactorsRead(e.f, xs + Outputs(calls[..1]));
  }

  lemma ShapedFrom(rule: Rule, xs: set<Var>, calls: seq<CallPredicate>)
    requires Positives(rule.body) != [] && Negatives(rule.body) == [] && NoComparisons(rule.body)
    requires Calls(rule.body) == calls
    requires Relational(Positives(rule.body)) == xs && CallsOk(calls, xs)
    requires forall i :: 0 <= i < |rule.head| ==> ArithmeticVariables(HeadExpression(rule.head[i])) <= xs
    ensures WellShaped(rule)
  {
    assert RelationalPart(rule).comparisons == [] && ComputedComparisons(rule) == [];
  }

  lemma AtomsBind(e: Parts)
    requires Fits(e)
    ensures var xs := Variables(e.p) + Variables(e.q) + Variables(e.r);
      e.x in xs && e.u !in xs && CallVariables(e.g) <= xs && CallVariables(e.f) <= xs
  {
  }

  lemma HeadIs(head: seq<HeadArg>, x: Var, xs: set<Var>)
    requires head == [HeadVariable(x)] && x in xs
    ensures forall i :: 0 <= i < |head| ==> ArithmeticVariables(HeadExpression(head[i])) <= xs
  {
    HeadReads(x);
  }

  /** A rule of these atoms and calls, and this head, is well shaped. */
  lemma ShapedAlike(e: Parts, rule: Rule)
    requires Fits(e) && HasParts(rule.body, [e.p, e.q, e.r], [Bind(e.u, e.g), Filter(e.f)])
    requires rule.head == [HeadVariable(e.x)]
    ensures WellShaped(rule)
  {
    var xs := Variables(e.p) + Variables(e.q) + Variables(e.r);
    AtomsBind(e);
    Bound(e.p, e.q, e.r);
    TwoCalls(e, xs);
    HeadIs(rule.head, e.x, xs);
    ShapedFrom(rule, xs, [Bind(e.u, e.g), Filter(e.f)]);
  }

  lemma RuleIsWellShaped(e: Parts)
    requires Fits(e)
    ensures WellShaped(RuleOf(e))
  {
    RuleParts(e);
    ShapedAlike(e, RuleOf(e));
  }

  /** All three atoms are joined. */
  lemma AllCore(e: Parts, vars: seq<set<Var>>)
    requires Distinct(e) && vars == [{e.x, e.y}, {e.y, e.z}, {e.z, e.w}]
    ensures IsCore(vars, 0) && IsCore(vars, 1) && IsCore(vars, 2)
  {
    assert e.x in vars[0] && e.y in vars[0] && e.y in vars[1] && e.z in vars[1] && e.z in vars[2] && e.w in vars[2];
    assert e.x !in vars[1] && e.x !in vars[2] && e.y !in vars[2] && e.z !in vars[0] && e.w !in vars[0] && e.w !in vars[1];
  }

  lemma TwoOfThree(e: Parts)
    requires Distinct(e)
    ensures UsefulAt([{e.x, e.y}, {e.y, e.z}, {e.z, e.w}], [true, true, true], {e.x, e.z}, 2)
  {
    var vars, core := [{e.x, e.y}, {e.y, e.z}, {e.z, e.w}], [true, true, true];
    PrefixStep(vars, core, 0);
    PrefixStep(vars, core, 1);
    assert PrefixVars(vars, core, 0) == {};
    assert CoreCount(core, 0) == 0 && CoreCount(core, 1) == 1 && CoreCount(core, 2) == 2 && CoreCount(core, 3) == 3;
  }

  lemma CoreFrom(body: seq<Literal>, vars: seq<set<Var>>)
    requires VariableSets(Positives(body)) == vars && |vars| == 3 && IsCore(vars, 0) && IsCore(vars, 1)
    requires IsCore(vars, 2)
    ensures CoreOf(body) == [true, true, true]
  {
  }

  lemma CutAlike(e: Parts, body: seq<Literal>)
    requires Fits(e) && HasParts(body, [e.p, e.q, e.r], [Bind(e.u, e.g), Filter(e.f)]) && Call(Filter(e.f)) in body
    ensures CutAt(body, CoreOf(body), {}, Call(Filter(e.f)), 2)
  {
    var vars := [{e.x, e.y}, {e.y, e.z}, {e.z, e.w}];
    SetsAre(e);
    AllCore(e, vars);
    CoreFrom(body, vars);
    TwoOfThree(e);
    Bound(e.p, e.q, e.r);
    AtomsBind(e);
    CutWhere(body, e.f, vars, [true, true, true]);
  }

  lemma SetsAre(e: Parts)
    requires Fits(e)
    ensures VariableSets([e.p, e.q, e.r]) == [{e.x, e.y}, {e.y, e.z}, {e.z, e.w}]
    ensures CallVariables(e.f) == {e.x, e.z} != {}
  {
    assert e.x in CallVariables(e.f);
  }

  lemma CutWhere(body: seq<Literal>, f: CallExpr, vars: seq<set<Var>>, core: seq<bool>)
    requires VariableSets(Positives(body)) == vars && CoreOf(body) == core && |core| == |vars|
    requires Call(Filter(f)) in body && CallVariables(f) != {} && CallVariables(f) <= Relational(Positives(body))
    requires UsefulAt(vars, core, CallVariables(f), 2)
    ensures CutAt(body, CoreOf(body), {}, Call(Filter(f)), 2)
  {
  }

  lemma RuleHas(e: Parts, l: Literal)
    ensures l in RuleOf(e).body <==> l == Positive(e.p) || l == Positive(e.q) || l == Positive(e.r) || l == Call(Bind(e.u, e.g)) || l == Call(Filter(e.f))
  {
  }

  /** The filter's variables are bound after two of three joins. */
  lemma FilterIsCut(e: Parts)
    requires Fits(e)
    ensures CutAt(RuleOf(e).body, CoreOf(RuleOf(e).body), {}, Call(Filter(e.f)), 2)
  {
    RuleParts(e);
    RuleHas(e, Call(Filter(e.f)));
    CutAlike(e, RuleOf(e).body);
  }

  lemma RestBodyReads(e: Parts)
    requires Fits(e)
    ensures BodyVariables(RestBodyOf(e)) == {e.x, e.z, e.w}
  {
    ThreeRead(Positive(e.r), Call(Bind(e.u, e.g)), Call(Filter(e.f)));
  }

  lemma ThreeRead(a: Literal, b: Literal, c: Literal)
    ensures BodyVariables([a, b, c]) == LiteralVariables(a) + LiteralVariables(b) + LiteralVariables(c)
  {
    var body := [a, b, c];
    assert body[0] == a && body[1] == b && body[2] == c;
  }

  /** What the literals of a cut's bodies are. */
  ghost predicate CutLists(e: Parts, body: seq<Literal>, slice: seq<Literal>, rest: seq<Literal>) {
    && (forall l :: l in body <==> l == Positive(e.p) || l == Positive(e.q) || l == Positive(e.r) || l == Call(Bind(e.u, e.g)) || l == Call(Filter(e.f)))
    && (forall l :: l in slice <==> l == Positive(e.p) || l == Positive(e.q) || l == Call(Prefilter(e.f)))
    && (forall l :: l in rest <==> l == Positive(e.r) || l == Call(Bind(e.u, e.g)) || l == Call(Filter(e.f)))
  }

  lemma ListsCut(e: Parts, name: string)
    ensures CutLists(e, RuleOf(e).body, SliceOf(e, name).body, RestBodyOf(e))
  {
  }

  lemma CutCalls(e: Parts, c: Cut)
    requires Distinct(e) && c.prefix == {e.x, e.y, e.z}
    requires Calls(c.rule.body) == [Bind(e.u, e.g), Filter(e.f)] && NoComparisons(c.rule.body)
    requires Calls(c.restBody) == [Bind(e.u, e.g), Filter(e.f)] && NoComparisons(c.restBody)
    ensures Calls(c.restBody) == Calls(c.rule.body) && c.prefix !! Outputs(Calls(c.rule.body))
    ensures Comparisons(c.restBody, Outputs(Calls(c.rule.body)), true) == ComputedComparisons(c.rule)
  {
    OutputIs(e);
  }

  lemma CutKeeps(e: Parts, c: Cut)
    requires c.rule.head == [HeadVariable(e.x)] && BodyVariables(c.restBody) == {e.x, e.z, e.w} && Distinct(e)
    requires c.prefix == {e.x, e.y, e.z} && c.kept == [e.x, e.z]
    ensures forall x :: x in c.kept ==> x in c.prefix
    ensures forall x :: x in c.prefix && x in BodyVariables(c.restBody) + HeadArgVariables(c.rule.head) ==> x in c.kept
  {
    HeadReads(e.x);
    assert forall x :: x in c.kept <==> x == e.x || x == e.z;
  }

  lemma CutMembers(e: Parts, c: Cut)
    requires Fits(e) && CutLists(e, c.rule.body, c.slice.body, c.restBody) && c.prefix == {e.x, e.y, e.z}
    ensures forall l :: l in c.slice.body ==>
      LiteralVariables(l) <= c.prefix && if l.Call? then l.call.Prefilter? && Call(Filter(l.call.call)) in c.rule.body else l in c.rule.body
  {
  }

  lemma CutFrom(e: Parts, c: Cut)
    requires Fits(e) && CutLists(e, c.rule.body, c.slice.body, c.restBody)
    requires HasParts(c.rule.body, [e.p, e.q, e.r], [Bind(e.u, e.g), Filter(e.f)])
    requires HasParts(c.restBody, [e.r], [Bind(e.u, e.g), Filter(e.f)])
    requires c.rule.head == [HeadVariable(e.x)] && BodyVariables(c.restBody) == {e.x, e.z, e.w}
    requires c.prefix == {e.x, e.y, e.z} && c.kept == [e.x, e.z] && c.slice.head == HeadOf(c.kept)
    requires c.rest == Rule(c.rule.name, c.rule.head, [Positive(SliceAtom(c.slice.name, c.kept))] + c.restBody)
    ensures IsCut(c)
  {
    CutCalls(e, c);
    CutKeeps(e, c);
    CutMembers(e, c);
  }

  lemma IsACut(e: Parts, name: string)
    requires Fits(e)
    ensures IsCut(CutOf(e, name))
  {
    RuleParts(e);
    RestParts(e);
    RestBodyReads(e);
    ListsCut(e, name);
    CutFrom(e, CutOf(e, name));
  }

  /* ------------------------------------------------------------------ */
  /* What it does to a fault                                              */
  /* ------------------------------------------------------------------ */

  /** Wherever the first two atoms hold, the filter is false; the other call never has a value. */
  ghost predicate Hides(e: Parts, functions: Functions, db: Database) {
    && (forall s :: AtomHolds(db, e.p, s) && AtomHolds(db, e.q, s) ==> Drops(functions, e.f, s))
    && (forall row :: (e.g.name, row) !in functions)
    && (exists s :: AtomHolds(db, e.p, s) && AtomHolds(db, e.q, s) && AtomHolds(db, e.r, s))
  }

  lemma RuleFaults(e: Parts, functions: Functions, db: Database)
    requires Hides(e, functions, db)
    ensures Yields(functions, RuleOf(e), db, Fault)
  {
    var s :| AtomHolds(db, e.p, s) && AtomHolds(db, e.q, s) && AtomHolds(db, e.r, s);
    RuleParts(e);
    SolvesParts(RuleOf(e), e, [Bind(e.u, e.g), Filter(e.f)], db, s);
    EndsFault(functions, RuleOf(e), Bind(e.u, e.g), Filter(e.f), s);
  }

  lemma SolvesParts(rule: Rule, e: Parts, calls: seq<CallPredicate>, db: Database, s: Valuation)
    requires HasParts(rule.body, [e.p, e.q, e.r], calls) && AtomHolds(db, e.p, s) && AtomHolds(db, e.q, s)
    requires AtomHolds(db, e.r, s)
    ensures BodySolution(RelationalPart(rule), db, s)
  {
  }

  lemma EndsFault(functions: Functions, rule: Rule, first: CallPredicate, second: CallPredicate, s: Valuation)
    requires Calls(rule.body) == [first, second] && RunCall(functions, first, s) == Fault
    ensures EvaluateSolution(functions, rule, s) == Fault
  {
    FirstFaults(functions, first, second, s);
  }

  lemma FirstFaults(functions: Functions, first: CallPredicate, second: CallPredicate, s: Valuation)
    requires RunCall(functions, first, s) == Fault
    ensures RunCalls(functions, [first, second], s) == Fault
  {
    assert [first, second][..1] == [first] && [first][..0] == [];
    assert RunCalls(functions, [first][..0], s) == Kept(s);
    assert RunCalls(functions, [first], s) == Fault;
  }

  /** No solution of the slice's atoms passes its filter. */
  lemma NonePasses(e: Parts, functions: Functions, db: Database, name: string, s: Valuation)
    requires Hides(e, functions, db) && BodySolution(RelationalPart(SliceOf(e, name)), db, s)
    ensures !Passes(functions, SliceOf(e, name), s)
  {
    SliceParts(e, name);
    var cat := RelationalPart(SliceOf(e, name));
    assert AtomHolds(db, cat.positives[0], s) && AtomHolds(db, cat.positives[1], s);
    assert Calls(SliceOf(e, name).body)[0].call == e.f;
  }

  lemma SliceIsEmpty(e: Parts, functions: Functions, db: Database, name: string)
    requires Fits(e) && Hides(e, functions, db) && BooleanFilters(functions, RuleOf(e).body) && name !in db
    ensures Staged(functions, SliceOf(e, name), db, db[name := {}])
  {
    forall row
      ensures !Yields(functions, SliceOf(e, name), db, Kept(row))
    {
      forall s | BodySolution(RelationalPart(SliceOf(e, name)), db, s)
        ensures EvaluateSolution(functions, SliceOf(e, name), s) == Dropped
      {
        SliceDrops(e, functions, db, name, s);
      }
    }
    StagedEmpty(functions, SliceOf(e, name), db);
  }

  lemma SliceDrops(e: Parts, functions: Functions, db: Database, name: string, s: Valuation)
    requires Fits(e) && Hides(e, functions, db) && BooleanFilters(functions, RuleOf(e).body)
    requires BodySolution(RelationalPart(SliceOf(e, name)), db, s)
    ensures EvaluateSolution(functions, SliceOf(e, name), s) == Dropped
  {
    IsACut(e, name);
    NonePasses(e, functions, db, name, s);
    SliceEvaluates(functions, CutOf(e, name), s);
  }

  lemma StagedEmpty(functions: Functions, slice: Rule, db: Database)
    requires slice.name !in db && forall row :: !Yields(functions, slice, db, Kept(row))
    ensures Staged(functions, slice, db, db[slice.name := {}])
  {
  }

  ghost predicate Unsolved(rule: Rule, db: Database) {
    forall t :: !BodySolution(RelationalPart(rule), db, t)
  }

  /** Nothing is left for the rest to end. */
  lemma RestIsEmpty(e: Parts, functions: Functions, db: Database, name: string, db': Database)
    requires Fits(e) && Hides(e, functions, db) && BooleanFilters(functions, RuleOf(e).body) && name !in db
    requires Unread(name, RuleOf(e).body) && db' == db[name := {}]
    ensures Unsolved(RestOf(e, name), db')
  {
    var rest := RestOf(e, name);
    forall t
      ensures !BodySolution(RelationalPart(rest), db', t)
    {
      SolutionByLiterals(rest, db', t);
      assert !LiteralHolds(db', Outputs(Calls(rest.body)), rest.body[0], t);
    }
  }

  /** The rule faults; with the slice staged, neither slice nor rest faults, and the rest has no row at all. */
  ghost predicate CutHides(e: Parts, functions: Functions, db: Database, name: string) {
    && Unread(name, RuleOf(e).body) && BooleanFilters(functions, RuleOf(e).body)
    && Yields(functions, RuleOf(e), db, Fault)
    && Staged(functions, SliceOf(e, name), db, db[name := {}]) && !Yields(functions, SliceOf(e, name), db, Fault)
    && Unsolved(RestOf(e, name), db[name := {}])
  }

  lemma ChainHides(e: Parts, functions: Functions, db: Database, name: string)
    requires Fits(e) && Hides(e, functions, db) && BooleanFilters(functions, RuleOf(e).body) && name !in db
    requires Unread(name, RuleOf(e).body)
    ensures CutHides(e, functions, db, name)
  {
    RuleFaults(e, functions, db);
    SliceIsEmpty(e, functions, db, name);
    RestIsEmpty(e, functions, db, name, db[name := {}]);
    IsACut(e, name);
    CutRefines(functions, CutOf(e, name), db, db[name := {}]);
  }

  /* ------------------------------------------------------------------ */
  /* The example                                                          */
  /* ------------------------------------------------------------------ */

  function Example(): Parts {
    Parts(Atom("p", [Variable("x"), Variable("y")]), Atom("q", [Variable("y"), Variable("z")]), Atom("r", [Variable("z"), Variable("w")]),
      CallExpr("g", [Label("x")]), CallExpr("f", [Label("x"), Label("z")]), "x", "y", "z", "w", "u")
  }

  /** f(1, 3) is false; g has no value anywhere. */
  ghost function ExampleFunctions(): Functions {
    imap[("f", [1, 3]) := 0]
  }

  function ExampleDatabase(): Database {
    map["p" := {[1, 2]}, "q" := {[2, 3]}, "r" := {[3, 4]}]
  }

  lemma TwoArgs(name: string, a: Var, b: Var)
    ensures Variables(Atom(name, [Variable(a), Variable(b)])) == {a, b}
  {
    var atom := Atom(name, [Variable(a), Variable(b)]);
    assert atom.args[0] == Variable(a) && atom.args[1] == Variable(b);
  }

  lemma ExampleFits()
    ensures Fits(Example())
  {
    var e := Example();
    TwoArgs("p", "x", "y");
    TwoArgs("q", "y", "z");
    TwoArgs("r", "z", "w");
    assert e.g.args[0] == Label("x") && e.f.args[0] == Label("x") && e.f.args[1] == Label("z");
    assert "x"[0] == 'x' && "y"[0] == 'y' && "z"[0] == 'z' && "w"[0] == 'w' && "u"[0] == 'u';
  }

  lemma OneRow(db: Database, name: string, a: Var, b: Var, m: Val, n: Val, s: Valuation)
    requires name in db && db[name] == {[m, n]}
    ensures AtomHolds(db, Atom(name, [Variable(a), Variable(b)]), s) <==> At(s, a) == m && At(s, b) == n
  {
    var atom := Atom(name, [Variable(a), Variable(b)]);
    assert Rows(db, name) == {[m, n]};
    assert Matches(atom, s, [m, n]) <==> MatchesArg(atom.args[0], s, m) && MatchesArg(atom.args[1], s, n);
  }

  lemma ExampleHides()
    ensures Hides(Example(), ExampleFunctions(), ExampleDatabase())
  {
    var e, db := Example(), ExampleDatabase();
    assert "p"[0] == 'p' && "q"[0] == 'q' && "r"[0] == 'r' && "f"[0] == 'f' && "g"[0] == 'g';
    forall s
      ensures AtomHolds(db, e.p, s) && AtomHolds(db, e.q, s) ==> Drops(ExampleFunctions(), e.f, s)
    {
      OneRow(db, "p", "x", "y", 1, 2, s);
      OneRow(db, "q", "y", "z", 2, 3, s);
      if AtomHolds(db, e.p, s) && AtomHolds(db, e.q, s) {
        assert Arguments(e.f.args, s) == [1, 3];
      }
    }
    ExampleHolds(map["x" := 1, "y" := 2, "z" := 3, "w" := 4]);
  }

  lemma ExampleHolds(s: Valuation)
    requires At(s, "x") == 1 && At(s, "y") == 2 && At(s, "z") == 3 && At(s, "w") == 4
    ensures AtomHolds(ExampleDatabase(), Example().p, s) && AtomHolds(ExampleDatabase(), Example().q, s)
    ensures AtomHolds(ExampleDatabase(), Example().r, s)
  {
    OneRow(ExampleDatabase(), "p", "x", "y", 1, 2, s);
    OneRow(ExampleDatabase(), "q", "y", "z", 2, 3, s);
    OneRow(ExampleDatabase(), "r", "z", "w", 3, 4, s);
  }

  /** Running a filter early can hide a fault. The rule is well shaped and is cut at the filter's two joins; over this
      database the rule faults, while the slice and then the rest end without a fault and without a row. */
  lemma PrefilterHidesFault()
    ensures var e := Example(); WellShaped(RuleOf(e)) && CutAt(RuleOf(e).body, CoreOf(RuleOf(e).body), {}, Call(Filter(e.f)), 2)
    ensures IsCut(CutOf(Example(), "slice")) && CutHides(Example(), ExampleFunctions(), ExampleDatabase(), "slice")
  {
    var e := Example();
    ExampleFits();
    ExampleHides();
    RuleIsWellShaped(e);
    FilterIsCut(e);
    IsACut(e, "slice");
    ExampleUnread();
    ChainHides(e, ExampleFunctions(), ExampleDatabase(), "slice");
  }

  lemma ExampleUnread()
    ensures "slice" !in ExampleDatabase() && Unread("slice", RuleOf(Example()).body)
    ensures BooleanFilters(ExampleFunctions(), RuleOf(Example()).body)
  {
    assert |"slice"| == 5;
    forall l | l in RuleOf(Example()).body && (l.Positive? || l.Negative?)
      ensures |l.atom.relation| == 1
    {
      RuleHas(Example(), l);
    }
  }

  /** The same for whatever slice one cut makes, under any name: it runs the filter, and the fault is gone. */
  lemma AnyCutHidesFault(e: Parts, functions: Functions, db: Database, c: Cut, name: string, pushed': set<CallExpr>,
                         db': Database)
    requires Hides(e, functions, db) && BooleanFilters(functions, RuleOf(e).body)
    requires CutMade(c, RuleOf(e), name, {}, pushed')
    requires Unread(name, RuleOf(e).body) && Staged(functions, c.slice, db, db')
    ensures Yields(functions, RuleOf(e), db, Fault) && !Yields(functions, c.rest, db', Fault)
  {
    RuleParts(e);
    RuleFaults(e, functions, db);
    CutRefines(functions, c, db, db');
    var k := RunsFilter(e, c, name, pushed');
    forall s | BodySolution(RelationalPart(RuleOf(e)), db, s)
      ensures !Passes(functions, c.slice, s)
    {
      var cat := RelationalPart(RuleOf(e));
      assert AtomHolds(db, cat.positives[0], s) && AtomHolds(db, cat.positives[1], s);
      assert Drops(functions, Calls(c.slice.body)[k].call, s);
    }
  }

  lemma RunsFilter(e: Parts, c: Cut, name: string, pushed': set<CallExpr>) returns (k: nat)
    requires CutMade(c, RuleOf(e), name, {}, pushed')
    ensures k < |Calls(c.slice.body)| && Calls(c.slice.body)[k] == Prefilter(e.f)
  {
    RuleParts(e);
    OnlyFilter(e);
    var call :| call in Filters(Calls(RuleOf(e).body)) && call in pushed' && call !in {};
    assert call == e.f;
    Ran(c.slice.body, Prefilter(e.f));
    k :| 0 <= k < |Calls(c.slice.body)| && Calls(c.slice.body)[k] == Prefilter(e.f);
  }

  lemma OnlyFilter(e: Parts)
    ensures Filters([Bind(e.u, e.g), Filter(e.f)]) == {e.f}
  {
    var calls := [Bind(e.u, e.g), Filter(e.f)];
    assert calls[1].Filter? && calls[1].call == e.f && !calls[0].Filter?;
  }

  lemma Ran(body: seq<Literal>, call: CallPredicate)
    requires Call(call) in body
    ensures call in Calls(body)
  {
  }
}

/** What each operator computes, as the solutions of part of a rule body. */
module Operators {
  import opened Datalog
  import opened Catalogs
  import opened Flows

  /** Part of a rule body: the positive atoms, negated atoms and comparisons it enforces, by index. */
  datatype Goal = Goal(positives: set<nat>, negatives: set<nat>, comparisons: set<nat>)

  function Union(a: Goal, b: Goal): Goal {
    Goal(a.positives + b.positives, a.negatives + b.negatives, a.comparisons + b.comparisons)
  }

  ghost predicate Satisfies(cat: Catalog, db: Database, g: Goal, s: Valuation) {
    && (forall i :: i in g.positives && i < |cat.positives| ==> AtomHolds(db, cat.positives[i], s))
    && (forall i :: i in g.negatives && i < |cat.negatives| ==> !AtomHolds(db, cat.negatives[i], s))
    && (forall i :: i in g.comparisons && i < |cat.comparisons| ==> ComparisonHolds(cat.comparisons[i], s))
  }

  /** The goal reads no variable outside `xs`. */
  ghost predicate Within(cat: Catalog, g: Goal, xs: set<Var>) {
    && (forall i :: i in g.positives && i < |cat.positives| ==> Variables(cat.positives[i]) <= xs)
    && (forall i :: i in g.negatives && i < |cat.negatives| ==> Variables(cat.negatives[i]) <= xs)
    && (forall i :: i in g.comparisons && i < |cat.comparisons| ==> ComparisonVariables(cat.comparisons[i]) <= xs)
  }

  /** The relations are as wide as the rule reads them. */
  ghost predicate Typed(cat: Catalog, db: Database) {
    && (forall i :: 0 <= i < |cat.positives| ==> Fits(db, cat.positives[i]))
    && (forall i :: 0 <= i < |cat.negatives| ==> Fits(db, cat.negatives[i]))
  }

  /** The record a valuation stands for in a collection. */
  function Shown(cat: Catalog, output: Collection, s: Valuation): Record {
    Record(Image(s, Names(cat, output.keys)), Image(s, Names(cat, output.values)))
  }

  ghost predicate Derives(cat: Catalog, db: Database, g: Goal, output: Collection, rec: Record) {
    exists s :: Satisfies(cat, db, g, s) && rec == Shown(cat, output, s)
  }

  /** Over every database, the transformation's records are exactly the projections of the goal's solutions. */
  ghost predicate Computes(cat: Catalog, t: Transformation, g: Goal) {
    forall db, rec :: Typed(cat, db) ==> (rec in Eval(t, db) <==> Derives(cat, db, g, t.output, rec))
  }

  lemma SatisfiesAgrees(cat: Catalog, db: Database, g: Goal, s: Valuation, t: Valuation, xs: set<Var>)
    requires Within(cat, g, xs) && AgreeOn(s, t, xs) && Satisfies(cat, db, g, s)
    ensures Satisfies(cat, db, g, t)
  {
    forall i | i in g.positives && i < |cat.positives|
      ensures AtomHolds(db, cat.positives[i], t)
    {
      AtomHoldsAgrees(db, cat.positives[i], s, t);
    }
    forall i | i in g.negatives && i < |cat.negatives|
      ensures !AtomHolds(db, cat.negatives[i], t)
    {
      AtomHoldsAgrees(db, cat.negatives[i], s, t);
    }
    forall i | i in g.comparisons && i < |cat.comparisons|
      ensures ComparisonHolds(cat.comparisons[i], t)
    {
      ComparisonHoldsAgrees(cat.comparisons[i], s, t);
    }
  }

  /* ------------------------------------------------------------------ */
  /* Comparisons                                                          */
  /* ------------------------------------------------------------------ */

  /** `b` is `a` with every variable replaced by a place holding it. */
  predicate Traces(cat: Catalog, a: Arithmetic<Var>, b: Arithmetic<Signature>) {
    Names(cat, Labels(b)) == Labels(a) && b == Relabel(a, Labels(b))
  }

  predicate TracesComparison(cat: Catalog, c: Comparison<Var>, d: Comparison<Signature>) {
    Traces(cat, c.left, d.left) && c.operator == d.operator && Traces(cat, c.right, d.right)
  }

  predicate TracesAll(cat: Catalog, ids: seq<nat>, ds: seq<Comparison<Signature>>) {
    |ids| == |ds| && forall i :: 0 <= i < |ids| ==> ids[i] < |cat.comparisons| && TracesComparison(cat, cat.comparisons[ids[i]], ds[i])
  }

  lemma FlowEvaluate(cat: Catalog, a: Arithmetic<Var>, b: Arithmetic<Signature>, m: FlowMap, env: FlowArg -> Val,
                     s: Valuation)
    requires Traces(cat, a, b) && forall sig :: sig in Labels(b) ==> sig in m && env(m[sig]) == At(s, NameOf(cat, sig))
    ensures Evaluate(Relabel(b, FlowOverSignatures(m, Labels(b))), env) == Evaluate(a, Env(s))
  {
    var fs := FlowOverSignatures(m, Labels(b));
    RelabelEvaluate(b, fs, sig => At(s, NameOf(cat, sig)), env);
    RelabelEvaluate(a, Labels(b), Env(s), sig => At(s, NameOf(cat, sig)));
  }

  lemma FlowHolds(cat: Catalog, c: Comparison<Var>, d: Comparison<Signature>, m: FlowMap, env: FlowArg -> Val,
                  s: Valuation)
    requires TracesComparison(cat, c, d) && CanFlow(m, d)
    requires forall sig :: sig in Labels(d.left) || sig in Labels(d.right) ==> env(m[sig]) == At(s, NameOf(cat, sig))
    ensures Holds(FlowComparison(m, d), env) <==> ComparisonHolds(c, s)
  {
    FlowEvaluate(cat, c.left, d.left, m, env, s);
    FlowEvaluate(cat, c.right, d.right, m, env, s);
  }

  /** The columns of `m` hold what `s` assigns to the variables they stand for. */
  ghost predicate Reads(cat: Catalog, m: FlowMap, env: FlowArg -> Val, s: Valuation) {
    forall sig :: sig in m ==> env(m[sig]) == At(s, NameOf(cat, sig))
  }

  lemma FlowAllHold(cat: Catalog, ids: seq<nat>, ds: seq<Comparison<Signature>>, m: FlowMap, env: FlowArg -> Val,
                    s: Valuation)
    requires TracesAll(cat, ids, ds) && (forall d :: d in ds ==> CanFlow(m, d)) && Reads(cat, m, env, s)
    ensures AllHold(FlowComparisons(m, ds), env) <==> forall i :: i in ids ==> ComparisonHolds(cat.comparisons[i], s)
  {
    var fs := FlowComparisons(m, ds);
    forall k | 0 <= k < |ids|
      ensures Holds(fs[k], env) <==> ComparisonHolds(cat.comparisons[ids[k]], s)
    {
      FlowHolds(cat, cat.comparisons[ids[k]], ds[k], m, env, s);
    }
  }

  /* ------------------------------------------------------------------ */
  /* Leaf: a base atom                                                     */
  /* ------------------------------------------------------------------ */

  /** The filter of an atom's own arguments. */
  predicate PassesArgs(atom: Atom, row: Row) {
    && |row| == |atom.args|
    && (forall i :: 0 <= i < |row| && atom.args[i].Constant? ==> row[i] == atom.args[i].value)
    && (forall i :: 0 <= i < |row| && atom.args[i].Variable? ==> row[i] == row[First(atom.args, atom.args[i].name)])
  }

  /** What a row says about the variables of an atom. */
  function Bindings(atom: Atom, row: Row): Valuation
    requires |row| == |atom.args|
  {
    map x | x in Variables(atom) :: row[First(atom.args, x)]
  }

  lemma MatchesIffPasses(atom: Atom, row: Row)
    requires |row| == |atom.args|
    ensures PassesArgs(atom, row) ==> Matches(atom, Bindings(atom, row), row)
    ensures forall s :: Matches(atom, s, row) ==> PassesArgs(atom, row)
  {
    forall s | Matches(atom, s, row)
      ensures PassesArgs(atom, row)
    {
      forall i | 0 <= i < |row| && atom.args[i].Variable?
        ensures row[i] == row[First(atom.args, atom.args[i].name)]
      {
        assert MatchesArg(atom.args[i], s, row[i]);
        assert MatchesArg(atom.args[First(atom.args, atom.args[i].name)], s, row[First(atom.args, atom.args[i].name)]);
      }
      forall i | 0 <= i < |row| && atom.args[i].Constant?
        ensures row[i] == atom.args[i].value
      {
        assert MatchesArg(atom.args[i], s, row[i]);
      }
    }
  }

  lemma ConstantsPass(cat: Catalog, positive: bool, rhs: nat, output: Collection, ds: seq<Comparison<Signature>>,
                      row: Row)
    requires LeafOk(cat, positive, rhs, output, ds) && |row| == |Atoms(cat, positive)[rhs].args|
    ensures var atom := Atoms(cat, positive)[rhs];
      ConstantsHold(KvToKv(cat, positive, rhs, output, ds).flow.constants, RowEnv(row))
      <==> forall i :: 0 <= i < |row| && atom.args[i].Constant? ==> row[i] == atom.args[i].value
  {
    var atom, constants := Atoms(cat, positive)[rhs], KvToKv(cat, positive, rhs, output, ds).flow.constants;
    var cs := ConstPositions(atom);
    assert |constants| == |cs|;
    forall k | 0 <= k < |cs|
      ensures constants[k] == (KV(true, cs[k]), atom.args[cs[k]].value) && RowEnv(row)(constants[k].0) == row[cs[k]]
    {
      assert cs[k] in cs;
    }
    if ConstantsHold(constants, RowEnv(row)) {
      forall i: nat | i < |row| && atom.args[i].Constant?
        ensures row[i] == atom.args[i].value
      {
        assert i in cs;
        var k :| 0 <= k < |cs| && cs[k] == i;
        assert constants[k] == (KV(true, i), atom.args[i].value);
      }
    }
  }

  lemma RepeatsPass(cat: Catalog, positive: bool, rhs: nat, output: Collection, ds: seq<Comparison<Signature>>,
                    row: Row)
    requires LeafOk(cat, positive, rhs, output, ds) && |row| == |Atoms(cat, positive)[rhs].args|
    ensures var atom := Atoms(cat, positive)[rhs];
      EqualitiesHold(KvToKv(cat, positive, rhs, output, ds).flow.equalities, RowEnv(row))
      <==> forall i :: 0 <= i < |row| && atom.args[i].Variable? ==> row[i] == row[First(atom.args, atom.args[i].name)]
  {
    var atom, equalities := Atoms(cat, positive)[rhs], KvToKv(cat, positive, rhs, output, ds).flow.equalities;
    forall k | 0 <= k < |equalities|
      ensures ComparesRepeat(atom, RepeatPositions(atom)[k], equalities[k])
    {
      assert RepeatPositions(atom)[k] in RepeatPositions(atom);
    }
    EqualColumns(atom, RepeatPositions(atom), equalities, row);
  }

  /** An equality between a variable's first column and one of its repeats. */
  ghost predicate ComparesRepeat(atom: Atom, e: nat, equality: (FlowArg, FlowArg)) {
    && e < |atom.args| && atom.args[e].Variable?
    && equality == (KV(true, First(atom.args, atom.args[e].name)), KV(true, e))
  }

  /** Comparing every repeat with its variable's first column makes all columns of a variable equal. */
  lemma EqualColumns(atom: Atom, es: seq<nat>, equalities: seq<(FlowArg, FlowArg)>, row: Row)
    requires |row| == |atom.args| && es == RepeatPositions(atom) && |equalities| == |es|
    requires forall k :: 0 <= k < |equalities| ==> ComparesRepeat(atom, es[k], equalities[k])
    ensures EqualitiesHold(equalities, RowEnv(row))
      <==> forall i :: 0 <= i < |row| && atom.args[i].Variable? ==> row[i] == row[First(atom.args, atom.args[i].name)]
  {
    forall k | 0 <= k < |es|
      ensures ComparesRepeat(atom, es[k], equalities[k])
      ensures RowEnv(row)(equalities[k].0) == row[First(atom.args, atom.args[es[k]].name)]
      ensures RowEnv(row)(equalities[k].1) == row[es[k]]
    {
    }
    if EqualitiesHold(equalities, RowEnv(row)) {
      forall i: nat | i < |row| && atom.args[i].Variable? && First(atom.args, atom.args[i].name) != i
        ensures row[i] == row[First(atom.args, atom.args[i].name)]
      {
        assert i in es;
        var k :| 0 <= k < |es| && es[k] == i;
        assert RowEnv(row)(equalities[k].0) == RowEnv(row)(equalities[k].1);
      }
    }
  }

  /** Under a matching valuation, the columns of a base row hold its values. */
  lemma LeafReads(cat: Catalog, positive: bool, rhs: nat, sigs: seq<Signature>, row: Row, s: Valuation)
    requires rhs < |Atoms(cat, positive)| && OfAtom(cat, positive, rhs, sigs)
    requires Matches(Atoms(cat, positive)[rhs], s, row)
    ensures forall sig :: sig in sigs ==> sig in AtomFlowMap(cat, positive, rhs) && RowEnv(row)(AtomFlowMap(cat, positive, rhs)[sig]) == At(s, NameOf(cat, sig))
  {
    OfAtomArguments(cat, positive, rhs, sigs);
    forall sig | sig in sigs
      ensures RowEnv(row)(AtomFlowMap(cat, positive, rhs)[sig]) == At(s, NameOf(cat, sig))
    {
      assert sig == Signature(positive, rhs, sig.arg);
      assert MatchesArg(Atoms(cat, positive)[rhs].args[sig.arg], s, row[sig.arg]);
    }
  }

  lemma LeafComparisons(cat: Catalog, positive: bool, rhs: nat, output: Collection, ids: seq<nat>,
                        ds: seq<Comparison<Signature>>, row: Row, s: Valuation)
    requires LeafOk(cat, positive, rhs, output, ds) && TracesAll(cat, ids, ds)
    requires Matches(Atoms(cat, positive)[rhs], s, row)
    ensures AllHold(KvToKv(cat, positive, rhs, output, ds).flow.compares, RowEnv(row)) <==> forall i :: i in ids ==>
      ComparisonHolds(cat.comparisons[i], s)
  {
    LeafCanFlow(cat, positive, rhs, output, ds);
    var fs := FlowComparisons(AtomFlowMap(cat, positive, rhs), ds);
    forall k | 0 <= k < |ids|
      ensures Holds(fs[k], RowEnv(row)) <==> ComparisonHolds(cat.comparisons[ids[k]], s)
    {
      assert ds[k] in ds;
      LeafReads(cat, positive, rhs, Labels(ds[k].left), row, s);
      LeafReads(cat, positive, rhs, Labels(ds[k].right), row, s);
      FlowHolds(cat, cat.comparisons[ids[k]], ds[k], AtomFlowMap(cat, positive, rhs), RowEnv(row), s);
    }
  }

  lemma LeafLaid(cat: Catalog, positive: bool, rhs: nat, output: Collection, ds: seq<Comparison<Signature>>, row: Row,
                 s: Valuation)
    requires LeafOk(cat, positive, rhs, output, ds) && Matches(Atoms(cat, positive)[rhs], s, row)
    ensures Laid(KvToKv(cat, positive, rhs, output, ds).flow, RowEnv(row)) == Shown(cat, output, s)
  {
    LeafReads(cat, positive, rhs, output.keys + output.values, row, s);
    var rec := Laid(KvToKv(cat, positive, rhs, output, ds).flow, RowEnv(row));
    assert forall i :: 0 <= i < |output.keys| ==> output.keys[i] in output.keys + output.values;
    assert forall i :: 0 <= i < |output.values| ==> output.values[i] in output.keys + output.values;
    assert rec.key == Image(s, Names(cat, output.keys));
    assert rec.value == Image(s, Names(cat, output.values));
  }

  /** The solutions of one atom and the comparisons pushed to it. */
  ghost predicate LeafSolution(cat: Catalog, db: Database, positive: bool, rhs: nat, ids: seq<nat>, s: Valuation)
    requires rhs < |Atoms(cat, positive)| && forall i :: i in ids ==> i < |cat.comparisons|
  {
    AtomHolds(db, Atoms(cat, positive)[rhs], s) && forall i :: i in ids ==> ComparisonHolds(cat.comparisons[i], s)
  }

  /** A leaf computes the solutions of its atom and comparisons, positive or negated. */
  lemma LeafComputes(cat: Catalog, db: Database, positive: bool, rhs: nat, output: Collection, ids: seq<nat>,
                     ds: seq<Comparison<Signature>>, rec: Record)
    requires LeafOk(cat, positive, rhs, output, ds) && TracesAll(cat, ids, ds) && Typed(cat, db)
    ensures rec in Eval(KvToKv(cat, positive, rhs, output, ds), db) <==>
      exists s :: LeafSolution(cat, db, positive, rhs, ids, s) && rec == Shown(cat, output, s)
  {
    var atom, t := Atoms(cat, positive)[rhs], KvToKv(cat, positive, rhs, output, ds);
    if rec in Eval(t, db) {
      var row :| row in Rows(db, atom.relation) && Passes(t.flow, RowEnv(row)) && rec == Laid(t.flow, RowEnv(row));
      var s := Bindings(atom, row);
      ConstantsPass(cat, positive, rhs, output, ds, row);
      RepeatsPass(cat, positive, rhs, output, ds, row);
      MatchesIffPasses(atom, row);
      LeafComparisons(cat, positive, rhs, output, ids, ds, row, s);
      LeafLaid(cat, positive, rhs, output, ds, row, s);
      assert LeafSolution(cat, db, positive, rhs, ids, s);
    }
    if s :| LeafSolution(cat, db, positive, rhs, ids, s) && rec == Shown(cat, output, s) {
      var row :| row in Rows(db, atom.relation) && Matches(atom, s, row);
      MatchesIffPasses(atom, row);
      ConstantsPass(cat, positive, rhs, output, ds, row);
      RepeatsPass(cat, positive, rhs, output, ds, row);
      LeafComparisons(cat, positive, rhs, output, ids, ds, row, s);
      LeafLaid(cat, positive, rhs, output, ds, row, s);
      assert Passes(t.flow, RowEnv(row));
    }
  }

  function Indices(ids: seq<nat>): set<nat> {
    set i | i in ids
  }

  lemma LeafSolutionSatisfies(cat: Catalog, db: Database, rhs: nat, ids: seq<nat>, s: Valuation)
    requires rhs < |cat.positives| && forall i :: i in ids ==> i < |cat.comparisons|
    ensures LeafSolution(cat, db, true, rhs, ids, s) <==> Satisfies(cat, db, Goal({rhs}, {}, Indices(ids)), s)
  {
  }

  /** A positive leaf, as a goal. */
  lemma LeafGoal(cat: Catalog, rhs: nat, output: Collection, ids: seq<nat>, ds: seq<Comparison<Signature>>)
    requires LeafOk(cat, true, rhs, output, ds) && TracesAll(cat, ids, ds)
    ensures Computes(cat, KvToKv(cat, true, rhs, output, ds), Goal({rhs}, {}, Indices(ids)))
  {
    var t, g := KvToKv(cat, true, rhs, output, ds), Goal({rhs}, {}, Indices(ids));
    forall db, rec | Typed(cat, db)
      ensures rec in Eval(t, db) <==> Derives(cat, db, g, t.output, rec)
    {
      LeafDerives(cat, db, rhs, output, ids, ds, rec);
    }
  }

  lemma LeafDerives(cat: Catalog, db: Database, rhs: nat, output: Collection, ids: seq<nat>,
                    ds: seq<Comparison<Signature>>, rec: Record)
    requires LeafOk(cat, true, rhs, output, ds) && TracesAll(cat, ids, ds) && Typed(cat, db)
    ensures rec in Eval(KvToKv(cat, true, rhs, output, ds), db) <==>
      Derives(cat, db, Goal({rhs}, {}, Indices(ids)), output, rec)
  {
    var g := Goal({rhs}, {}, Indices(ids));
    LeafComputes(cat, db, true, rhs, output, ids, ds, rec);
    if s :| LeafSolution(cat, db, true, rhs, ids, s) && rec == Shown(cat, output, s) {
      LeafSolutionSatisfies(cat, db, rhs, ids, s);
    }
    if Derives(cat, db, g, output, rec) {
      var s :| Satisfies(cat, db, g, s) && rec == Shown(cat, output, s);
      LeafSolutionSatisfies(cat, db, rhs, ids, s);
    }
  }

  /* ------------------------------------------------------------------ */
  /* Join                                                                  */
  /* ------------------------------------------------------------------ */

  /** Two records of one valuation, joined: every column of the join map holds its variable. */
  lemma JoinReads(cat: Catalog, left: Collection, right: Collection, l: Record, r: Record, s: Valuation)
    requires l == Shown(cat, left, s) && r.value == Image(s, Names(cat, right.values))
    ensures Reads(cat, JoinArgumentFlowMap(left, right), PairEnv(l.key, l.value, r.value), s)
  {
  }

  /** Two records that agree on their key come from one valuation. */
  lemma JoinCombine(cat: Catalog, db: Database, left: Collection, right: Collection, L: Goal, R: Goal, xs: set<Var>,
                    ys: set<Var>, l: Record, r: Record) returns (s: Valuation)
    requires Within(cat, L, xs) && Within(cat, R, ys)
    requires Names(cat, left.keys) == Names(cat, right.keys)
    requires forall x :: x in Names(cat, left.keys) || x in Names(cat, left.values) ==> x in xs
    requires forall x :: x in Names(cat, right.values) ==> x in ys
    requires forall x :: x in xs && x in ys ==> x in Names(cat, left.keys)
    requires Derives(cat, db, L, left, l) && Derives(cat, db, R, right, r) && l.key == r.key
    ensures Satisfies(cat, db, L, s) && Satisfies(cat, db, R, s)
    ensures l == Shown(cat, left, s) && r == Shown(cat, right, s)
  {
    var a :| Satisfies(cat, db, L, a) && l == Shown(cat, left, a);
    var b :| Satisfies(cat, db, R, b) && r == Shown(cat, right, b);
    s := Combine(a, b, xs);
    SatisfiesAgrees(cat, db, L, a, s, xs);
    assert AgreeOn(b, s, ys) by {
      forall x | x in ys
        ensures At(b, x) == At(s, x)
      {
        if x in xs {
          ImageDetermines(a, b, Names(cat, left.keys), x);
        }
      }
    }
    SatisfiesAgrees(cat, db, R, b, s, ys);
    ImageAgrees(a, s, Names(cat, left.keys));
    ImageAgrees(a, s, Names(cat, left.values));
    ImageAgrees(b, s, Names(cat, right.values));
  }

  lemma ImageAgrees(s: Valuation, t: Valuation, xs: seq<Var>)
    requires forall x :: x in xs ==> At(s, x) == At(t, x)
    ensures Image(s, xs) == Image(t, xs)
  {
  }

  lemma ImageDetermines(s: Valuation, t: Valuation, xs: seq<Var>, x: Var)
    requires Image(s, xs) == Image(t, xs) && x in xs
    ensures At(s, x) == At(t, x)
  {
    var i :| 0 <= i < |xs| && xs[i] == x;
    assert Image(s, xs)[i] == Image(t, xs)[i];
  }

  lemma JoinLaid(cat: Catalog, left: Transformation, right: Transformation, output: Collection, ids: seq<nat>,
                 ds: seq<Comparison<Signature>>, l: Record, r: Record, s: Valuation)
    requires forall sig :: sig in output.keys + output.values ==> sig in JoinArgumentFlowMap(left.output, right.output)
    requires forall d :: d in ds ==> CanFlow(JoinArgumentFlowMap(left.output, right.output), d)
    requires TracesAll(cat, ids, ds)
    requires l == Shown(cat, left.output, s) && r.value == Image(s, Names(cat, right.output.values))
    ensures var flow := JoinFlow(left.output, right.output, output, ds);
      && Laid(flow, PairEnv(l.key, l.value, r.value)) == Shown(cat, output, s)
      && (AllHold(flow.compares, PairEnv(l.key, l.value, r.value)) <==> forall i :: i in ids ==> ComparisonHolds(cat.comparisons[i], s))
  {
    var m, env := JoinArgumentFlowMap(left.output, right.output), PairEnv(l.key, l.value, r.value);
    JoinReads(cat, left.output, right.output, l, r, s);
    FlowAllHold(cat, ids, ds, m, env, s);
    var rec := Laid(JoinFlow(left.output, right.output, output, ds), env);
    assert forall i :: 0 <= i < |output.keys| ==> output.keys[i] in output.keys + output.values;
    assert forall i :: 0 <= i < |output.values| ==> output.values[i] in output.keys + output.values;
    assert rec.key == Image(s, Names(cat, output.keys));
    assert rec.value == Image(s, Names(cat, output.values));
  }

  /** Everything a binary operator needs of its operands. */
  ghost predicate Joinable(cat: Catalog, left: Transformation, right: Transformation, L: Goal, R: Goal, xs: set<Var>,
                           ys: set<Var>)
  {
    && Computes(cat, left, L) && Computes(cat, right, R)
    && Within(cat, L, xs) && Within(cat, R, ys)
    && Names(cat, left.output.keys) == Names(cat, right.output.keys)
    && (forall x :: x in Names(cat, left.output.keys) || x in Names(cat, left.output.values) ==> x in xs)
    && (forall x :: x in Names(cat, right.output.values) ==> x in ys)
    && (forall x :: x in xs && x in ys ==> x in Names(cat, left.output.keys))
  }

  /** A joined record comes from two records with one key that pass the join's comparisons. */
  lemma Joined(t: Transformation, db: Database, rec: Record) returns (l: Record, r: Record)
    requires t.Join? && rec in Eval(t, db)
    ensures l in Eval(t.left, db) && r in Eval(t.right, db) && l.key == r.key
    ensures AllHold(t.flow.compares, PairEnv(l.key, l.value, r.value))
    ensures rec == Laid(t.flow, PairEnv(l.key, l.value, r.value))
  {
    l, r :| l in Eval(t.left, db) && r in Eval(t.right, db) && l.key == r.key
      && AllHold(t.flow.compares, PairEnv(l.key, l.value, r.value))
      && rec == Laid(t.flow, PairEnv(l.key, l.value, r.value));
  }

  /** A join (or semijoin) of two sides that share exactly their key variables computes both goals together. */
  lemma JoinComputes(cat: Catalog, left: Transformation, right: Transformation, L: Goal, R: Goal, xs: set<Var>,
                     ys: set<Var>,
                     output: Collection, ids: seq<nat>, ds: seq<Comparison<Signature>>)
    requires Joinable(cat, left, right, L, R, xs, ys)
    requires forall sig :: sig in output.keys + output.values ==> sig in JoinArgumentFlowMap(left.output, right.output)
    requires forall d :: d in ds ==> CanFlow(JoinArgumentFlowMap(left.output, right.output), d)
    requires TracesAll(cat, ids, ds)
    ensures Computes(cat, MakeJoin(left, right, output, ds), Union(Union(L, R), Goal({}, {}, Indices(ids))))
  {
    var t, g := MakeJoin(left, right, output, ds), Union(Union(L, R), Goal({}, {}, Indices(ids)));
    forall db, rec | Typed(cat, db)
      ensures rec in Eval(t, db) <==> Derives(cat, db, g, t.output, rec)
    {
      if rec in Eval(t, db) {
        var l, r := Joined(t, db, rec);
        JoinSound(cat, db, left, right, L, R, xs, ys, output, ids, ds, l, r);
      }
      if Derives(cat, db, g, t.output, rec) {
        var s :| Satisfies(cat, db, g, s) && rec == Shown(cat, output, s);
        JoinComplete(cat, db, left, right, L, R, xs, ys, output, ids, ds, s);
      }
    }
  }

  lemma JoinSound(cat: Catalog, db: Database, left: Transformation, right: Transformation, L: Goal, R: Goal,
                  xs: set<Var>, ys: set<Var>,
                  output: Collection, ids: seq<nat>, ds: seq<Comparison<Signature>>, l: Record, r: Record)
    requires Joinable(cat, left, right, L, R, xs, ys) && Typed(cat, db)
    requires forall sig :: sig in output.keys + output.values ==> sig in JoinArgumentFlowMap(left.output, right.output)
    requires forall d :: d in ds ==> CanFlow(JoinArgumentFlowMap(left.output, right.output), d)
    requires TracesAll(cat, ids, ds)
    requires l in Eval(left, db) && r in Eval(right, db) && l.key == r.key
    requires AllHold(JoinFlow(left.output, right.output, output, ds).compares, PairEnv(l.key, l.value, r.value))
    ensures Derives(cat, db, Union(Union(L, R), Goal({}, {}, Indices(ids))), output,
                    Laid(JoinFlow(left.output, right.output, output, ds), PairEnv(l.key, l.value, r.value)))
  {
    var s := JoinCombine(cat, db, left.output, right.output, L, R, xs, ys, l, r);
    JoinLaid(cat, left, right, output, ids, ds, l, r, s);
    SatisfiesUnion(cat, db, L, R, ids, s);
  }

  lemma ShownIn(cat: Catalog, db: Database, t: Transformation, g: Goal, s: Valuation)
    requires Computes(cat, t, g) && Typed(cat, db) && Satisfies(cat, db, g, s)
    ensures Shown(cat, t.output, s) in Eval(t, db)
  {
    assert Derives(cat, db, g, t.output, Shown(cat, t.output, s));
  }

  lemma JoinComplete(cat: Catalog, db: Database, left: Transformation, right: Transformation, L: Goal, R: Goal,
                     xs: set<Var>, ys: set<Var>,
                     output: Collection, ids: seq<nat>, ds: seq<Comparison<Signature>>, s: Valuation)
    requires Joinable(cat, left, right, L, R, xs, ys) && Typed(cat, db)
    requires forall sig :: sig in output.keys + output.values ==> sig in JoinArgumentFlowMap(left.output, right.output)
    requires forall d :: d in ds ==> CanFlow(JoinArgumentFlowMap(left.output, right.output), d)
    requires TracesAll(cat, ids, ds)
    requires Satisfies(cat, db, Union(Union(L, R), Goal({}, {}, Indices(ids))), s)
    ensures Shown(cat, output, s) in Eval(MakeJoin(left, right, output, ds), db)
  {
    var l, r := Shown(cat, left.output, s), Shown(cat, right.output, s);
    SatisfiesUnion(cat, db, L, R, ids, s);
    ShownIn(cat, db, left, L, s);
    ShownIn(cat, db, right, R, s);
    JoinLaid(cat, left, right, output, ids, ds, l, r, s);
  }

  lemma SatisfiesUnion(cat: Catalog, db: Database, L: Goal, R: Goal, ids: seq<nat>, s: Valuation)
    requires forall i :: i in ids ==> i < |cat.comparisons|
    ensures Satisfies(cat, db, Union(Union(L, R), Goal({}, {}, Indices(ids))), s) <==>
      Satisfies(cat, db, L, s) && Satisfies(cat, db, R, s) && forall i :: i in ids ==> ComparisonHolds(cat.comparisons[i], s)
  {
    if Satisfies(cat, db, Union(Union(L, R), Goal({}, {}, Indices(ids))), s) {
      assert forall i :: i in ids ==> i in Indices(ids);
    }
  }

  /* ------------------------------------------------------------------ */
  /* Antijoin                                                              */
  /* ------------------------------------------------------------------ */

  /** The layout of a negated atom: keyed by its variables, nothing beside them. */
  function NegatedCollection(cat: Catalog, rhs: nat): Collection
    requires rhs < |cat.negatives|
  {
    Collection(VarSignatures(cat, false, rhs), [])
  }

  lemma NegatedShown(cat: Catalog, rhs: nat, s: Valuation)
    requires rhs < |cat.negatives|
    ensures Shown(cat, NegatedCollection(cat, rhs), s) == Record(Image(s, OrderedVariables(cat.negatives[rhs])), [])
  {
  }

  /** The negated side has a valuation's key exactly when the negated atom matches it: filtering that side
      by comparisons the valuation already satisfies removes nothing that matters. */
  lemma NegatedKey(cat: Catalog, db: Database, rhs: nat, ids: seq<nat>, ds: seq<Comparison<Signature>>, s: Valuation)
    requires rhs < |cat.negatives| && Typed(cat, db) && TracesAll(cat, ids, ds)
    requires LeafOk(cat, false, rhs, NegatedCollection(cat, rhs), ds)
    requires forall i :: i in ids ==> ComparisonHolds(cat.comparisons[i], s)
    ensures Record(Image(s, OrderedVariables(cat.negatives[rhs])), []) in Eval(KvToKv(cat, false, rhs, NegatedCollection(cat, rhs), ds), db)
      <==> AtomHolds(db, cat.negatives[rhs], s)
  {
    var atom, output := cat.negatives[rhs], NegatedCollection(cat, rhs);
    var rec := Record(Image(s, OrderedVariables(atom)), []);
    NegatedShown(cat, rhs, s);
    LeafComputes(cat, db, false, rhs, output, ids, ds, rec);
    if AtomHolds(db, atom, s) {
      assert LeafSolution(cat, db, false, rhs, ids, s);
    }
    if rec in Eval(KvToKv(cat, false, rhs, output, ds), db) {
      var u :| LeafSolution(cat, db, false, rhs, ids, u) && rec == Shown(cat, output, u);
      NegatedShown(cat, rhs, u);
      forall x | x in Variables(atom)
        ensures At(u, x) == At(s, x)
      {
        ImageDetermines(u, s, OrderedVariables(atom), x);
      }
      AtomHoldsAgrees(db, atom, u, s);
    }
  }

  /** A record survives exactly when the negated side lacks its key. */
  lemma AntijoinSurvivors(t: Transformation, db: Database, rec: Record)
    requires t.Antijoin?
    ensures rec in Eval(t, db) <==>
      exists l :: l in Eval(t.left, db) && (forall r :: r in Eval(t.right, db) ==> r.key != l.key) && rec == Laid(t.flow, PairEnv(l.key, l.value, []))
  {
    var matched := set l, r | l in Eval(t.left, db) && r in Eval(t.right, db) && l.key == r.key :: l;
    assert forall l :: l in Eval(t.left, db) ==> (l in matched <==> exists r :: r in Eval(t.right, db) && r.key == l.key);
  }

  /** An antijoin keyed by a negated atom's variables keeps exactly the solutions the atom does not match. */
  lemma AntijoinComputes(cat: Catalog, left: Transformation, L: Goal, rhs: nat, output: Collection, ids: seq<nat>,
                         ds: seq<Comparison<Signature>>)
    requires rhs < |cat.negatives| && TracesAll(cat, ids, ds)
    requires LeafOk(cat, false, rhs, NegatedCollection(cat, rhs), ds)
    requires Computes(cat, left, L) && Indices(ids) <= L.comparisons
    requires Names(cat, left.output.keys) == OrderedVariables(cat.negatives[rhs])
    requires forall sig :: sig in output.keys + output.values ==>
      sig in JoinArgumentFlowMap(left.output, NegatedCollection(cat, rhs))
    ensures Computes(cat, MakeAntijoin(left, KvToKv(cat, false, rhs, NegatedCollection(cat, rhs), ds), output), Union(L, Goal({}, {rhs}, {})))
  {
    var right := KvToKv(cat, false, rhs, NegatedCollection(cat, rhs), ds);
    var t, g := MakeAntijoin(left, right, output), Union(L, Goal({}, {rhs}, {}));
    forall db, rec | Typed(cat, db)
      ensures rec in Eval(t, db) <==> Derives(cat, db, g, t.output, rec)
    {
      if rec in Eval(t, db) {
        AntijoinSound(cat, db, left, L, rhs, output, ids, ds, rec);
      }
      if Derives(cat, db, g, t.output, rec) {
        var s :| Satisfies(cat, db, g, s) && rec == Shown(cat, output, s);
        AntijoinComplete(cat, db, left, L, rhs, output, ids, ds, s);
      }
    }
  }

  lemma AntijoinSound(cat: Catalog, db: Database, left: Transformation, L: Goal, rhs: nat, output: Collection,
                      ids: seq<nat>, ds: seq<Comparison<Signature>>, rec: Record)
    requires rhs < |cat.negatives| && TracesAll(cat, ids, ds) && Typed(cat, db)
    requires LeafOk(cat, false, rhs, NegatedCollection(cat, rhs), ds)
    requires Computes(cat, left, L) && Indices(ids) <= L.comparisons
    requires Names(cat, left.output.keys) == OrderedVariables(cat.negatives[rhs])
    requires forall sig :: sig in output.keys + output.values ==>
      sig in JoinArgumentFlowMap(left.output, NegatedCollection(cat, rhs))
    requires rec in Eval(MakeAntijoin(left, KvToKv(cat, false, rhs, NegatedCollection(cat, rhs), ds), output), db)
    ensures Derives(cat, db, Union(L, Goal({}, {rhs}, {})), output, rec)
  {
    var right := KvToKv(cat, false, rhs, NegatedCollection(cat, rhs), ds);
    var t := MakeAntijoin(left, right, output);
    AntijoinSurvivors(t, db, rec);
    var l :| l in Eval(left, db) && (forall r :: r in Eval(right, db) ==> r.key != l.key) && rec == Laid(t.flow, PairEnv(l.key, l.value, []));
    var s := ShownAs(cat, db, left, L, l);
    AntijoinStep(cat, db, left, L, rhs, output, ids, ds, s);
  }

  lemma ShownAs(cat: Catalog, db: Database, t: Transformation, g: Goal, rec: Record) returns (s: Valuation)
    requires Computes(cat, t, g) && Typed(cat, db) && rec in Eval(t, db)
    ensures Satisfies(cat, db, g, s) && rec == Shown(cat, t.output, s)
  {
    assert Derives(cat, db, g, t.output, rec);
    s :| Satisfies(cat, db, g, s) && rec == Shown(cat, t.output, s);
  }

  lemma AntijoinComplete(cat: Catalog, db: Database, left: Transformation, L: Goal, rhs: nat, output: Collection,
                         ids: seq<nat>, ds: seq<Comparison<Signature>>, s: Valuation)
    requires rhs < |cat.negatives| && TracesAll(cat, ids, ds) && Typed(cat, db)
    requires LeafOk(cat, false, rhs, NegatedCollection(cat, rhs), ds)
    requires Computes(cat, left, L) && Indices(ids) <= L.comparisons
    requires Names(cat, left.output.keys) == OrderedVariables(cat.negatives[rhs])
    requires forall sig :: sig in output.keys + output.values ==>
      sig in JoinArgumentFlowMap(left.output, NegatedCollection(cat, rhs))
    requires Satisfies(cat, db, Union(L, Goal({}, {rhs}, {})), s)
    ensures Shown(cat, output, s) in Eval(MakeAntijoin(left, KvToKv(cat, false, rhs, NegatedCollection(cat, rhs), ds), output), db)
  {
    var right := KvToKv(cat, false, rhs, NegatedCollection(cat, rhs), ds);
    SatisfiesNegated(cat, db, L, rhs, s);
    AntijoinStep(cat, db, left, L, rhs, output, ids, ds, s);
    ShownIn(cat, db, left, L, s);
    AntijoinSurvivors(MakeAntijoin(left, right, output), db, Shown(cat, output, s));
  }

  lemma AntijoinStep(cat: Catalog, db: Database, left: Transformation, L: Goal, rhs: nat, output: Collection,
                     ids: seq<nat>, ds: seq<Comparison<Signature>>, s: Valuation)
    requires rhs < |cat.negatives| && TracesAll(cat, ids, ds) && Typed(cat, db)
    requires LeafOk(cat, false, rhs, NegatedCollection(cat, rhs), ds)
    requires Indices(ids) <= L.comparisons && Satisfies(cat, db, L, s)
    requires Names(cat, left.output.keys) == OrderedVariables(cat.negatives[rhs])
    requires forall sig :: sig in output.keys + output.values ==>
      sig in JoinArgumentFlowMap(left.output, NegatedCollection(cat, rhs))
    ensures var right, l := KvToKv(cat, false, rhs, NegatedCollection(cat, rhs), ds), Shown(cat, left.output, s);
      && ((forall r :: r in Eval(right, db) ==> r.key != l.key) <==> Satisfies(cat, db, Union(L, Goal({}, {rhs}, {})), s))
      && Laid(MakeAntijoin(left, right, output).flow, PairEnv(l.key, l.value, [])) == Shown(cat, output, s)
  {
    var right, l := KvToKv(cat, false, rhs, NegatedCollection(cat, rhs), ds), Shown(cat, left.output, s);
    assert forall i :: i in ids ==> i in Indices(ids);
    NegatedKey(cat, db, rhs, ids, ds, s);
    forall r | r in Eval(right, db)
      ensures r == Record(r.key, [])
    {
      LeafComputes(cat, db, false, rhs, NegatedCollection(cat, rhs), ids, ds, r);
    }
    JoinLaid(cat, left, right, output, [], [], l, Record(l.key, []), s);
    SatisfiesNegated(cat, db, L, rhs, s);
  }

  lemma SatisfiesNegated(cat: Catalog, db: Database, L: Goal, rhs: nat, s: Valuation)
    requires rhs < |cat.negatives|
    ensures Satisfies(cat, db, Union(L, Goal({}, {rhs}, {})), s) <==>
      Satisfies(cat, db, L, s) && !AtomHolds(db, cat.negatives[rhs], s)
  {
  }

  /* ------------------------------------------------------------------ */
  /* Unary operators that do nothing                                      */
  /* ------------------------------------------------------------------ */

  /** Columns out are columns in, in the same order, and nothing is filtered. */
  predicate IsNoOp(cat: Catalog, positive: bool, rhs: nat, output: Collection, cs: seq<Comparison<Signature>>)
    requires rhs < |Atoms(cat, positive)|
  {
    && (output.keys == [] || output.values == []) && cs == []
    && ConstPositions(Atoms(cat, positive)[rhs]) == [] && RepeatPositions(Atoms(cat, positive)[rhs]) == []
    && output.keys + output.values == ArgumentSignatures(cat, positive, rhs)
  }

  /** A no-op passes every row of the relation, unchanged: the input can stand for the output. */
  lemma NoOpKeepsRows(cat: Catalog, positive: bool, rhs: nat, output: Collection, row: Row)
    requires LeafOk(cat, positive, rhs, output, []) && IsNoOp(cat, positive, rhs, output, [])
    requires |row| == |Atoms(cat, positive)[rhs].args|
    ensures var flow := KvToKv(cat, positive, rhs, output, []).flow;
      Passes(flow, RowEnv(row)) && Laid(flow, RowEnv(row)).key + Laid(flow, RowEnv(row)).value == row
  {
    var flow := KvToKv(cat, positive, rhs, output, []).flow;
    NoOpColumns(cat, positive, rhs, output);
    IdentityExtract(flow.key, flow.value, row);
    assert flow.constants == [] && flow.equalities == [] && flow.compares == [];
  }

  lemma NoOpColumns(cat: Catalog, positive: bool, rhs: nat, output: Collection)
    requires LeafOk(cat, positive, rhs, output, []) && IsNoOp(cat, positive, rhs, output, [])
    ensures var flow := KvToKv(cat, positive, rhs, output, []).flow;
      |flow.key + flow.value| == |Atoms(cat, positive)[rhs].args| && forall i: nat :: i < |flow.key + flow.value| ==> (flow.key + flow.value)[i] == KV(true, i)
  {
    LeafCanFlow(cat, positive, rhs, output, []);
    FlowConcat(AtomFlowMap(cat, positive, rhs), output.keys, output.values);
    var sigs := ArgumentSignatures(cat, positive, rhs);
    assert forall i: nat :: i < |sigs| ==> sigs[i] == Signature(positive, rhs, i);
  }

  lemma FlowConcat(m: FlowMap, a: seq<Signature>, b: seq<Signature>)
    requires forall sig :: sig in a + b ==> sig in m
    ensures FlowOverSignatures(m, a) + FlowOverSignatures(m, b) == FlowOverSignatures(m, a + b)
  {
    assert forall sig :: sig in a || sig in b ==> sig in a + b;
  }

  lemma IdentityExtract(key: seq<FlowArg>, value: seq<FlowArg>, row: Row)
    requires |key + value| == |row| && forall i: nat :: i < |row| ==> (key + value)[i] == KV(true, i)
    ensures Extract(key, RowEnv(row)) + Extract(value, RowEnv(row)) == row
  {
    assert forall i: nat :: i < |key| ==> key[i] == (key + value)[i];
    assert forall i: nat :: i < |value| ==> value[i] == (key + value)[|key| + i];
  }
}

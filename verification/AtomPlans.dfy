/** Plans over one set of columns: layouts, semijoin chains and antijoin chains. */
module AtomPlans {
  import opened Wrappers
  import opened Datalog
  import opened Catalogs
  import opened Flows
  import opened Operators

  /* ------------------------------------------------------------------ */
  /* Layouts                                                              */
  /* ------------------------------------------------------------------ */

  ghost predicate Bound(cat: Catalog, xs: seq<Var>, scope: seq<nat>)
    requires ValidScope(cat, scope)
  {
    forall x :: x in xs ==> x in VarsOf(cat, scope)
  }

  /** Key and value variables, resolved to columns by their first occurrence in `scope`. */
  function Layout(cat: Catalog, keys: seq<Var>, values: seq<Var>, scope: seq<nat>): (c: Collection)
    requires ValidScope(cat, scope) && Bound(cat, keys, scope) && Bound(cat, values, scope)
    ensures Names(cat, c.keys) == keys && Names(cat, c.values) == values
  {
    Collection(TopDownTrace(cat, keys, scope), TopDownTrace(cat, values, scope))
  }

  /** The variables of `xs` not in `keys`, each once, in order. */
  function Remaining(xs: seq<Var>, keys: seq<Var>): (r: seq<Var>)
    ensures forall x :: x in r <==> x in xs && x !in keys
    ensures forall i, j :: 0 <= i < j < |r| ==> r[i] != r[j]
  {
    if xs == [] then
      []
    else
      var last, front := xs[|xs| - 1], Remaining(xs[..|xs| - 1], keys);
      assert xs == xs[..|xs| - 1] + [last];
      if last in keys || last in front then front else front + [last]
  }

  /* ------------------------------------------------------------------ */
  /* Comparisons pushed to an atom or fused into a join                    */
  /* ------------------------------------------------------------------ */

  predicate ValidComparisons(cat: Catalog, ids: seq<nat>) {
    forall k :: 0 <= k < |ids| ==> ids[k] < |cat.comparisons|
  }

  predicate ScopedComparisons(cat: Catalog, ids: seq<nat>, xs: set<Var>) {
    forall k :: 0 <= k < |ids| ==> ids[k] < |cat.comparisons| && ComparisonVariables(cat.comparisons[ids[k]]) <= xs
  }

  /** The comparisons whose variables all lie in `xs`, in order. */
  function Contained(cat: Catalog, ids: seq<nat>, xs: set<Var>): (r: seq<nat>)
    requires ValidComparisons(cat, ids)
    ensures ScopedComparisons(cat, r, xs)
    ensures forall i :: i in r <==> i in ids && i < |cat.comparisons| && ComparisonVariables(cat.comparisons[i]) <= xs
    ensures ScopedComparisons(cat, ids, xs) ==> r == ids
  {
    if ids == [] then
      []
    else
      var rest := Contained(cat, ids[1..], xs);
      if ComparisonVariables(cat.comparisons[ids[0]]) <= xs then [ids[0]] + rest else rest
  }

  function TraceArithmetic(cat: Catalog, a: Arithmetic<Var>, scope: seq<nat>): (b: Arithmetic<Signature>)
    requires ValidScope(cat, scope) && Bound(cat, Labels(a), scope)
    ensures Traces(cat, a, b) && Labels(b) == TopDownTrace(cat, Labels(a), scope)
  {
    RelabelLabels(a, TopDownTrace(cat, Labels(a), scope));
    Relabel(a, TopDownTrace(cat, Labels(a), scope))
  }

  function TraceComparison(cat: Catalog, c: Comparison<Var>, scope: seq<nat>): (d: Comparison<Signature>)
    requires ValidScope(cat, scope) && ComparisonVariables(c) <= VarsOf(cat, scope)
    ensures TracesComparison(cat, c, d)
    ensures Bound(cat, Labels(c.left), scope) && Labels(d.left) == TopDownTrace(cat, Labels(c.left), scope)
    ensures Bound(cat, Labels(c.right), scope) && Labels(d.right) == TopDownTrace(cat, Labels(c.right), scope)
  {
    assert forall x :: x in Labels(c.left) || x in Labels(c.right) ==> x in ComparisonVariables(c);
    Comparison(TraceArithmetic(cat, c.left, scope), c.operator, TraceArithmetic(cat, c.right, scope))
  }

  /** The given comparisons over the first occurrences of their variables. */
  function AssembleComparisons(cat: Catalog, ids: seq<nat>, scope: seq<nat>): (ds: seq<Comparison<Signature>>)
    requires ValidScope(cat, scope) && ScopedComparisons(cat, ids, VarsOf(cat, scope))
    ensures TracesAll(cat, ids, ds)
    ensures forall k :: 0 <= k < |ids| ==> ds[k] == TraceComparison(cat, cat.comparisons[ids[k]], scope)
  {
    seq(|ids|, k requires 0 <= k < |ids| => TraceComparison(cat, cat.comparisons[ids[k]], scope))
  }

  /** A variable of a negated atom can be traced: no constant or wildcard stands before its first occurrence. */
  ghost predicate TraceableNegated(atom: Atom, x: Var)
    requires x in Variables(atom)
  {
    forall j :: 0 <= j < First(atom.args, x) ==> atom.args[j].Variable?
  }

  /** One variable's column of a negated atom. */
  function TraceNegated(cat: Catalog, x: Var, rhs: nat): (r: Option<Signature>)
    requires rhs < |cat.negatives| && x in Variables(cat.negatives[rhs])
    ensures r.Some? <==> TraceableNegated(cat.negatives[rhs], x)
    ensures r.Some? ==> ValidSignature(cat, r.value) && !r.value.positive && r.value.rhs == rhs && NameOf(cat, r.value) == x
  {
    var args := cat.negatives[rhs].args;
    assert args[0..] == args;
    TraceNegatedFrom(args, x, rhs, 0)
  }

  function TopDownTraceNegated(cat: Catalog, xs: seq<Var>, rhs: nat): (r: Option<seq<Signature>>)
    requires rhs < |cat.negatives| && forall x :: x in xs ==> x in Variables(cat.negatives[rhs])
    ensures r.Some? <==> EachTraceable(cat.negatives[rhs], xs)
    ensures r.Some? ==> TracesNames(cat, xs, rhs, r.value)
  {
    if xs == [] then
      Some([])
    else
      HeadOrRest(cat.negatives[rhs], xs);
      var sig :- TraceNegated(cat, xs[0], rhs);
      var rest :- TopDownTraceNegated(cat, xs[1..], rhs);
      NextTraced(cat, xs, rhs, sig, rest);
      Some([sig] + rest)
  }

  ghost predicate EachTraceable(atom: Atom, xs: seq<Var>)
    requires forall x :: x in xs ==> x in Variables(atom)
  {
    forall x :: x in xs ==> TraceableNegated(atom, x)
  }

  /** Columns of the negated atom holding the variables, in order. */
  ghost predicate TracesNames(cat: Catalog, xs: seq<Var>, rhs: nat, sigs: seq<Signature>) {
    Names(cat, sigs) == xs && OfAtom(cat, false, rhs, sigs)
  }

  lemma HeadOrRest(atom: Atom, xs: seq<Var>)
    requires xs != [] && forall x :: x in xs ==> x in Variables(atom)
    ensures forall x :: x in xs[1..] ==> x in Variables(atom)
    ensures EachTraceable(atom, xs) <==> TraceableNegated(atom, xs[0]) && EachTraceable(atom, xs[1..])
  {
    assert xs == [xs[0]] + xs[1..];
  }

  lemma NextTraced(cat: Catalog, xs: seq<Var>, rhs: nat, sig: Signature, rest: seq<Signature>)
    requires xs != [] && TracesNames(cat, xs[1..], rhs, rest)
    requires ValidSignature(cat, sig) && !sig.positive && sig.rhs == rhs && NameOf(cat, sig) == xs[0]
    ensures TracesNames(cat, xs, rhs, [sig] + rest)
  {
    assert xs == [xs[0]] + xs[1..];
    assert Names(cat, [sig] + rest) == [NameOf(cat, sig)] + Names(cat, rest);
  }

  ghost predicate TraceableComparison(cat: Catalog, c: Comparison<Var>, rhs: nat)
    requires rhs < |cat.negatives| && ComparisonVariables(c) <= Variables(cat.negatives[rhs])
  {
    forall x :: x in ComparisonVariables(c) ==> TraceableNegated(cat.negatives[rhs], x)
  }

  function TraceComparisonNegated(cat: Catalog, c: Comparison<Var>, rhs: nat): (r: Option<Comparison<Signature>>)
    requires rhs < |cat.negatives| && ComparisonVariables(c) <= Variables(cat.negatives[rhs])
    ensures r.Some? <==> TraceableComparison(cat, c, rhs)
    ensures r.Some? ==> TracesComparison(cat, c, r.value) && ReadsAtom(cat, false, rhs, r.value)
  {
    assert forall x :: x in ComparisonVariables(c) <==> x in Labels(c.left) || x in Labels(c.right);
    var left :- TopDownTraceNegated(cat, Labels(c.left), rhs);
    var right :- TopDownTraceNegated(cat, Labels(c.right), rhs);
    assert |left| == |Names(cat, left)| && |right| == |Names(cat, right)|;
    RelabelLabels(c.left, left);
    RelabelLabels(c.right, right);
    Some(Comparison(Relabel(c.left, left), c.operator, Relabel(c.right, right)))
  }

  ghost predicate AllTraceable(cat: Catalog, ids: seq<nat>, rhs: nat)
    requires rhs < |cat.negatives| && ScopedComparisons(cat, ids, Variables(cat.negatives[rhs]))
  {
    forall k :: 0 <= k < |ids| ==> TraceableComparison(cat, cat.comparisons[ids[k]], rhs)
  }

  lemma AllTraceableHead(cat: Catalog, ids: seq<nat>, rhs: nat)
    requires rhs < |cat.negatives| && ids != [] && ScopedComparisons(cat, ids, Variables(cat.negatives[rhs]))
    ensures ScopedComparisons(cat, ids[1..], Variables(cat.negatives[rhs]))
    ensures AllTraceable(cat, ids, rhs) <==>
      TraceableComparison(cat, cat.comparisons[ids[0]], rhs) && AllTraceable(cat, ids[1..], rhs)
  {
    assert ids == [ids[0]] + ids[1..];
  }

  lemma TracesMore(cat: Catalog, ids: seq<nat>, d: Comparison<Signature>, rest: seq<Comparison<Signature>>, rhs: nat)
    requires ids != [] && ids[0] < |cat.comparisons| && TracesComparison(cat, cat.comparisons[ids[0]], d)
    requires TracesAll(cat, ids[1..], rest)
    requires ReadsAtom(cat, false, rhs, d) && forall e :: e in rest ==> ReadsAtom(cat, false, rhs, e)
    ensures TracesAll(cat, ids, [d] + rest) && forall e :: e in [d] + rest ==> ReadsAtom(cat, false, rhs, e)
  {
    forall i | 0 <= i < |ids|
      ensures ids[i] < |cat.comparisons| && TracesComparison(cat, cat.comparisons[ids[i]], ([d] + rest)[i])
    {
      if i > 0 {
        assert ids[1..][i - 1] == ids[i];
      }
    }
  }

  function AssembleNegated(cat: Catalog, ids: seq<nat>, rhs: nat): (r: Option<seq<Comparison<Signature>>>)
    requires rhs < |cat.negatives| && ScopedComparisons(cat, ids, Variables(cat.negatives[rhs]))
    ensures r.Some? <==> AllTraceable(cat, ids, rhs)
    ensures r.Some? ==> TracesAll(cat, ids, r.value)
    ensures r.Some? ==> forall d :: d in r.value ==> ReadsAtom(cat, false, rhs, d)
  {
    if ids == [] then
      Some([])
    else
      AllTraceableHead(cat, ids, rhs);
      var d :- TraceComparisonNegated(cat, cat.comparisons[ids[0]], rhs);
      var rest :- AssembleNegated(cat, ids[1..], rhs);
      TracesMore(cat, ids, d, rest, rhs);
      Some([d] + rest)
  }

  /* ------------------------------------------------------------------ */
  /* Semijoins                                                            */
  /* ------------------------------------------------------------------ */

  lemma VarsOfOne(cat: Catalog, atom: nat)
    requires atom < |cat.positives|
    ensures ValidScope(cat, [atom]) && VarsOf(cat, [atom]) == Variables(cat.positives[atom])
  {
    assert [atom][0] == atom;
  }

  /** Comparisons assembled over one atom read that atom. */
  lemma AssembledOfAtom(cat: Catalog, ids: seq<nat>, atom: nat)
    requires atom < |cat.positives| && ScopedComparisons(cat, ids, VarsOf(cat, [atom]))
    ensures forall d :: d in AssembleComparisons(cat, ids, [atom]) ==> ReadsAtom(cat, true, atom, d)
  {
    var ds := AssembleComparisons(cat, ids, [atom]);
    forall k | 0 <= k < |ids|
      ensures ReadsAtom(cat, true, atom, ds[k])
    {
      TracedOfAtom(cat, cat.comparisons[ids[k]], atom);
    }
  }

  lemma TracedOfAtom(cat: Catalog, c: Comparison<Var>, atom: nat)
    requires atom < |cat.positives| && ComparisonVariables(c) <= VarsOf(cat, [atom])
    ensures ReadsAtom(cat, true, atom, TraceComparison(cat, c, [atom]))
  {
    var d := TraceComparison(cat, c, [atom]);
    TracedColumns(cat, Labels(c.left), atom);
    TracedColumns(cat, Labels(c.right), atom);
  }

  lemma TracedColumns(cat: Catalog, xs: seq<Var>, atom: nat)
    requires atom < |cat.positives| && ValidScope(cat, [atom]) && Bound(cat, xs, [atom])
    ensures OfAtom(cat, true, atom, TopDownTrace(cat, xs, [atom]))
  {
  }

  /** Signatures traced into a single atom are that atom's. */
  lemma LayoutOfAtom(cat: Catalog, keys: seq<Var>, values: seq<Var>, atom: nat)
    requires atom < |cat.positives| && Bound(cat, keys, [atom]) && Bound(cat, values, [atom])
    ensures OfAtom(cat, true, atom, Layout(cat, keys, values, [atom]).keys + Layout(cat, keys, values, [atom]).values)
  {
  }

  /** The base atom, filtered by every active comparison. */
  function BaseLeaf(cat: Catalog, atom: nat, headKeys: seq<Var>, headValues: seq<Var>,
                    comparisons: seq<nat>): (t: Transformation)
    requires atom < |cat.positives| && ScopedComparisons(cat, comparisons, Variables(cat.positives[atom]))
    requires Bound(cat, headKeys, [atom]) && Bound(cat, headValues, [atom])
    ensures t.output == Layout(cat, headKeys, headValues, [atom])
    ensures Computes(cat, t, Goal({atom}, {}, Indices(comparisons))) && Leftmost(t) == cat.positives[atom].relation
  {
    VarsOfOne(cat, atom);
    var ids := Contained(cat, comparisons, Variables(cat.positives[atom]));
    var ds := AssembleComparisons(cat, ids, [atom]);
    var output := Layout(cat, headKeys, headValues, [atom]);
    LayoutOfAtom(cat, headKeys, headValues, atom);
    AssembledOfAtom(cat, ids, atom);
    LeafGoal(cat, atom, output, ids, ds);
    KvToKv(cat, true, atom, output, ds)
  }

  /** A subsumed atom, keyed by its variables and filtered by the comparisons it alone binds. */
  function SubatomLeaf(cat: Catalog, atom: nat, comparisons: seq<nat>): (t: Transformation)
    requires atom < |cat.positives| && ValidComparisons(cat, comparisons)
    ensures Names(cat, t.output.keys) == OrderedVariables(cat.positives[atom]) && t.output.values == []
    ensures Computes(cat, t, Goal({atom}, {}, Indices(Contained(cat, comparisons, Variables(cat.positives[atom])))))
  {
    VarsOfOne(cat, atom);
    var ids := Contained(cat, comparisons, Variables(cat.positives[atom]));
    var ds := AssembleComparisons(cat, ids, [atom]);
    var output := Collection(VarSignatures(cat, true, atom), []);
    AssembledOfAtom(cat, ids, atom);
    assert output.keys + output.values == VarSignatures(cat, true, atom);
    LeafGoal(cat, atom, output, ids, ds);
    KvToKv(cat, true, atom, output, ds)
  }

  /** The atoms' variables all lie in `xs`. */
  predicate ScopedAtoms(cat: Catalog, ids: seq<nat>, xs: set<Var>) {
    forall k :: 0 <= k < |ids| ==> ids[k] < |cat.positives| && Variables(cat.positives[ids[k]]) <= xs
  }

  /** Every variable of `xs` has its column in the layout. */
  ghost predicate Supplies(cat: Catalog, below: Collection, scope: seq<nat>, xs: set<Var>)
    requires ValidScope(cat, scope) && xs <= VarsOf(cat, scope)
  {
    forall x :: x in xs ==> Trace(cat, x, scope) in below.keys + below.values
  }

  lemma LayoutSupplies(cat: Catalog, scope: seq<nat>, xs: set<Var>, keys: seq<Var>, values: seq<Var>)
    requires ValidScope(cat, scope) && Bound(cat, keys, scope) && Bound(cat, values, scope)
    requires forall x :: x in xs ==> x in keys || x in values
    ensures xs <= VarsOf(cat, scope)
    ensures Supplies(cat, Layout(cat, keys, values, scope), scope, xs)
  {
    var below := Layout(cat, keys, values, scope);
    forall x | x in xs
      ensures x in VarsOf(cat, scope) && Trace(cat, x, scope) in below.keys + below.values
    {
      if x in keys {
        var i :| 0 <= i < |keys| && keys[i] == x;
        assert below.keys[i] == Trace(cat, x, scope);
      } else {
        var i :| 0 <= i < |values| && values[i] == x;
        assert below.values[i] == Trace(cat, x, scope);
      }
    }
  }

  /** A head whose variables the left side supplies can be laid out by a binary operator. */
  lemma SuppliedFlows(cat: Catalog, scope: seq<nat>, headKeys: seq<Var>, headValues: seq<Var>, xs: set<Var>,
                      left: Collection, right: Collection)
    requires ValidScope(cat, scope) && Bound(cat, headKeys, scope) && Bound(cat, headValues, scope)
    requires xs <= VarsOf(cat, scope) && Supplies(cat, left, scope, xs)
    requires forall x :: x in headKeys || x in headValues ==> x in xs
    ensures var head := Layout(cat, headKeys, headValues, scope);
      forall sig :: sig in head.keys + head.values ==> sig in JoinArgumentFlowMap(left, right)
  {
    var head := Layout(cat, headKeys, headValues, scope);
    forall sig | sig in head.keys + head.values
      ensures sig in left.keys + left.values + right.values
    {
      if sig in head.keys {
        var i :| 0 <= i < |head.keys| && head.keys[i] == sig;
        assert headKeys[i] in headKeys;
      } else {
        var i :| 0 <= i < |head.values| && head.values[i] == sig;
        assert headValues[i] in headValues;
      }
    }
  }

  function Elements(xs: seq<Var>): set<Var> {
    set x | x in xs
  }

  /** A base atom semijoined with every atom it subsumes, in order: it enforces its atom, every subsumed atom,
      and the active comparisons. */
  function RecursiveSemijoins(cat: Catalog, atom: nat, subatoms: seq<nat>, headKeys: seq<Var>, headValues: seq<Var>,
                              comparisons: seq<nat>): (t: Transformation)
    requires atom < |cat.positives| && ScopedComparisons(cat, comparisons, Variables(cat.positives[atom]))
    requires Bound(cat, headKeys, [atom]) && Bound(cat, headValues, [atom])
    requires ScopedAtoms(cat, subatoms, Variables(cat.positives[atom]))
    ensures t.output == Layout(cat, headKeys, headValues, [atom])
    ensures Computes(cat, t, Goal({atom} + Indices(subatoms), {}, Indices(comparisons)))
    ensures Leftmost(t) == cat.positives[atom].relation
    decreases |subatoms|
  {
    if subatoms == [] then
      assert {atom} + Indices(subatoms) == {atom};
      BaseLeaf(cat, atom, headKeys, headValues, comparisons)
    else
      var front, sub := subatoms[..|subatoms| - 1], subatoms[|subatoms| - 1];
      var keys := OrderedVariables(cat.positives[sub]);
      var values := Remaining(headKeys + headValues, keys);
      VarsOfOne(cat, atom);
      assert subatoms == front + [sub] && ScopedAtoms(cat, front, Variables(cat.positives[atom]));
      assert Bound(cat, keys, [atom]) && Bound(cat, values, [atom]);
      var left := RecursiveSemijoins(cat, atom, front, keys, values, comparisons);
      var right := SubatomLeaf(cat, sub, comparisons);
      SemijoinOnTop(cat, atom, front, sub, left, right, headKeys, headValues, keys, values, comparisons);
      MakeJoin(left, right, Layout(cat, headKeys, headValues, [atom]), [])
  }

  lemma SemijoinOnTop(cat: Catalog, atom: nat, front: seq<nat>, sub: nat, left: Transformation, right: Transformation,
                      headKeys: seq<Var>, headValues: seq<Var>,
                      keys: seq<Var>, values: seq<Var>, comparisons: seq<nat>)
    requires atom < |cat.positives| && sub < |cat.positives|
    requires ScopedComparisons(cat, comparisons, Variables(cat.positives[atom]))
    requires ScopedAtoms(cat, front, Variables(cat.positives[atom]))
    requires Variables(cat.positives[sub]) <= Variables(cat.positives[atom])
    requires Bound(cat, headKeys, [atom]) && Bound(cat, headValues, [atom])
    requires keys == OrderedVariables(cat.positives[sub]) && Bound(cat, keys, [atom])
    requires values == Remaining(headKeys + headValues, keys) && Bound(cat, values, [atom])
    requires left.output == Layout(cat, keys, values, [atom])
    requires Names(cat, right.output.keys) == keys && right.output.values == []
    requires Computes(cat, left, Goal({atom} + Indices(front), {}, Indices(comparisons)))
    requires Computes(cat, right, Goal({sub}, {}, Indices(Contained(cat, comparisons, Variables(cat.positives[sub])))))
    ensures var output := Layout(cat, headKeys, headValues, [atom]);
      && (forall sig :: sig in output.keys + output.values ==> sig in JoinArgumentFlowMap(left.output, right.output))
      && Computes(cat, MakeJoin(left, right, output, []), Goal({atom} + Indices(front + [sub]), {}, Indices(comparisons)))
  {
    LayoutSupplies(cat, [atom], Elements(headKeys + headValues), keys, values);
    SuppliedFlows(cat, [atom], headKeys, headValues, Elements(headKeys + headValues), left.output, right.output);
    SemijoinComputes(cat, atom, front, sub, left, right, Layout(cat, headKeys, headValues, [atom]), keys, values,
                     comparisons);
  }

  lemma SemijoinComputes(cat: Catalog, atom: nat, front: seq<nat>, sub: nat, left: Transformation,
                         right: Transformation, output: Collection,
                         keys: seq<Var>, values: seq<Var>, comparisons: seq<nat>)
    requires atom < |cat.positives| && sub < |cat.positives|
    requires ScopedComparisons(cat, comparisons, Variables(cat.positives[atom]))
    requires ScopedAtoms(cat, front, Variables(cat.positives[atom]))
    requires Variables(cat.positives[sub]) <= Variables(cat.positives[atom])
    requires keys == OrderedVariables(cat.positives[sub]) && Bound(cat, keys, [atom]) && Bound(cat, values, [atom])
    requires left.output == Layout(cat, keys, values, [atom])
    requires Names(cat, right.output.keys) == keys && right.output.values == []
    requires Computes(cat, left, Goal({atom} + Indices(front), {}, Indices(comparisons)))
    requires Computes(cat, right, Goal({sub}, {}, Indices(Contained(cat, comparisons, Variables(cat.positives[sub])))))
    requires forall sig :: sig in output.keys + output.values ==> sig in JoinArgumentFlowMap(left.output, right.output)
    ensures Computes(cat, MakeJoin(left, right, output, []), Goal({atom} + Indices(front + [sub]), {}, Indices(comparisons)))
  {
    var ids := Contained(cat, comparisons, Variables(cat.positives[sub]));
    var L, R := Goal({atom} + Indices(front), {}, Indices(comparisons)), Goal({sub}, {}, Indices(ids));
    var xs, ys := Variables(cat.positives[atom]), Variables(cat.positives[sub]);
    assert Within(cat, L, xs) && Within(cat, R, ys) by {
      SemijoinWithin(cat, atom, front, sub, comparisons, ids);
    }
    assert Joinable(cat, left, right, L, R, xs, ys) by {
      VarsOfOne(cat, atom);
    }
    JoinComputes(cat, left, right, L, R, xs, ys, output, [], []);
    SemijoinGoal(atom, front, sub, comparisons, ids);
  }

  lemma SemijoinWithin(cat: Catalog, atom: nat, front: seq<nat>, sub: nat, comparisons: seq<nat>, ids: seq<nat>)
    requires atom < |cat.positives| && sub < |cat.positives|
    requires ScopedComparisons(cat, comparisons, Variables(cat.positives[atom]))
    requires ScopedAtoms(cat, front, Variables(cat.positives[atom]))
    requires ScopedComparisons(cat, ids, Variables(cat.positives[sub]))
    ensures Within(cat, Goal({atom} + Indices(front), {}, Indices(comparisons)), Variables(cat.positives[atom]))
    ensures Within(cat, Goal({sub}, {}, Indices(ids)), Variables(cat.positives[sub]))
  {
  }

  lemma SemijoinGoal(atom: nat, front: seq<nat>, sub: nat, comparisons: seq<nat>, ids: seq<nat>)
    requires forall i :: i in ids ==> i in comparisons
    ensures Union(Union(Goal({atom} + Indices(front), {}, Indices(comparisons)), Goal({sub}, {}, Indices(ids))), Goal({}, {}, Indices([])))
      == Goal({atom} + Indices(front + [sub]), {}, Indices(comparisons))
  {
    assert Indices(front + [sub]) == Indices(front) + {sub};
  }

  /* ------------------------------------------------------------------ */
  /* Antijoins                                                            */
  /* ------------------------------------------------------------------ */

  predicate ScopedNegated(cat: Catalog, ids: seq<nat>, xs: set<Var>) {
    forall k :: 0 <= k < |ids| ==> ids[k] < |cat.negatives| && Variables(cat.negatives[ids[k]]) <= xs
  }

  /** A negated atom the planner refuses: it retains no column, or a comparison it alone binds reads a
      variable standing behind a constant or a wildcard. */
  ghost predicate Refuses(cat: Catalog, rhs: nat, comparisons: seq<nat>)
    requires rhs < |cat.negatives| && ValidComparisons(cat, comparisons)
  {
    var atom := cat.negatives[rhs];
    Variables(atom) == {} || !AllTraceable(cat, Contained(cat, comparisons, Variables(atom)), rhs)
  }

  /** Some atom of the list is refused. */
  ghost predicate RefusesSome(cat: Catalog, negated: seq<nat>, comparisons: seq<nat>)
    requires ValidComparisons(cat, comparisons)
  {
    RefusesAny(cat, Indices(negated), comparisons)
  }

  ghost predicate RefusesAny(cat: Catalog, negated: set<nat>, comparisons: seq<nat>)
    requires ValidComparisons(cat, comparisons)
  {
    exists rhs :: rhs in negated && rhs < |cat.negatives| && Refuses(cat, rhs, comparisons)
  }

  lemma RefusesSomeLast(cat: Catalog, front: seq<nat>, rhs: nat, comparisons: seq<nat>)
    requires ValidComparisons(cat, comparisons) && rhs < |cat.negatives|
    ensures RefusesSome(cat, front + [rhs], comparisons) <==>
      RefusesSome(cat, front, comparisons) || Refuses(cat, rhs, comparisons)
  {
    assert Indices(front + [rhs]) == Indices(front) + {rhs};
  }

  /** The negated side of one antijoin. */
  function NegatedLeaf(cat: Catalog, rhs: nat, comparisons: seq<nat>): (r: Option<Transformation>)
    requires rhs < |cat.negatives| && ValidComparisons(cat, comparisons)
    ensures r.None? <==> Refuses(cat, rhs, comparisons)
    ensures r.Some? ==> r.value.output == NegatedCollection(cat, rhs)
    ensures r.Some? ==>
      var ids := Contained(cat, comparisons, Variables(cat.negatives[rhs]));
      var ds := AssembleNegated(cat, ids, rhs);
      ds.Some? && LeafOk(cat, false, rhs, NegatedCollection(cat, rhs), ds.value) && r.value == KvToKv(cat, false, rhs, NegatedCollection(cat, rhs), ds.value)
  {
    var atom := cat.negatives[rhs];
    NoVariables(atom);
    if VarSignatures(cat, false, rhs) == [] then
      None
    else
      var ids := Contained(cat, comparisons, Variables(atom));
      var ds :- AssembleNegated(cat, ids, rhs);
      var output := NegatedCollection(cat, rhs);
      assert output.keys + output.values == VarSignatures(cat, false, rhs);
      Some(KvToKv(cat, false, rhs, output, ds))
  }

  lemma NoVariables(atom: Atom)
    ensures OrderedVariables(atom) == [] <==> Variables(atom) == {}
  {
    if OrderedVariables(atom) != [] {
      assert OrderedVariables(atom)[0] in OrderedVariables(atom);
    }
    if x :| x in Variables(atom) {
      assert x in OrderedVariables(atom);
    }
  }

  /** What the chain reads from the collection it starts from: every needed variable, keyed by the first negated
      atom. */
  ghost predicate AntijoinsReady(cat: Catalog, scope: seq<nat>, base: Collection, negated: seq<nat>, headKeys: seq<Var>,
                                 headValues: seq<Var>, needed: set<Var>)
  {
    && ValidScope(cat, scope) && needed <= VarsOf(cat, scope)
    && Elements(headKeys) <= needed && Elements(headValues) <= needed
    && ScopedNegated(cat, negated, needed)
    && Supplies(cat, base, scope, needed)
    && (negated != [] ==> Names(cat, base.keys) == OrderedVariables(cat.negatives[negated[0]]))
  }

  lemma ElementsBound(cat: Catalog, xs: seq<Var>, scope: seq<nat>, needed: set<Var>)
    requires ValidScope(cat, scope) && Elements(xs) <= needed <= VarsOf(cat, scope)
    ensures Bound(cat, xs, scope)
  {
    assert forall x :: x in xs ==> x in Elements(xs);
  }

  /** The antijoins of a list of negated atoms over a collection, each re-keyed by its atom: the chain keeps exactly
      the solutions of its base that no negated atom matches, and is refused exactly when one of the atoms is. */
  function RecursiveAntijoins(cat: Catalog, scope: seq<nat>, base: Transformation, negated: seq<nat>,
                              headKeys: seq<Var>, headValues: seq<Var>,
                              comparisons: seq<nat>, ghost needed: set<Var>, ghost L: Goal): (r: Option<Transformation>)
    requires AntijoinsReady(cat, scope, base.output, negated, headKeys, headValues, needed)
    requires ValidComparisons(cat, comparisons)
    requires Computes(cat, base, L) && Indices(comparisons) <= L.comparisons
    ensures r.Some? ==> ChainOutput(cat, scope, base, negated, headKeys, headValues, r.value) && Over(r.value, base)
    ensures r.None? <==> RefusesSome(cat, negated, comparisons)
    ensures r.Some? ==> Computes(cat, r.value, Union(L, Goal({}, Indices(negated), {})))
    decreases |negated|
  {
    ElementsBound(cat, headKeys, scope, needed);
    ElementsBound(cat, headValues, scope, needed);
    if negated == [] then
      UnionNothing(L);
      Some(base)
    else
      var front, rhs := negated[..|negated| - 1], negated[|negated| - 1];
      var keys := OrderedVariables(cat.negatives[rhs]);
      var values := Remaining(headKeys + headValues, keys);
      assert negated == front + [rhs];
      AntijoinsReadyBelow(cat, scope, base.output, front, rhs, headKeys, headValues, needed);
      RefusesSomeLast(cat, front, rhs, comparisons);
      var right :- NegatedLeaf(cat, rhs, comparisons);
      var left :- RecursiveAntijoins(cat, scope, base, front, keys, values, comparisons, needed, L);
      AntijoinOnTop(cat, scope, base, L, front, rhs, headKeys, headValues, keys, values, comparisons, needed, left,
                    right);
      Some(MakeAntijoin(left, right, Layout(cat, headKeys, headValues, scope)))
  }

  lemma UnionNothing(g: Goal)
    ensures Union(g, Goal({}, Indices([]), {})) == g
  {
  }

  /** The layout a chain ends in: the one asked for, or its base's when there is nothing to subtract. */
  ghost predicate ChainOutput(cat: Catalog, scope: seq<nat>, base: Transformation, negated: seq<nat>,
                              headKeys: seq<Var>, headValues: seq<Var>, t: Transformation)
  {
    && ValidScope(cat, scope) && Bound(cat, headKeys, scope) && Bound(cat, headValues, scope)
    && if negated == [] then t == base else t.output == Layout(cat, headKeys, headValues, scope)
  }

  lemma AntijoinsReadyBelow(cat: Catalog, scope: seq<nat>, base: Collection, front: seq<nat>, rhs: nat,
                            headKeys: seq<Var>, headValues: seq<Var>, needed: set<Var>)
    requires AntijoinsReady(cat, scope, base, front + [rhs], headKeys, headValues, needed)
    ensures rhs < |cat.negatives|
    ensures var keys := OrderedVariables(cat.negatives[rhs]);
      AntijoinsReady(cat, scope, base, front, keys, Remaining(headKeys + headValues, keys), needed)
  {
    var negated := front + [rhs];
    assert negated[|front|] == rhs;
    assert forall k :: 0 <= k < |front| ==> negated[k] == front[k];
    var keys := OrderedVariables(cat.negatives[rhs]);
    assert Elements(Remaining(headKeys + headValues, keys)) <= Elements(headKeys) + Elements(headValues);
  }

  lemma AntijoinSupplied(cat: Catalog, scope: seq<nat>, base: Transformation, front: seq<nat>, headKeys: seq<Var>,
                         headValues: seq<Var>,
                         keys: seq<Var>, values: seq<Var>, needed: set<Var>, left: Transformation, right: Collection)
    requires ValidScope(cat, scope) && needed <= VarsOf(cat, scope) && Supplies(cat, base.output, scope, needed)
    requires Elements(headKeys) <= needed && Elements(headValues) <= needed
    requires Bound(cat, headKeys, scope) && Bound(cat, headValues, scope) && Bound(cat, keys, scope)
    requires Bound(cat, values, scope)
    requires values == Remaining(headKeys + headValues, keys)
    requires if front == [] then left == base else left.output == Layout(cat, keys, values, scope)
    ensures var head := Layout(cat, headKeys, headValues, scope);
      forall sig :: sig in head.keys + head.values ==> sig in JoinArgumentFlowMap(left.output, right)
  {
    var heads := Elements(headKeys + headValues);
    assert heads <= needed by {
      assert forall x :: x in heads ==> x in Elements(headKeys) || x in Elements(headValues);
    }
    if front != [] {
      LayoutSupplies(cat, scope, heads, keys, values);
    }
    SuppliedFlows(cat, scope, headKeys, headValues, heads, left.output, right);
  }

  /** One antijoin on top of a chain. */
  lemma AntijoinOnTop(cat: Catalog, scope: seq<nat>, base: Transformation, L: Goal, front: seq<nat>, rhs: nat,
                      headKeys: seq<Var>, headValues: seq<Var>,
                      keys: seq<Var>, values: seq<Var>, comparisons: seq<nat>, needed: set<Var>, left: Transformation,
                      right: Transformation)
    requires ValidScope(cat, scope) && needed <= VarsOf(cat, scope) && Supplies(cat, base.output, scope, needed)
    requires Elements(headKeys) <= needed && Elements(headValues) <= needed
    requires Bound(cat, headKeys, scope) && Bound(cat, headValues, scope)
    requires rhs < |cat.negatives| && ValidComparisons(cat, comparisons)
    requires NegatedLeaf(cat, rhs, comparisons) == Some(right)
    requires keys == OrderedVariables(cat.negatives[rhs]) && values == Remaining(headKeys + headValues, keys)
    requires ChainOutput(cat, scope, base, front, keys, values, left)
    requires front == [] ==> Names(cat, base.output.keys) == keys
    requires Computes(cat, left, Union(L, Goal({}, Indices(front), {}))) && Indices(comparisons) <= L.comparisons
    ensures var head := Layout(cat, headKeys, headValues, scope);
      && (forall sig :: sig in head.keys + head.values ==> sig in JoinArgumentFlowMap(left.output, right.output))
      && Computes(cat, MakeAntijoin(left, right, head), Union(L, Goal({}, Indices(front + [rhs]), {})))
  {
    AntijoinSupplied(cat, scope, base, front, headKeys, headValues, keys, values, needed, left, right.output);
    AntijoinOver(cat, left, Union(L, Goal({}, Indices(front), {})), rhs, Layout(cat, headKeys, headValues, scope),
                 comparisons, right);
    AntijoinGoal(L, front, rhs);
  }

  lemma AntijoinOver(cat: Catalog, left: Transformation, L: Goal, rhs: nat, output: Collection, comparisons: seq<nat>,
                     right: Transformation)
    requires rhs < |cat.negatives| && ValidComparisons(cat, comparisons)
    requires NegatedLeaf(cat, rhs, comparisons) == Some(right)
    requires Computes(cat, left, L) && Indices(comparisons) <= L.comparisons
    requires Names(cat, left.output.keys) == OrderedVariables(cat.negatives[rhs])
    requires forall sig :: sig in output.keys + output.values ==> sig in JoinArgumentFlowMap(left.output, right.output)
    ensures Computes(cat, MakeAntijoin(left, right, output), Union(L, Goal({}, {rhs}, {})))
  {
    var ids := Contained(cat, comparisons, Variables(cat.negatives[rhs]));
    var ds := AssembleNegated(cat, ids, rhs);
    assert Indices(ids) <= Indices(comparisons);
    AntijoinComputes(cat, left, L, rhs, output, ids, ds.value);
  }

  lemma AntijoinGoal(L: Goal, front: seq<nat>, rhs: nat)
    ensures Union(Union(L, Goal({}, Indices(front), {})), Goal({}, {rhs}, {})) ==
      Union(L, Goal({}, Indices(front + [rhs]), {}))
  {
    assert Indices(front + [rhs]) == Indices(front) + {rhs};
  }
}

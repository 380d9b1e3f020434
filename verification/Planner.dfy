/** The rule compiler: a join tree of a rule, peeled into joins, semijoins and antijoins. */
module Planner {
  import opened Wrappers
  import opened Datalog
  import opened Catalogs
  import opened Flows
  import opened Operators
  import opened AtomPlans
  import opened JoinTrees
  import opened CoreAtoms

  /* ------------------------------------------------------------------ */
  /* What a subtree enforces                                              */
  /* ------------------------------------------------------------------ */

  /** The still active atoms subsumed by some atom of the subtree. */
  ghost function Subsumed(cat: Catalog, scope: seq<nat>, nonCore: seq<bool>): set<nat>
    requires ValidScope(cat, scope) && |nonCore| == |cat.positives|
  {
    set i: nat | i < |nonCore| && nonCore[i] && exists k :: 0 <= k < |scope| && Variables(cat.positives[i]) <= Variables(cat.positives[scope[k]])
  }

  /** The still active negated atoms a set of variables binds. */
  ghost function NegatedIn(cat: Catalog, xs: set<Var>, negation: seq<bool>): set<nat>
    requires |negation| == |cat.negatives|
  {
    set n: nat | n < |negation| && negation[n] && Variables(cat.negatives[n]) <= xs
  }

  ghost function NodeGoal(cat: Catalog, scope: seq<nat>, negation: seq<bool>, nonCore: seq<bool>,
                          comparisons: seq<nat>): Goal
    requires ValidScope(cat, scope) && |negation| == |cat.negatives| && |nonCore| == |cat.positives|
  {
    Goal(Indices(scope) + Subsumed(cat, scope, nonCore), NegatedIn(cat, VarsOf(cat, scope), negation), Indices(comparisons))
  }

  /** Some negated atom the subtree consumes is refused. */
  ghost predicate RefusesIn(cat: Catalog, xs: set<Var>, negation: seq<bool>, comparisons: seq<nat>)
    requires |negation| == |cat.negatives| && ValidComparisons(cat, comparisons)
  {
    RefusesAny(cat, NegatedIn(cat, xs, negation), comparisons)
  }

  lemma NodeGoalWithin(cat: Catalog, scope: seq<nat>, negation: seq<bool>, nonCore: seq<bool>, comparisons: seq<nat>)
    requires ValidScope(cat, scope) && |negation| == |cat.negatives| && |nonCore| == |cat.positives|
    requires ScopedComparisons(cat, comparisons, VarsOf(cat, scope))
    ensures Within(cat, NodeGoal(cat, scope, negation, nonCore, comparisons), VarsOf(cat, scope))
  {
    var xs := VarsOf(cat, scope);
    forall i | i in Indices(scope) + Subsumed(cat, scope, nonCore)
      ensures Variables(cat.positives[i]) <= xs
    {
      if i in scope {
        var k :| 0 <= k < |scope| && scope[k] == i;
      }
    }
  }

  /* ------------------------------------------------------------------ */
  /* Consuming atoms                                                      */
  /* ------------------------------------------------------------------ */

  /** Takes the active negated atoms only both sides of a join together bind, marking them consumed. */
  method AttachNegatedAtomsOnJoins(atoms: seq<Atom>, left: set<Var>, right: set<Var>, active: array<bool>)
    returns (taken: seq<nat>)
    requires active.Length == |atoms|
    modifies active
    ensures Attached(atoms, left, right, old(active[..]), active[..], taken)
  {
    taken := [];
    for i := 0 to |atoms|
      invariant forall j: nat :: j in taken <==> j < i && old(active[j]) && Straddles(Variables(atoms[j]), left, right)
      invariant forall j :: 0 <= j < i ==> active[j] == (old(active[j]) && !Straddles(Variables(atoms[j]), left, right))
      invariant forall j :: i <= j < |atoms| ==> active[j] == old(active[j])
    {
      if !active[i] {
        continue;
      }
      var xs := Variables(atoms[i]);
      if !(xs <= left) && !(xs <= right) && xs <= left + right {
        taken := taken + [i];
        active[i] := false;
      }
    }
  }

  /** The atoms taken, and the bitmap with them cleared. */
  ghost predicate Attached(atoms: seq<Atom>, left: set<Var>, right: set<Var>, active: seq<bool>, active': seq<bool>,
                           taken: seq<nat>)
    requires |active| == |active'| == |atoms|
  {
    && (forall i: nat :: i in taken <==> i < |atoms| && active[i] && Straddles(Variables(atoms[i]), left, right))
    && (forall i :: 0 <= i < |atoms| ==> active'[i] == (active[i] && !Straddles(Variables(atoms[i]), left, right)))
  }

  predicate Straddles(xs: set<Var>, left: set<Var>, right: set<Var>) {
    !(xs <= left) && !(xs <= right) && xs <= left + right
  }

  /** Splits comparisons: those either side binds go down to it (to both, when both do), the rest stay at the join. */
  method PartitionComparisonPredicates(cat: Catalog, left: set<Var>, right: set<Var>, comparisons: seq<nat>)
    returns (atJoin: seq<nat>, atLeft: seq<nat>, atRight: seq<nat>)
    requires ScopedComparisons(cat, comparisons, left + right)
    ensures Partitioned(cat, left, right, comparisons, atJoin, atLeft, atRight)
    ensures ScopedComparisons(cat, atLeft, left) && ScopedComparisons(cat, atRight, right)
    ensures ScopedComparisons(cat, atJoin, left + right)
  {
    atJoin, atLeft, atRight := [], [], [];
    for k := 0 to |comparisons|
      invariant Partitioned(cat, left, right, comparisons[..k], atJoin, atLeft, atRight)
    {
      assert comparisons[..k + 1] == comparisons[..k] + [comparisons[k]];
      atJoin, atLeft, atRight := PartitionOne(cat, left, right, comparisons[..k], comparisons[k], atJoin, atLeft, atRight);
    }
    assert comparisons[..|comparisons|] == comparisons;
    PartitionedScopes(cat, left, right, comparisons, atJoin, atLeft, atRight);
  }

  method PartitionOne(cat: Catalog, left: set<Var>, right: set<Var>, ghost done: seq<nat>, i: nat, atJoin: seq<nat>,
                      atLeft: seq<nat>, atRight: seq<nat>)
    returns (atJoin': seq<nat>, atLeft': seq<nat>, atRight': seq<nat>)
    requires Partitioned(cat, left, right, done, atJoin, atLeft, atRight)
    requires i < |cat.comparisons| && ComparisonVariables(cat.comparisons[i]) <= left + right
    ensures Partitioned(cat, left, right, done + [i], atJoin', atLeft', atRight')
  {
    atJoin', atLeft', atRight' := atJoin, atLeft, atRight;
    var xs := ComparisonVariables(cat.comparisons[i]);
    PartitionedStep(cat, left, right, done, i, atJoin, atLeft, atRight);
    if xs <= left {
      atLeft' := atLeft + [i];
    }
    if xs <= right {
      atRight' := atRight + [i];
    }
    if !(xs <= left) && !(xs <= right) {
      atJoin' := atJoin + [i];
    }
  }

  /** The comparisons of a node, divided. */
  ghost predicate Partitioned(cat: Catalog, left: set<Var>, right: set<Var>, comparisons: seq<nat>, atJoin: seq<nat>,
                              atLeft: seq<nat>, atRight: seq<nat>)
  {
    && ScopedComparisons(cat, comparisons, left + right)
    && Picks(atLeft, comparisons, Binds(cat, left)) && Picks(atRight, comparisons, Binds(cat, right))
    && Picks(atJoin, comparisons, BindsNeither(cat, left, right))
  }

  /** Exactly the listed numbers that pass the test are picked. */
  ghost predicate Picks(picked: seq<nat>, ids: seq<nat>, test: nat -> bool) {
    forall i :: i in picked <==> i in ids && test(i)
  }

  function Binds(cat: Catalog, xs: set<Var>): nat -> bool {
    (i: nat) => i < |cat.comparisons| && ComparisonVariables(cat.comparisons[i]) <= xs
  }

  function BindsNeither(cat: Catalog, left: set<Var>, right: set<Var>): nat -> bool {
    (i: nat) => i < |cat.comparisons| && !(ComparisonVariables(cat.comparisons[i]) <= left) && !(ComparisonVariables(cat.comparisons[i]) <= right)
  }

  lemma PicksStep(picked: seq<nat>, ids: seq<nat>, test: nat -> bool, i: nat)
    requires Picks(picked, ids, test)
    ensures Picks(if test(i) then picked + [i] else picked, ids + [i], test)
  {
  }

  lemma PartitionedStep(cat: Catalog, left: set<Var>, right: set<Var>, comparisons: seq<nat>, i: nat, atJoin: seq<nat>,
                        atLeft: seq<nat>, atRight: seq<nat>)
    requires Partitioned(cat, left, right, comparisons, atJoin, atLeft, atRight)
    requires i < |cat.comparisons| && ComparisonVariables(cat.comparisons[i]) <= left + right
    ensures Partitioned(cat, left, right, comparisons + [i], if BindsNeither(cat, left, right)(i) then atJoin + [i] else atJoin,
                        if Binds(cat, left)(i) then atLeft + [i] else atLeft, if Binds(cat, right)(i) then atRight + [i] else atRight)
  {
    PicksStep(atJoin, comparisons, BindsNeither(cat, left, right), i);
    PicksStep(atLeft, comparisons, Binds(cat, left), i);
    PicksStep(atRight, comparisons, Binds(cat, right), i);
  }

  lemma PartitionedScopes(cat: Catalog, left: set<Var>, right: set<Var>, comparisons: seq<nat>, atJoin: seq<nat>,
                          atLeft: seq<nat>, atRight: seq<nat>)
    requires Partitioned(cat, left, right, comparisons, atJoin, atLeft, atRight)
    ensures ScopedComparisons(cat, atLeft, left) && ScopedComparisons(cat, atRight, right)
    ensures ScopedComparisons(cat, atJoin, left + right)
  {
    assert forall k :: 0 <= k < |atLeft| ==> atLeft[k] in atLeft;
    assert forall k :: 0 <= k < |atRight| ==> atRight[k] in atRight;
    assert forall k :: 0 <= k < |atJoin| ==> atJoin[k] in atJoin && atJoin[k] in comparisons;
  }

  /** The variables of one side of a join, each once in pre-order: those shared with the other side, and the
      others that something above still reads. */
  method ListArguments(cat: Catalog, scope: seq<nat>, other: set<Var>, wanted: set<Var>)
    returns (keys: seq<Var>, values: seq<Var>)
    requires ValidScope(cat, scope)
    ensures forall x :: x in keys <==> x in VarsOf(cat, scope) && x in other
    ensures forall x :: x in values <==> x in VarsOf(cat, scope) && x !in other && x in wanted
  {
    keys, values := [], [];
    var seen: set<Var> := {};
    for k := 0 to |scope|
      invariant ValidScope(cat, scope[..k]) && seen == VarsOf(cat, scope[..k])
      invariant Listed(seen, other, wanted, keys, values)
    {
      ScopeNext(cat, scope, k);
      seen, keys, values := ListNames(OrderedVariables(cat.positives[scope[k]]), other, wanted, seen, keys, values);
    }
    assert scope[..|scope|] == scope;
  }

  /** Lists one atom's variables that are not listed yet. */
  method ListNames(names: seq<Var>, other: set<Var>, wanted: set<Var>, before: set<Var>, keys0: seq<Var>,
                   values0: seq<Var>)
    returns (seen: set<Var>, keys: seq<Var>, values: seq<Var>)
    requires Listed(before, other, wanted, keys0, values0)
    ensures seen == before + Elements(names) && Listed(seen, other, wanted, keys, values)
  {
    seen, keys, values := before, keys0, values0;
    for i := 0 to |names|
      invariant seen == before + Elements(names[..i])
      invariant Listed(seen, other, wanted, keys, values)
    {
      ElementsNext(names, i);
      if names[i] in seen {
        continue;
      }
      ListedStep(seen, other, wanted, keys, values, names[i]);
      seen := seen + {names[i]};
      if names[i] in other {
        keys := keys + [names[i]];
      } else if names[i] in wanted {
        values := values + [names[i]];
      }
    }
    assert names[..|names|] == names;
  }

  /** The seen variables, listed: those shared with the other side, and the others that are wanted. */
  ghost predicate Listed(seen: set<Var>, other: set<Var>, wanted: set<Var>, keys: seq<Var>, values: seq<Var>) {
    && (forall x :: x in keys <==> x in seen && x in other)
    && (forall x :: x in values <==> x in seen && x !in other && x in wanted)
  }

  lemma ListedStep(seen: set<Var>, other: set<Var>, wanted: set<Var>, keys: seq<Var>, values: seq<Var>, x: Var)
    requires Listed(seen, other, wanted, keys, values)
    ensures Listed(seen + {x}, other, wanted, if x in other then keys + [x] else keys, if x !in other && x in wanted then values + [x] else values)
  {
  }

  lemma ElementsNext(names: seq<Var>, i: nat)
    requires i < |names|
    ensures Elements(names[..i + 1]) == Elements(names[..i]) + {names[i]}
  {
    assert names[..i + 1] == names[..i] + [names[i]];
  }

  lemma ScopeNext(cat: Catalog, scope: seq<nat>, k: nat)
    requires ValidScope(cat, scope) && k < |scope| && ValidScope(cat, scope[..k])
    ensures ValidScope(cat, scope[..k + 1])
    ensures VarsOf(cat, scope[..k + 1]) == VarsOf(cat, scope[..k]) + Elements(OrderedVariables(cat.positives[scope[k]]))
  {
    assert scope[..k + 1] == scope[..k] + [scope[k]];
    VarsOfConcat(cat, scope[..k], [scope[k]]);
    VarsOfOne(cat, scope[k]);
  }

  /* ------------------------------------------------------------------ */
  /* Leaves                                                               */
  /* ------------------------------------------------------------------ */

  /** The variables of `xs` not in `keys` and in `wanted`, in order. */
  function Selected(xs: seq<Var>, keys: seq<Var>, wanted: set<Var>): (r: seq<Var>)
    ensures forall x :: x in r <==> x in xs && x !in keys && x in wanted
  {
    if xs == [] then
      []
    else
      var last, front := xs[|xs| - 1], Selected(xs[..|xs| - 1], keys, wanted);
      assert xs == xs[..|xs| - 1] + [last];
      if last !in keys && last in wanted then front + [last] else front
  }

  function NegatedVars(cat: Catalog, negated: seq<nat>): (xs: set<Var>)
    requires forall k :: 0 <= k < |negated| ==> negated[k] < |cat.negatives|
    ensures forall k :: 0 <= k < |negated| ==> Variables(cat.negatives[negated[k]]) <= xs
    ensures forall x :: x in xs ==> exists k :: 0 <= k < |negated| && x in Variables(cat.negatives[negated[k]])
  {
    set k, x | 0 <= k < |negated| && x in Variables(cat.negatives[negated[k]]) :: x
  }

  ghost predicate BitmapsFit(cat: Catalog, negation: seq<bool>, nonCore: seq<bool>) {
    |negation| == |cat.negatives| && |nonCore| == |cat.positives|
  }

  /** The bitmaps after a subtree: exactly what its variables bind is consumed. */
  ghost predicate Consumed(cat: Catalog, scope: seq<nat>, negation: seq<bool>, nonCore: seq<bool>, negation': seq<bool>,
                           nonCore': seq<bool>)
    requires ValidScope(cat, scope) && BitmapsFit(cat, negation, nonCore)
  {
    && BitmapsFit(cat, negation', nonCore')
    && (forall n :: 0 <= n < |negation| ==> negation'[n] == (negation[n] && n !in NegatedIn(cat, VarsOf(cat, scope), negation)))
    && (forall i :: 0 <= i < |nonCore| ==> nonCore'[i] == (nonCore[i] && i !in Subsumed(cat, scope, nonCore)))
  }

  /** What planning a subtree promises. */
  ghost predicate Planned(cat: Catalog, scope: seq<nat>, headKeys: seq<Var>, headValues: seq<Var>, negation: seq<bool>,
                          nonCore: seq<bool>,
                          comparisons: seq<nat>, t: Transformation)
    requires ValidScope(cat, scope) && BitmapsFit(cat, negation, nonCore)
  {
    && Bound(cat, headKeys, scope) && Bound(cat, headValues, scope)
    && t.output == Layout(cat, headKeys, headValues, scope)
    && Computes(cat, t, NodeGoal(cat, scope, negation, nonCore, comparisons))
  }

  /** What a leaf takes is what its node consumes and enforces. */
  lemma LeafNode(cat: Catalog, atom: nat, negation: seq<bool>, nonCore: seq<bool>, negation': seq<bool>,
                 nonCore': seq<bool>, comparisons: seq<nat>,
                 subatoms: seq<nat>, negated: seq<nat>)
    requires atom < |cat.positives| && ValidScope(cat, [atom]) && BitmapsFit(cat, negation, nonCore)
    requires BitmapsFit(cat, negation', nonCore')
    requires ValidComparisons(cat, comparisons)
    requires Taken(cat.positives, Variables(cat.positives[atom]), nonCore, nonCore', subatoms)
    requires Taken(cat.negatives, Variables(cat.positives[atom]), negation, negation', negated)
    ensures Consumed(cat, [atom], negation, nonCore, negation', nonCore')
    ensures NodeGoal(cat, [atom], negation, nonCore, comparisons) ==
      Union(Goal({atom} + Indices(subatoms), {}, Indices(comparisons)), Goal({}, Indices(negated), {}))
    ensures RefusesIn(cat, VarsOf(cat, [atom]), negation, comparisons) <==> RefusesSome(cat, negated, comparisons)
    ensures ScopedAtoms(cat, subatoms, Variables(cat.positives[atom]))
    ensures ScopedNegated(cat, negated, Variables(cat.positives[atom]))
  {
    VarsOfOne(cat, atom);
    LeafSubsumed(cat, atom, nonCore, nonCore', subatoms);
    assert NegatedIn(cat, VarsOf(cat, [atom]), negation) == Indices(negated);
    assert Indices([atom]) == {atom};
    assert forall k :: 0 <= k < |subatoms| ==> subatoms[k] in subatoms;
    assert forall k :: 0 <= k < |negated| ==> negated[k] in negated;
  }

  lemma LeafSubsumed(cat: Catalog, atom: nat, nonCore: seq<bool>, nonCore': seq<bool>, subatoms: seq<nat>)
    requires atom < |cat.positives| && ValidScope(cat, [atom]) && |nonCore| == |nonCore'| == |cat.positives|
    requires Taken(cat.positives, Variables(cat.positives[atom]), nonCore, nonCore', subatoms)
    ensures Subsumed(cat, [atom], nonCore) == Indices(subatoms)
  {
    var one := [atom];
    assert one[0] == atom;
    forall i | i in Indices(subatoms)
      ensures i in Subsumed(cat, one, nonCore)
    {
      assert Variables(cat.positives[i]) <= Variables(cat.positives[one[0]]);
    }
  }

  /** The semijoined atom supplies everything its antijoins read. */
  lemma LeafAntijoinsReady(cat: Catalog, atom: nat, negated: seq<nat>, headKeys: seq<Var>, headValues: seq<Var>,
                           keys: seq<Var>, values: seq<Var>, needed: set<Var>)
    requires atom < |cat.positives| && negated != [] && ScopedNegated(cat, negated, Variables(cat.positives[atom]))
    requires Bound(cat, headKeys, [atom]) && Bound(cat, headValues, [atom])
    requires needed == Elements(headKeys) + Elements(headValues) + NegatedVars(cat, negated)
    requires keys == OrderedVariables(cat.negatives[negated[0]])
    requires values == Selected(OrderedVariables(cat.positives[atom]), keys, needed)
    ensures Bound(cat, keys, [atom]) && Bound(cat, values, [atom])
    ensures AntijoinsReady(cat, [atom], Layout(cat, keys, values, [atom]), negated, headKeys, headValues, needed)
  {
    VarsOfOne(cat, atom);
    assert needed <= Variables(cat.positives[atom]);
    LayoutSupplies(cat, [atom], needed, keys, values);
  }

  /** A base atom, its subatoms semijoined first, and then its negated atoms antijoined. */
  function SemijoinsThenAntijoins(cat: Catalog, atom: nat, subatoms: seq<nat>, negated: seq<nat>, headKeys: seq<Var>,
                                  headValues: seq<Var>,
                                  comparisons: seq<nat>): (r: Option<Transformation>)
    requires atom < |cat.positives| && ScopedComparisons(cat, comparisons, Variables(cat.positives[atom]))
    requires Bound(cat, headKeys, [atom]) && Bound(cat, headValues, [atom])
    requires ScopedAtoms(cat, subatoms, Variables(cat.positives[atom]))
    requires ScopedNegated(cat, negated, Variables(cat.positives[atom]))
    ensures r.None? <==> RefusesSome(cat, negated, comparisons)
    ensures r.Some? ==> r.value.output == Layout(cat, headKeys, headValues, [atom])
    ensures r.Some? ==> Leftmost(r.value) == cat.positives[atom].relation
    ensures r.Some? ==> Computes(cat, r.value, Union(Goal({atom} + Indices(subatoms), {}, Indices(comparisons)), Goal({}, Indices(negated), {})))
  {
    var g := Goal({atom} + Indices(subatoms), {}, Indices(comparisons));
    if negated == [] then
      UnionNothing(g);
      Some(RecursiveSemijoins(cat, atom, subatoms, headKeys, headValues, comparisons))
    else
      var needed := Elements(headKeys) + Elements(headValues) + NegatedVars(cat, negated);
      var keys := OrderedVariables(cat.negatives[negated[0]]);
      var values := Selected(OrderedVariables(cat.positives[atom]), keys, needed);
      LeafAntijoinsReady(cat, atom, negated, headKeys, headValues, keys, values, needed);
      var base := RecursiveSemijoins(cat, atom, subatoms, keys, values, comparisons);
      var r := RecursiveAntijoins(cat, [atom], base, negated, headKeys, headValues, comparisons, needed, g);
      if r.Some? then OverKeeps(r.value, base, base, base); r else r
  }

  /** A base atom with the active atoms it subsumes semijoined and the active negated atoms it binds antijoined. */
  method PerAtomRecursiveSemijoinsAndAntijoins(cat: Catalog, atom: nat, headKeys: seq<Var>, headValues: seq<Var>,
                                               negation: array<bool>, nonCore: array<bool>,
                                               comparisons: seq<nat>) returns (r: Option<Transformation>)
    requires negation != nonCore && BitmapsFit(cat, negation[..], nonCore[..])
    requires atom < |cat.positives| && ValidScope(cat, [atom])
    requires ScopedComparisons(cat, comparisons, VarsOf(cat, [atom]))
    requires Bound(cat, headKeys, [atom]) && Bound(cat, headValues, [atom])
    modifies negation, nonCore
    ensures Consumed(cat, [atom], old(negation[..]), old(nonCore[..]), negation[..], nonCore[..])
    ensures r.None? <==> RefusesIn(cat, VarsOf(cat, [atom]), old(negation[..]), comparisons)
    ensures r.Some? ==> Planned(cat, [atom], headKeys, headValues, old(negation[..]), old(nonCore[..]), comparisons, r.value)
    ensures r.Some? ==> Leftmost(r.value) == cat.positives[atom].relation
  {
    ghost var negation0, nonCore0 := negation[..], nonCore[..];
    VarsOfOne(cat, atom);
    var subatoms := TakeContained(cat.positives, Variables(cat.positives[atom]), nonCore);
    var negated := TakeContained(cat.negatives, Variables(cat.positives[atom]), negation);
    LeafNode(cat, atom, negation0, nonCore0, negation[..], nonCore[..], comparisons, subatoms, negated);
    r := SemijoinsThenAntijoins(cat, atom, subatoms, negated, headKeys, headValues, comparisons);
  }

  /* ------------------------------------------------------------------ */
  /* Joins                                                                */
  /* ------------------------------------------------------------------ */

  /** How a join divides a subtree: the leftover atoms come first in its pre-order, the planning side's after them,
      and `full` continues with atoms peeled off earlier. Each side holds the shared variables and its own values. */
  datatype Split = Split(full: seq<nat>, front: seq<nat>, back: seq<nat>, keys: seq<Var>, frontValues: seq<Var>,
                         backValues: seq<Var>)

  ghost predicate ValidSplit(cat: Catalog, p: Split) {
    && ValidScope(cat, p.full) && ValidScope(cat, p.front) && ValidScope(cat, p.back) && p.front + p.back <= p.full
    && Bound(cat, p.keys, p.front) && Bound(cat, p.frontValues, p.front) && Bound(cat, p.keys, p.back)
    && Bound(cat, p.backValues, p.back)
    && (forall x :: x in p.backValues ==> x !in VarsOf(cat, p.front))
  }

  function Held(p: Split): set<Var> {
    Elements(p.keys) + Elements(p.frontValues) + Elements(p.backValues)
  }

  function FrontLayout(cat: Catalog, p: Split): Collection
    requires ValidSplit(cat, p)
  {
    Layout(cat, p.keys, p.frontValues, p.front)
  }

  function BackLayout(cat: Catalog, p: Split): Collection
    requires ValidSplit(cat, p)
  {
    Layout(cat, p.keys, p.backValues, p.back)
  }

  lemma FullContinues(cat: Catalog, p: Split) returns (rest: seq<nat>)
    requires ValidSplit(cat, p)
    ensures ValidScope(cat, rest) && ValidScope(cat, p.back + rest) && p.full == p.front + (p.back + rest)
  {
    rest := p.full[|p.front + p.back|..];
    assert p.full == (p.front + p.back) + rest;
    assert (p.front + p.back) + rest == p.front + (p.back + rest);
    assert forall i :: 0 <= i < |rest| ==> rest[i] == p.full[|p.front + p.back| + i];
  }

  /** A variable of the front, traced through the whole pre-order, is the front's own column. */
  lemma FrontSupplies(cat: Catalog, p: Split, x: Var)
    requires ValidSplit(cat, p) && (x in p.keys || x in p.frontValues)
    ensures x in VarsOf(cat, p.full) && Trace(cat, x, p.full) in FrontLayout(cat, p).keys + FrontLayout(cat, p).values
  {
    var rest := FullContinues(cat, p);
    TraceFront(cat, x, p.front, p.back + rest);
    LayoutSupplies(cat, p.front, {x}, p.keys, p.frontValues);
  }

  /** A variable only the back mentions is the back's own column. */
  lemma BackSupplies(cat: Catalog, p: Split, x: Var)
    requires ValidSplit(cat, p) && x in p.backValues
    ensures x in VarsOf(cat, p.full) && Trace(cat, x, p.full) in BackLayout(cat, p).values
  {
    var rest := FullContinues(cat, p);
    TraceFront(cat, x, p.back, rest);
    TraceBack(cat, x, p.front, p.back + rest);
    var i :| 0 <= i < |p.backValues| && p.backValues[i] == x;
    assert BackLayout(cat, p).values[i] == Trace(cat, x, p.back);
  }

  /** Every variable a side holds is found in the join's inputs by its first occurrence in the whole pre-order. */
  lemma HeldSupplied(cat: Catalog, p: Split)
    requires ValidSplit(cat, p)
    ensures Held(p) <= VarsOf(cat, p.full)
    ensures forall x :: x in Held(p) ==> Trace(cat, x, p.full) in JoinArgumentFlowMap(FrontLayout(cat, p), BackLayout(cat, p))
  {
    forall x | x in Held(p)
      ensures x in VarsOf(cat, p.full)
      ensures Trace(cat, x, p.full) in JoinArgumentFlowMap(FrontLayout(cat, p), BackLayout(cat, p))
    {
      if x in p.keys || x in p.frontValues {
        FrontSupplies(cat, p, x);
      } else {
        BackSupplies(cat, p, x);
      }
    }
  }

  /** Any layout of held variables can flow over the join. */
  lemma HeldFlows(cat: Catalog, p: Split, keys: seq<Var>, values: seq<Var>)
    requires ValidSplit(cat, p) && Elements(keys) <= Held(p) && Elements(values) <= Held(p)
    ensures Bound(cat, keys, p.full) && Bound(cat, values, p.full)
    ensures var output := Layout(cat, keys, values, p.full);
      forall sig :: sig in output.keys + output.values ==> sig in JoinArgumentFlowMap(FrontLayout(cat, p), BackLayout(cat, p))
  {
    HeldColumns(cat, p, keys);
    HeldColumns(cat, p, values);
  }

  lemma HeldColumns(cat: Catalog, p: Split, xs: seq<Var>)
    requires ValidSplit(cat, p) && Elements(xs) <= Held(p)
    ensures Bound(cat, xs, p.full)
    ensures forall sig :: sig in TopDownTrace(cat, xs, p.full) ==>
      sig in JoinArgumentFlowMap(FrontLayout(cat, p), BackLayout(cat, p))
  {
    HeldSupplied(cat, p);
    ElementsBound(cat, xs, p.full, Held(p));
    forall i | 0 <= i < |xs|
      ensures TopDownTrace(cat, xs, p.full)[i] in JoinArgumentFlowMap(FrontLayout(cat, p), BackLayout(cat, p))
    {
      assert xs[i] in Elements(xs);
    }
  }

  /** Any comparison over held variables can be fused into the join. */
  lemma HeldCompares(cat: Catalog, p: Split, ids: seq<nat>)
    requires ValidSplit(cat, p) && ScopedComparisons(cat, ids, Held(p))
    ensures ScopedComparisons(cat, ids, VarsOf(cat, p.full))
    ensures forall d :: d in AssembleComparisons(cat, ids, p.full) ==>
      CanFlow(JoinArgumentFlowMap(FrontLayout(cat, p), BackLayout(cat, p)), d)
  {
    HeldSupplied(cat, p);
    var ds := AssembleComparisons(cat, ids, p.full);
    forall d | d in ds
      ensures CanFlow(JoinArgumentFlowMap(FrontLayout(cat, p), BackLayout(cat, p)), d)
    {
      var k :| 0 <= k < |ids| && ds[k] == d;
      var c := cat.comparisons[ids[k]];
      assert Elements(Labels(c.left)) <= ComparisonVariables(c) && Elements(Labels(c.right)) <= ComparisonVariables(c);
      HeldFlows(cat, p, Labels(c.left), Labels(c.right));
      var both := Layout(cat, Labels(c.left), Labels(c.right), p.full);
      assert both.keys == Labels(d.left) && both.values == Labels(d.right);
    }
  }

  /** What the two planned sides of a join promise. */
  ghost predicate SidesPlanned(cat: Catalog, p: Split, left: Transformation, right: Transformation, L: Goal, R: Goal) {
    && ValidSplit(cat, p)
    && left.output == FrontLayout(cat, p) && right.output == BackLayout(cat, p)
    && Computes(cat, left, L) && Computes(cat, right, R)
    && Within(cat, L, VarsOf(cat, p.front)) && Within(cat, R, VarsOf(cat, p.back))
    && (forall x :: x in VarsOf(cat, p.front) && x in VarsOf(cat, p.back) ==> x in p.keys)
  }

  /** The join of two planned sides with its fused comparisons. */
  function FusedJoin(cat: Catalog, p: Split, left: Transformation, right: Transformation, atJoin: seq<nat>,
                     keys: seq<Var>, values: seq<Var>,
                     ghost L: Goal, ghost R: Goal): (t: Transformation)
    requires SidesPlanned(cat, p, left, right, L, R)
    requires ScopedComparisons(cat, atJoin, Held(p)) && Elements(keys) <= Held(p) && Elements(values) <= Held(p)
    ensures Bound(cat, keys, p.full) && Bound(cat, values, p.full) && t.output == Layout(cat, keys, values, p.full)
    ensures Computes(cat, t, Union(Union(L, R), Goal({}, {}, Indices(atJoin)))) && JoinsSides(t, left, right)
  {
    HeldFlows(cat, p, keys, values);
    HeldCompares(cat, p, atJoin);
    var ds := AssembleComparisons(cat, atJoin, p.full);
    var output := Layout(cat, keys, values, p.full);
    JoinComputes(cat, left, right, L, R, VarsOf(cat, p.front), VarsOf(cat, p.back), output, atJoin, ds);
    MakeJoin(left, right, output, ds)
  }

  lemma RemainingHeld(p: Split, keys: seq<Var>)
    ensures var values := Remaining(p.keys + p.frontValues + p.backValues, keys);
      Elements(values) <= Held(p) && forall x :: x in Held(p) ==> x in keys || x in values
  {
  }

  lemma JoinAntijoinsReady(cat: Catalog, p: Split, attached: seq<nat>, headKeys: seq<Var>, headValues: seq<Var>,
                           keys: seq<Var>, values: seq<Var>)
    requires ValidSplit(cat, p) && attached != [] && ScopedNegated(cat, attached, Held(p))
    requires Elements(headKeys) <= Held(p) && Elements(headValues) <= Held(p)
    requires keys == OrderedVariables(cat.negatives[attached[0]])
    requires Bound(cat, keys, p.full) && Bound(cat, values, p.full)
    requires forall x :: x in Held(p) ==> x in keys || x in values
    ensures Held(p) <= VarsOf(cat, p.full)
    ensures AntijoinsReady(cat, p.full, Layout(cat, keys, values, p.full), attached, headKeys, headValues, Held(p))
  {
    HeldSupplied(cat, p);
    LayoutSupplies(cat, p.full, Held(p), keys, values);
  }

  /** A join laid out for its first antijoin, and then the antijoins of the negated atoms attached to it. */
  function JoinBelowAntijoins(cat: Catalog, p: Split, left: Transformation, right: Transformation, atJoin: seq<nat>,
                              attached: seq<nat>,
                              headKeys: seq<Var>, headValues: seq<Var>, comparisons: seq<nat>, ghost L: Goal,
                              ghost R: Goal): (r: Option<Transformation>)
    requires SidesPlanned(cat, p, left, right, L, R) && attached != []
    requires ScopedComparisons(cat, atJoin, Held(p)) && Elements(headKeys) <= Held(p) && Elements(headValues) <= Held(p)
    requires ScopedNegated(cat, attached, Held(p)) && ValidComparisons(cat, comparisons)
    requires Indices(comparisons) <= Union(Union(L, R), Goal({}, {}, Indices(atJoin))).comparisons
    ensures r.None? <==> RefusesSome(cat, attached, comparisons)
    ensures r.Some? ==> Bound(cat, headKeys, p.full) && Bound(cat, headValues, p.full) && r.value.output == Layout(cat, headKeys, headValues, p.full)
    ensures r.Some? ==> Computes(cat, r.value, Union(Union(Union(L, R), Goal({}, {}, Indices(atJoin))), Goal({}, Indices(attached), {})))
    ensures r.Some? ==> JoinsSides(r.value, left, right)
  {
    var keys := OrderedVariables(cat.negatives[attached[0]]);
    var values := Remaining(p.keys + p.frontValues + p.backValues, keys);
    assert Elements(keys) == Variables(cat.negatives[attached[0]]);
    RemainingHeld(p, keys);
    var base := FusedJoin(cat, p, left, right, atJoin, keys, values, L, R);
    JoinAntijoinsReady(cat, p, attached, headKeys, headValues, keys, values);
    var r := RecursiveAntijoins(cat, p.full, base, attached, headKeys, headValues, comparisons, Held(p),
                                Union(Union(L, R), Goal({}, {}, Indices(atJoin))));
    if r.Some? then OverKeeps(r.value, base, left, right); r else r
  }

  /** A join, and then the antijoins of the negated atoms attached to it, if any. */
  function JoinThenAntijoins(cat: Catalog, p: Split, left: Transformation, right: Transformation, atJoin: seq<nat>,
                             attached: seq<nat>,
                             headKeys: seq<Var>, headValues: seq<Var>, comparisons: seq<nat>, ghost L: Goal,
                             ghost R: Goal): (r: Option<Transformation>)
    requires SidesPlanned(cat, p, left, right, L, R)
    requires ScopedComparisons(cat, atJoin, Held(p)) && Elements(headKeys) <= Held(p) && Elements(headValues) <= Held(p)
    requires ScopedNegated(cat, attached, Held(p)) && ValidComparisons(cat, comparisons)
    requires Indices(comparisons) <= Union(Union(L, R), Goal({}, {}, Indices(atJoin))).comparisons
    ensures r.None? <==> RefusesSome(cat, attached, comparisons)
    ensures r.Some? ==> Bound(cat, headKeys, p.full) && Bound(cat, headValues, p.full) && r.value.output == Layout(cat, headKeys, headValues, p.full)
    ensures r.Some? ==> Computes(cat, r.value, Union(Union(Union(L, R), Goal({}, {}, Indices(atJoin))), Goal({}, Indices(attached), {})))
    ensures r.Some? ==> JoinsSides(r.value, left, right)
  {
    if attached == [] then
      UnionNothing(Union(Union(L, R), Goal({}, {}, Indices(atJoin))));
      Some(FusedJoin(cat, p, left, right, atJoin, headKeys, headValues, L, R))
    else
      JoinBelowAntijoins(cat, p, left, right, atJoin, attached, headKeys, headValues, comparisons, L, R)
  }

  /* ------------------------------------------------------------------ */
  /* The recursion                                                        */
  /* ------------------------------------------------------------------ */

  /** The state of the bitmaps while a join node is planned: on entry, after the negations attached to the join are
      taken, after the planning side, and after the leftover side. */
  ghost predicate NodeTrace(cat: Catalog, front: seq<nat>, back: seq<nat>, attached: seq<nat>,
                            negation0: seq<bool>, nonCore0: seq<bool>, negation1: seq<bool>,
                            negation2: seq<bool>, nonCore2: seq<bool>)
  {
    && ValidScope(cat, front) && ValidScope(cat, back) && ValidScope(cat, front + back)
    && BitmapsFit(cat, negation0, nonCore0) && BitmapsFit(cat, negation1, nonCore0)
    && BitmapsFit(cat, negation2, nonCore2)
    && (forall n: nat :: n in attached <==> n < |negation0| && negation0[n] && Straddles(Variables(cat.negatives[n]), VarsOf(cat, front), VarsOf(cat, back)))
    && (forall n :: 0 <= n < |negation0| ==> negation1[n] == (negation0[n] && !Straddles(Variables(cat.negatives[n]), VarsOf(cat, front), VarsOf(cat, back))))
    && Consumed(cat, back, negation1, nonCore0, negation2, nonCore2)
  }

  /** Every active negated atom of a node is consumed once: at the join, on the planning side, or on the leftover
      side. */
  lemma NodeNegated(cat: Catalog, front: seq<nat>, back: seq<nat>, attached: seq<nat>, negation0: seq<bool>,
                    nonCore0: seq<bool>,
                    negation1: seq<bool>, negation2: seq<bool>, nonCore2: seq<bool>)
    requires NodeTrace(cat, front, back, attached, negation0, nonCore0, negation1, negation2, nonCore2)
    ensures NegatedIn(cat, VarsOf(cat, front + back), negation0)
      == NegatedIn(cat, VarsOf(cat, back), negation1) + NegatedIn(cat, VarsOf(cat, front), negation2) + Indices(attached)
  {
    VarsOfConcat(cat, front, back);
  }

  /** And so is every active subsumed atom. */
  lemma NodeSubsumed(cat: Catalog, front: seq<nat>, back: seq<nat>, attached: seq<nat>, negation0: seq<bool>,
                     nonCore0: seq<bool>,
                     negation1: seq<bool>, negation2: seq<bool>, nonCore2: seq<bool>)
    requires NodeTrace(cat, front, back, attached, negation0, nonCore0, negation1, negation2, nonCore2)
    ensures Subsumed(cat, front + back, nonCore0) == Subsumed(cat, back, nonCore0) + Subsumed(cat, front, nonCore2)
  {
    var both := front + back;
    forall i: nat | i in Subsumed(cat, both, nonCore0)
      ensures i in Subsumed(cat, back, nonCore0) + Subsumed(cat, front, nonCore2)
    {
      var k :| 0 <= k < |both| && Variables(cat.positives[i]) <= Variables(cat.positives[both[k]]);
      assert both[k] == if k < |front| then front[k] else back[k - |front|];
      if k >= |front| {
        assert Variables(cat.positives[i]) <= Variables(cat.positives[back[k - |front|]]);
      }
    }
    forall i: nat | i in Subsumed(cat, back, nonCore0)
      ensures i in Subsumed(cat, both, nonCore0)
    {
      var k :| 0 <= k < |back| && Variables(cat.positives[i]) <= Variables(cat.positives[back[k]]);
      assert both[|front| + k] == back[k];
    }
    forall i: nat | i in Subsumed(cat, front, nonCore2)
      ensures i in Subsumed(cat, both, nonCore0)
    {
      var k :| 0 <= k < |front| && Variables(cat.positives[i]) <= Variables(cat.positives[front[k]]);
      assert both[k] == front[k];
    }
  }

  /** A join node consumes what its subtree binds. */
  lemma NodeConsumed(cat: Catalog, front: seq<nat>, back: seq<nat>, attached: seq<nat>, negation0: seq<bool>,
                     nonCore0: seq<bool>,
                     negation1: seq<bool>, negation2: seq<bool>, nonCore2: seq<bool>, negation3: seq<bool>,
                     nonCore3: seq<bool>)
    requires NodeTrace(cat, front, back, attached, negation0, nonCore0, negation1, negation2, nonCore2)
    requires Consumed(cat, front, negation2, nonCore2, negation3, nonCore3)
    ensures Consumed(cat, front + back, negation0, nonCore0, negation3, nonCore3)
  {
    NodeNegated(cat, front, back, attached, negation0, nonCore0, negation1, negation2, nonCore2);
    NodeSubsumed(cat, front, back, attached, negation0, nonCore0, negation1, negation2, nonCore2);
  }

  /** The goals of the two sides, the fused comparisons and the attached negations make up the node's goal. */
  lemma NodeGoalDivides(cat: Catalog, front: seq<nat>, back: seq<nat>, attached: seq<nat>, negation0: seq<bool>,
                        nonCore0: seq<bool>,
                        negation1: seq<bool>, negation2: seq<bool>, nonCore2: seq<bool>,
                        comparisons: seq<nat>, atJoin: seq<nat>, atLeft: seq<nat>, atRight: seq<nat>)
    requires NodeTrace(cat, front, back, attached, negation0, nonCore0, negation1, negation2, nonCore2)
    requires Partitioned(cat, VarsOf(cat, front), VarsOf(cat, back), comparisons, atJoin, atLeft, atRight)
    ensures var L, R := NodeGoal(cat, front, negation2, nonCore2, atLeft), NodeGoal(cat, back, negation1, nonCore0, atRight);
      && NodeGoal(cat, front + back, negation0, nonCore0, comparisons) == Union(Union(Union(L, R), Goal({}, {}, Indices(atJoin))), Goal({}, Indices(attached), {}))
      && Indices(comparisons) <= Union(Union(L, R), Goal({}, {}, Indices(atJoin))).comparisons
  {
    NodeNegated(cat, front, back, attached, negation0, nonCore0, negation1, negation2, nonCore2);
    NodeSubsumed(cat, front, back, attached, negation0, nonCore0, negation1, negation2, nonCore2);
    IndicesConcat(front, back);
    PartitionCovers(cat, VarsOf(cat, front), VarsOf(cat, back), comparisons, atJoin, atLeft, atRight);
    GoalDivides(Indices(front), Subsumed(cat, front, nonCore2), NegatedIn(cat, VarsOf(cat, front), negation2), Indices(atLeft),
                Indices(back), Subsumed(cat, back, nonCore0), NegatedIn(cat, VarsOf(cat, back),
                        negation1), Indices(atRight), Indices(attached), Indices(atJoin));
  }

  lemma GoalDivides(fa: set<nat>, fs: set<nat>, fn: set<nat>, fc: set<nat>, ba: set<nat>, bs: set<nat>, bn: set<nat>,
                    bc: set<nat>, an: set<nat>, jc: set<nat>)
    ensures Goal(fa + ba + (bs + fs), bn + fn + an, fc + bc + jc)
      == Union(Union(Union(Goal(fa + fs, fn, fc), Goal(ba + bs, bn, bc)), Goal({}, {}, jc)), Goal({}, an, {}))
    ensures fc + bc + jc <= Union(Union(Goal(fa + fs, fn, fc), Goal(ba + bs, bn, bc)), Goal({}, {}, jc)).comparisons
  {
  }

  lemma IndicesConcat(a: seq<nat>, b: seq<nat>)
    ensures Indices(a + b) == Indices(a) + Indices(b)
  {
  }

  lemma PartitionCovers(cat: Catalog, left: set<Var>, right: set<Var>, comparisons: seq<nat>, atJoin: seq<nat>,
                        atLeft: seq<nat>, atRight: seq<nat>)
    requires Partitioned(cat, left, right, comparisons, atJoin, atLeft, atRight)
    ensures Indices(comparisons) == Indices(atLeft) + Indices(atRight) + Indices(atJoin)
  {
  }

  /** Whether an atom is refused depends only on the comparisons it alone binds. */
  lemma RefusesAgrees(cat: Catalog, rhs: nat, some: seq<nat>, others: seq<nat>)
    requires rhs < |cat.negatives| && ValidComparisons(cat, some) && ValidComparisons(cat, others)
    requires forall i: nat :: i < |cat.comparisons| && ComparisonVariables(cat.comparisons[i]) <= Variables(cat.negatives[rhs]) ==> (i in some <==> i in others)
    requires Refuses(cat, rhs, some)
    ensures Refuses(cat, rhs, others)
  {
    var xs := Variables(cat.negatives[rhs]);
    if xs != {} {
      var a, b := Contained(cat, some, xs), Contained(cat, others, xs);
      var k :| 0 <= k < |a| && !TraceableComparison(cat, cat.comparisons[a[k]], rhs);
      assert a[k] in a && a[k] in b;
      var j :| 0 <= j < |b| && b[j] == a[k];
    }
  }

  /** A node is refused exactly when a side of it or a negation attached to it is. */
  lemma NodeRefuses(cat: Catalog, front: seq<nat>, back: seq<nat>, attached: seq<nat>, negation0: seq<bool>,
                    nonCore0: seq<bool>,
                    negation1: seq<bool>, negation2: seq<bool>, nonCore2: seq<bool>,
                    comparisons: seq<nat>, atJoin: seq<nat>, atLeft: seq<nat>, atRight: seq<nat>)
    requires NodeTrace(cat, front, back, attached, negation0, nonCore0, negation1, negation2, nonCore2)
    requires Partitioned(cat, VarsOf(cat, front), VarsOf(cat, back), comparisons, atJoin, atLeft, atRight)
    requires ValidComparisons(cat, comparisons) && ValidComparisons(cat, atLeft) && ValidComparisons(cat, atRight)
    ensures RefusesIn(cat, VarsOf(cat, front + back), negation0, comparisons) <==>
      || RefusesIn(cat, VarsOf(cat, back), negation1, atRight)
      || RefusesIn(cat, VarsOf(cat, front), negation2, atLeft)
      || RefusesSome(cat, attached, comparisons)
  {
    NodeNegated(cat, front, back, attached, negation0, nonCore0, negation1, negation2, nonCore2);
    VarsOfConcat(cat, front, back);
    SideRefusesIn(cat, VarsOf(cat, back), negation1, comparisons, atRight);
    SideRefusesIn(cat, VarsOf(cat, front), negation2, comparisons, atLeft);
    RefusesUnion(cat, NegatedIn(cat, VarsOf(cat, back), negation1), NegatedIn(cat, VarsOf(cat, front), negation2),
                 Indices(attached), comparisons);
  }

  lemma RefusesUnion(cat: Catalog, a: set<nat>, b: set<nat>, c: set<nat>, comparisons: seq<nat>)
    requires ValidComparisons(cat, comparisons)
    ensures RefusesAny(cat, a + b + c, comparisons) <==>
      RefusesAny(cat, a, comparisons) || RefusesAny(cat, b, comparisons) || RefusesAny(cat, c, comparisons)
  {
  }

  /** One side's negations are refused alike with the node's comparisons and with its own. */
  lemma SideRefusesIn(cat: Catalog, xs: set<Var>, negation: seq<bool>, comparisons: seq<nat>, side: seq<nat>)
    requires |negation| == |cat.negatives| && ValidComparisons(cat, comparisons) && ValidComparisons(cat, side)
    requires forall i :: i in side <==> i in comparisons && i < |cat.comparisons| && ComparisonVariables(cat.comparisons[i]) <= xs
    ensures RefusesIn(cat, xs, negation, side) <==> RefusesIn(cat, xs, negation, comparisons)
  {
    forall n | n in NegatedIn(cat, xs, negation)
      ensures Refuses(cat, n, comparisons) <==> Refuses(cat, n, side)
    {
      SideRefuses(cat, n, xs, comparisons, side);
    }
  }

  lemma SideRefuses(cat: Catalog, n: nat, xs: set<Var>, comparisons: seq<nat>, side: seq<nat>)
    requires n < |cat.negatives| && Variables(cat.negatives[n]) <= xs && ValidComparisons(cat, comparisons)
    requires ValidComparisons(cat, side)
    requires forall i :: i in side <==> i in comparisons && i < |cat.comparisons| && ComparisonVariables(cat.comparisons[i]) <= xs
    ensures Refuses(cat, n, comparisons) <==> Refuses(cat, n, side)
  {
    if Refuses(cat, n, comparisons) {
      RefusesAgrees(cat, n, comparisons, side);
    }
    if Refuses(cat, n, side) {
      RefusesAgrees(cat, n, side, comparisons);
    }
  }

  /** A layout does not depend on the atoms after those that bind it. */
  lemma LayoutPrefix(cat: Catalog, keys: seq<Var>, values: seq<Var>, scope: seq<nat>, full: seq<nat>)
    requires ValidScope(cat, scope) && ValidScope(cat, full) && scope <= full && Bound(cat, keys, scope)
    requires Bound(cat, values, scope)
    ensures Bound(cat, keys, full) && Bound(cat, values, full)
    ensures Layout(cat, keys, values, full) == Layout(cat, keys, values, scope)
  {
    TracePrefix(cat, keys, scope, full);
    TracePrefix(cat, values, scope, full);
  }

  lemma TracePrefix(cat: Catalog, xs: seq<Var>, scope: seq<nat>, full: seq<nat>)
    requires ValidScope(cat, scope) && ValidScope(cat, full) && scope <= full && Bound(cat, xs, scope)
    ensures Bound(cat, xs, full) && TopDownTrace(cat, xs, full) == TopDownTrace(cat, xs, scope)
  {
    var rest := full[|scope|..];
    assert full == scope + rest && ValidScope(cat, rest);
    forall i | 0 <= i < |xs|
      ensures xs[i] in VarsOf(cat, full) && Trace(cat, xs[i], full) == Trace(cat, xs[i], scope)
    {
      TraceFront(cat, xs[i], scope, rest);
    }
  }

  lemma ScopeOfPrefix(cat: Catalog, scope: seq<nat>, full: seq<nat>)
    requires ValidScope(cat, full) && scope <= full
    ensures ValidScope(cat, scope)
  {
    assert forall i :: 0 <= i < |scope| ==> scope[i] == full[i];
  }

  /** The variables a join's sides must hold: those asked for above, those the fused comparisons read, and those the
      attached negations read. */
  function WantedAtJoin(cat: Catalog, headKeys: seq<Var>, headValues: seq<Var>, atJoin: seq<nat>,
                        attached: seq<nat>): set<Var>
    requires ValidComparisons(cat, atJoin) && forall k :: 0 <= k < |attached| ==> attached[k] < |cat.negatives|
  {
    Elements(headKeys) + Elements(headValues) + ComparedVars(cat, atJoin) + NegatedVars(cat, attached)
  }

  function ComparedVars(cat: Catalog, ids: seq<nat>): (xs: set<Var>)
    requires ValidComparisons(cat, ids)
    ensures ScopedComparisons(cat, ids, xs)
    ensures forall x :: x in xs ==> exists k :: 0 <= k < |ids| && x in ComparisonVariables(cat.comparisons[ids[k]])
  {
    set k, x | 0 <= k < |ids| && x in ComparisonVariables(cat.comparisons[ids[k]]) :: x
  }

  /** The lists of arguments of the two sides of a join, as `ListArguments` collects them. */
  ghost predicate ListedSplit(cat: Catalog, p: Split, wanted: set<Var>) {
    && ValidScope(cat, p.full) && ValidScope(cat, p.front) && ValidScope(cat, p.back) && p.front + p.back <= p.full
    && (forall x :: x in p.keys <==> x in VarsOf(cat, p.back) && x in VarsOf(cat, p.front))
    && (forall x :: x in p.frontValues <==> x in VarsOf(cat, p.front) && x !in VarsOf(cat, p.back) && x in wanted)
    && (forall x :: x in p.backValues <==> x in VarsOf(cat, p.back) && x !in VarsOf(cat, p.front) && x in wanted)
  }

  lemma ListedIsValid(cat: Catalog, p: Split, headKeys: seq<Var>, headValues: seq<Var>, atJoin: seq<nat>,
                      attached: seq<nat>)
    requires ValidComparisons(cat, atJoin) && forall k :: 0 <= k < |attached| ==> attached[k] < |cat.negatives|
    requires ListedSplit(cat, p, WantedAtJoin(cat, headKeys, headValues, atJoin, attached))
    requires WantedAtJoin(cat, headKeys, headValues, atJoin, attached) <= VarsOf(cat, p.front) + VarsOf(cat, p.back)
    ensures ValidSplit(cat, p)
    ensures ScopedComparisons(cat, atJoin, Held(p)) && ScopedNegated(cat, attached, Held(p))
    ensures Elements(headKeys) <= Held(p) && Elements(headValues) <= Held(p)
  {
    assert WantedAtJoin(cat, headKeys, headValues, atJoin, attached) <= Held(p);
  }

  lemma WantedBound(cat: Catalog, xs: set<Var>, headKeys: seq<Var>, headValues: seq<Var>, atJoin: seq<nat>,
                    attached: seq<nat>)
    requires Elements(headKeys) <= xs && Elements(headValues) <= xs
    requires ScopedComparisons(cat, atJoin, xs) && ScopedNegated(cat, attached, xs)
    ensures WantedAtJoin(cat, headKeys, headValues, atJoin, attached) <= xs
  {
    assert ComparedVars(cat, atJoin) <= xs;
    assert NegatedVars(cat, attached) <= xs;
  }

  /** The planned sides of a node, and everything its join needs of them. */
  lemma SidesAreReady(cat: Catalog, p: Split, left: Transformation, right: Transformation,
                      negation1: seq<bool>, nonCore0: seq<bool>, negation2: seq<bool>, nonCore2: seq<bool>,
                      atLeft: seq<nat>, atRight: seq<nat>)
    requires ValidSplit(cat, p) && BitmapsFit(cat, negation1, nonCore0) && BitmapsFit(cat, negation2, nonCore2)
    requires forall x :: x in p.keys <==> x in VarsOf(cat, p.back) && x in VarsOf(cat, p.front)
    requires Planned(cat, p.front, p.keys, p.frontValues, negation2, nonCore2, atLeft, left)
    requires Planned(cat, p.back, p.keys, p.backValues, negation1, nonCore0, atRight, right)
    requires ScopedComparisons(cat, atLeft, VarsOf(cat, p.front))
    requires ScopedComparisons(cat, atRight, VarsOf(cat, p.back))
    ensures SidesPlanned(cat, p, left, right, NodeGoal(cat, p.front, negation2, nonCore2, atLeft), NodeGoal(cat, p.back, negation1, nonCore0, atRight))
  {
    NodeGoalWithin(cat, p.front, negation2, nonCore2, atLeft);
    NodeGoalWithin(cat, p.back, negation1, nonCore0, atRight);
  }

  /** A node made ready: its comparisons divided, its straddling negations taken, its sides' arguments listed. */
  ghost predicate Prepared(cat: Catalog, p: Split, headKeys: seq<Var>, headValues: seq<Var>, comparisons: seq<nat>,
                           atJoin: seq<nat>, atLeft: seq<nat>, atRight: seq<nat>, attached: seq<nat>,
                           negation0: seq<bool>, nonCore0: seq<bool>, negation1: seq<bool>)
  {
    && ValidSplit(cat, p) && ValidScope(cat, p.front + p.back)
    && (forall x :: x in p.keys <==> x in VarsOf(cat, p.back) && x in VarsOf(cat, p.front))
    && ScopedComparisons(cat, atLeft, VarsOf(cat, p.front)) && ScopedComparisons(cat, atRight, VarsOf(cat, p.back))
    && ScopedComparisons(cat, atJoin, Held(p)) && ScopedNegated(cat, attached, Held(p))
    && Elements(headKeys) <= Held(p) && Elements(headValues) <= Held(p)
    && Partitioned(cat, VarsOf(cat, p.front), VarsOf(cat, p.back), comparisons, atJoin, atLeft, atRight)
    && BitmapsFit(cat, negation0, nonCore0) && BitmapsFit(cat, negation1, nonCore0)
    && Attached(cat.negatives, VarsOf(cat, p.front), VarsOf(cat, p.back), negation0, negation1, attached)
  }

  /** Divides a node's comparisons, takes the negations attached to its join, and lists its sides' arguments. */
  method PrepareJoin(cat: Catalog, full: seq<nat>, leftover: seq<nat>, planning: seq<nat>, headKeys: seq<Var>,
                     headValues: seq<Var>,
                     negation: array<bool>, comparisons: seq<nat>, ghost nonCore0: seq<bool>)
    returns (p: Split, atJoin: seq<nat>, atLeft: seq<nat>, atRight: seq<nat>, attached: seq<nat>)
    requires BitmapsFit(cat, negation[..], nonCore0)
    requires ValidScope(cat, full) && leftover + planning <= full && ValidScope(cat, leftover)
    requires ValidScope(cat, planning) && ValidScope(cat, leftover + planning)
    requires ScopedComparisons(cat, comparisons, VarsOf(cat, leftover) + VarsOf(cat, planning))
    requires Elements(headKeys) <= VarsOf(cat, leftover) + VarsOf(cat, planning)
    requires Elements(headValues) <= VarsOf(cat, leftover) + VarsOf(cat, planning)
    modifies negation
    ensures p.full == full && p.front == leftover && p.back == planning
    ensures Prepared(cat, p, headKeys, headValues, comparisons, atJoin, atLeft, atRight, attached, old(negation[..]), nonCore0, negation[..])
  {
    var leftoverVars, planningVars := VarsOf(cat, leftover), VarsOf(cat, planning);
    atJoin, atLeft, atRight := PartitionComparisonPredicates(cat, leftoverVars, planningVars, comparisons);
    attached := AttachNegatedAtomsOnJoins(cat.negatives, leftoverVars, planningVars, negation);
    assert ScopedNegated(cat, attached, leftoverVars + planningVars) by {
      assert forall k :: 0 <= k < |attached| ==> attached[k] in attached;
    }
    WantedBound(cat, leftoverVars + planningVars, headKeys, headValues, atJoin, attached);
    var wanted := WantedAtJoin(cat, headKeys, headValues, atJoin, attached);
    var joinKeys, planningValues := ListArguments(cat, planning, leftoverVars, wanted);
    var _, leftoverValues := ListArguments(cat, leftover, planningVars, wanted);
    p := Split(full, leftover, planning, joinKeys, leftoverValues, planningValues);
    ListedIsValid(cat, p, headKeys, headValues, atJoin, attached);
  }

  /** The join of a prepared node over its two planned sides. */
  function JoinNode(cat: Catalog, p: Split, left: Transformation, right: Transformation, headKeys: seq<Var>,
                    headValues: seq<Var>, comparisons: seq<nat>,
                    atJoin: seq<nat>, ghost atLeft: seq<nat>, ghost atRight: seq<nat>, attached: seq<nat>,
                    ghost negation0: seq<bool>, ghost nonCore0: seq<bool>, ghost negation1: seq<bool>, ghost negation2: seq<bool>, ghost nonCore2: seq<bool>)
    : (r: Option<Transformation>)
    requires Prepared(cat, p, headKeys, headValues, comparisons, atJoin, atLeft, atRight, attached, negation0, nonCore0, negation1)
    requires ValidComparisons(cat, comparisons) && Bound(cat, headKeys, p.front + p.back)
    requires Bound(cat, headValues, p.front + p.back)
    requires Consumed(cat, p.back, negation1, nonCore0, negation2, nonCore2)
    requires Planned(cat, p.front, p.keys, p.frontValues, negation2, nonCore2, atLeft, left)
    requires Planned(cat, p.back, p.keys, p.backValues, negation1, nonCore0, atRight, right)
    ensures r.None? <==> RefusesSome(cat, attached, comparisons)
    ensures r.Some? ==> Planned(cat, p.front + p.back, headKeys, headValues, negation0, nonCore0, comparisons, r.value)
    ensures r.Some? ==> JoinsSides(r.value, left, right)
  {
    SidesAreReady(cat, p, left, right, negation1, nonCore0, negation2, nonCore2, atLeft, atRight);
    NodeGoalDivides(cat, p.front, p.back, attached, negation0, nonCore0, negation1, negation2, nonCore2, comparisons,
                    atJoin, atLeft, atRight);
    LayoutPrefix(cat, headKeys, headValues, p.front + p.back, p.full);
    JoinThenAntijoins(cat, p, left, right, atJoin, attached, headKeys, headValues, comparisons,
                      NodeGoal(cat, p.front, negation2, nonCore2, atLeft), NodeGoal(cat, p.back, negation1, nonCore0, atRight))
  }

  /** The pre-orders of the two sides of a peeled tree. */
  lemma PeeledScopes(cat: Catalog, subTrees: map<nat, seq<nat>>, tree: JoinTree)
    requires tree.children != [] && PeeledSubTrees(tree, subTrees) && ValidScope(cat, subTrees[tree.atom])
    ensures var child, rest := tree.children[|tree.children| - 1], Truncated(tree);
      && PeeledSubTrees(child, subTrees) && PeeledSubTrees(rest, subTrees)
      && (forall i :: 0 <= i < |rest.children| ==> rest.children[i].atom in subTrees)
      && PreOrder(rest) == [tree.atom] + ListedPreOrders(rest.children, subTrees)
      && PreOrder(child) == subTrees[child.atom]
      && PreOrder(tree) == PreOrder(rest) + PreOrder(child)
      && ValidScope(cat, PreOrder(rest)) && ValidScope(cat, PreOrder(child)) && ValidScope(cat, PreOrder(tree))
      && VarsOf(cat, PreOrder(tree)) == VarsOf(cat, PreOrder(rest)) + VarsOf(cat, PreOrder(child))
  {
    var child, rest := tree.children[|tree.children| - 1], Truncated(tree);
    PreOrderTruncated(tree);
    PeeledTruncated(tree, subTrees);
    ListedPreOrdersExact(rest.children, subTrees);
    ScopeOfPrefix(cat, PreOrder(tree), subTrees[tree.atom]);
    ScopeOfSides(cat, PreOrder(rest), PreOrder(child));
    VarsOfConcat(cat, PreOrder(rest), PreOrder(child));
  }

  /** The operators join as the tree does: at every node its last child's side to what is left of the node; and at a
      leaf everything hangs on the node's own atom. */
  ghost predicate PlansTree(cat: Catalog, t: Transformation, tree: JoinTree) {
    match t
    case Antijoin(left, _, _, _) => PlansTree(cat, left, tree)
    case FromAtom(_, _, _, _) => tree.children == [] && PlansLeaf(cat, t, tree)
    case Join(left, right, _, _) =>
      if tree.children == [] then
        PlansLeaf(cat, t, tree)
      else
        PlansTree(cat, left, Truncated(tree)) && PlansTree(cat, right, tree.children[|tree.children| - 1])
  }

  ghost predicate PlansLeaf(cat: Catalog, t: Transformation, tree: JoinTree) {
    tree.atom < |cat.positives| && Leftmost(t) == cat.positives[tree.atom].relation
  }

  lemma {:induction false} PlansAtLeaf(cat: Catalog, t: Transformation, tree: JoinTree)
    requires tree.children == [] && PlansLeaf(cat, t, tree)
    ensures PlansTree(cat, t, tree)
  {
    if t.Antijoin? {
      PlansAtLeaf(cat, t.left, tree);
    }
  }

  lemma {:induction false} PlansAtJoin(cat: Catalog, t: Transformation, left: Transformation, right: Transformation,
                                         tree: JoinTree)
    requires tree.children != [] && JoinsSides(t, left, right)
    requires PlansTree(cat, left, Truncated(tree)) && PlansTree(cat, right, tree.children[|tree.children| - 1])
    ensures PlansTree(cat, t, tree)
  {
    if t.Antijoin? {
      PlansAtJoin(cat, t.left, left, right, tree);
    }
  }

  method PlanLeaf(cat: Catalog, tree: JoinTree, headKeys: seq<Var>, headValues: seq<Var>, negation: array<bool>,
                  nonCore: array<bool>, comparisons: seq<nat>) returns (r: Option<Transformation>)
    requires negation != nonCore && BitmapsFit(cat, negation[..], nonCore[..])
    requires tree.children == [] && ValidScope(cat, PreOrder(tree))
    requires ScopedComparisons(cat, comparisons, VarsOf(cat, PreOrder(tree)))
    requires Bound(cat, headKeys, PreOrder(tree)) && Bound(cat, headValues, PreOrder(tree))
    modifies negation, nonCore
    ensures r.None? <==> RefusesIn(cat, VarsOf(cat, PreOrder(tree)), old(negation[..]), comparisons)
    ensures r.Some? ==> Consumed(cat, PreOrder(tree), old(negation[..]), old(nonCore[..]), negation[..], nonCore[..])
    ensures r.Some? ==> Planned(cat, PreOrder(tree), headKeys, headValues, old(negation[..]), old(nonCore[..]), comparisons, r.value)
    ensures r.Some? ==> PlansTree(cat, r.value, tree)
  {
    assert PreOrder(tree) == [tree.atom];
    r := PerAtomRecursiveSemijoinsAndAntijoins(cat, tree.atom, headKeys, headValues, negation, nonCore, comparisons);
    if r.Some? {
      PlansAtLeaf(cat, r.value, tree);
    }
  }

  /** Plans a subtree: peels off its last child, plans that child's subtree and the leftover, and joins them. The result
      computes exactly what the subtree enforces, and consumes exactly the atoms and negations its variables bind. */
  method RecursiveTransformations(cat: Catalog, subTrees: map<nat, seq<nat>>, tree: JoinTree, headKeys: seq<Var>,
                                  headValues: seq<Var>,
                                  negation: array<bool>, nonCore: array<bool>,
                                  comparisons: seq<nat>) returns (r: Option<Transformation>)
    requires negation != nonCore && BitmapsFit(cat, negation[..], nonCore[..])
    requires PeeledSubTrees(tree, subTrees) && ValidScope(cat, subTrees[tree.atom]) && ValidScope(cat, PreOrder(tree))
    requires ScopedComparisons(cat, comparisons, VarsOf(cat, PreOrder(tree)))
    requires Bound(cat, headKeys, PreOrder(tree)) && Bound(cat, headValues, PreOrder(tree))
    modifies negation, nonCore
    ensures r.None? <==> RefusesIn(cat, VarsOf(cat, PreOrder(tree)), old(negation[..]), comparisons)
    ensures r.Some? ==> Consumed(cat, PreOrder(tree), old(negation[..]), old(nonCore[..]), negation[..], nonCore[..])
    ensures r.Some? ==> Planned(cat, PreOrder(tree), headKeys, headValues, old(negation[..]), old(nonCore[..]), comparisons, r.value)
    ensures r.Some? ==> PlansTree(cat, r.value, tree)
    decreases |PreOrder(tree)|
  {
    if tree.children == [] {
      r := PlanLeaf(cat, tree, headKeys, headValues, negation, nonCore, comparisons);
      return;
    }
    ghost var negation0, nonCore0 := negation[..], nonCore[..];
    var planningChild, rest := tree.children[|tree.children| - 1], Truncated(tree);
    PeeledScopes(cat, subTrees, tree);
    var planning := subTrees[planningChild.atom];
    var leftover := [tree.atom] + ListedPreOrders(rest.children, subTrees);
    var p, atJoin, atLeft, atRight, attached := PrepareJoin(cat, subTrees[tree.atom], leftover, planning, headKeys, headValues, negation, comparisons, nonCore0);
    ghost var negation1 := negation[..];
    var right := RecursiveTransformations(cat, subTrees, planningChild, p.keys, p.backValues, negation, nonCore, atRight);
    if right.None? {
      NodeRefusesAtBack(cat, leftover, planning, attached, negation0, nonCore0, negation1, comparisons, atJoin, atLeft,
                        atRight);
      return None;
    }
    ghost var negation2, nonCore2 := negation[..], nonCore[..];
    var left := RecursiveTransformations(cat, subTrees, rest, p.keys, p.frontValues, negation, nonCore, atLeft);
    NodeRefuses(cat, leftover, planning, attached, negation0, nonCore0, negation1, negation2, nonCore2, comparisons,
                atJoin, atLeft, atRight);
    if left.None? {
      return None;
    }
    NodeConsumed(cat, leftover, planning, attached, negation0, nonCore0, negation1, negation2, nonCore2, negation[..],
                 nonCore[..]);
    r := JoinNode(cat, p, left.value, right.value, headKeys, headValues, comparisons, atJoin, atLeft, atRight, attached,
                  negation0, nonCore0, negation1, negation2, nonCore2);
    if r.Some? {
      PlansAtJoin(cat, r.value, left.value, right.value, tree);
    }
  }

  lemma ScopeOfSides(cat: Catalog, front: seq<nat>, back: seq<nat>)
    requires ValidScope(cat, front + back)
    ensures ValidScope(cat, front) && ValidScope(cat, back)
  {
    var both := front + back;
    assert forall i :: 0 <= i < |front| ==> both[i] == front[i];
    assert forall i :: 0 <= i < |back| ==> both[|front| + i] == back[i];
  }

  /** A refusal on the planning side refuses the node, whatever the leftover side holds. */
  lemma NodeRefusesAtBack(cat: Catalog, front: seq<nat>, back: seq<nat>, attached: seq<nat>, negation0: seq<bool>,
                          nonCore0: seq<bool>, negation1: seq<bool>,
                          comparisons: seq<nat>, atJoin: seq<nat>, atLeft: seq<nat>, atRight: seq<nat>)
    requires ValidScope(cat, front) && ValidScope(cat, back) && ValidScope(cat, front + back)
    requires BitmapsFit(cat, negation0, nonCore0) && BitmapsFit(cat, negation1, nonCore0)
    requires forall n :: 0 <= n < |negation0| ==>
      negation1[n] == (negation0[n] && !Straddles(Variables(cat.negatives[n]), VarsOf(cat, front), VarsOf(cat, back)))
    requires Partitioned(cat, VarsOf(cat, front), VarsOf(cat, back), comparisons, atJoin, atLeft, atRight)
    requires ValidComparisons(cat, comparisons) && ValidComparisons(cat, atRight)
    requires RefusesIn(cat, VarsOf(cat, back), negation1, atRight)
    ensures RefusesIn(cat, VarsOf(cat, front + back), negation0, comparisons)
  {
    VarsOfConcat(cat, front, back);
    var n :| n in NegatedIn(cat, VarsOf(cat, back), negation1) && Refuses(cat, n, atRight);
    SideRefuses(cat, n, VarsOf(cat, back), comparisons, atRight);
    assert n in NegatedIn(cat, VarsOf(cat, front + back), negation0);
  }
}

/** Why Prim's trees overlap as much as any tree over the core atoms: at every threshold, no tree has more edges that
    overlap by that much. */
module MaximumTrees {
  import opened Datalog
  import opened CoreAtoms
  import opened SpanningTrees
  import opened Prim

  /** How much the edge to the `i`-th node overlaps. */
  ghost function Weight(sets: seq<set<Var>>, g: Growth, i: nat): nat
    requires Grown(g) && SpanningTrees.Within(sets, g.order) && 0 < i < |g.order|
  {
    Overlap(sets, g.order[g.up[i]], g.order[i])
  }

  /** No node of an order overlaps a later one by more than any edge taken between them. */
  ghost predicate Greedy(sets: seq<set<Var>>, g: Growth)
    requires Grown(g) && SpanningTrees.Within(sets, g.order)
  {
    forall j: nat, i: nat, k: nat :: j < i <= k < |g.order| ==> Overlap(sets, g.order[j], g.order[k]) <= Weight(sets, g, i)
  }

  lemma PrimIsGreedy(sets: seq<set<Var>>, core: seq<bool>, root: nat, g: Growth)
    requires IsPrim(sets, core, root, g)
    ensures Greedy(sets, g)
  {
    forall j: nat, i: nat, k: nat | j < i <= k < |g.order|
      ensures Overlap(sets, g.order[j], g.order[k]) <= Weight(sets, g, i)
    {
      assert Takes(sets, core, g, i);
      assert g.order[k] in g.order && Waits(core, g, i, g.order[k]);
      assert !Above(OfferAt(sets, g, j, g.order[k]), EntryAt(sets, g, i));
    }
  }

  /* ------------------------------------------------------------------ */
  /* Stretches                                                            */
  /* ------------------------------------------------------------------ */

  /** Where the stretch of edges of at least the threshold around a node of the order starts. */
  ghost function Start(sets: seq<set<Var>>, g: Growth, t: nat, i: nat): nat
    requires Grown(g) && SpanningTrees.Within(sets, g.order) && i < |g.order|
  {
    if i == 0 || Weight(sets, g, i) < t then i else Start(sets, g, t, i - 1)
  }

  lemma {:induction false} StartStays(sets: seq<set<Var>>, g: Growth, t: nat, i: nat, k: nat)
    requires Grown(g) && SpanningTrees.Within(sets, g.order) && i <= k < |g.order|
    requires forall p :: i < p <= k ==> Weight(sets, g, p) >= t
    ensures Start(sets, g, t, k) == Start(sets, g, t, i)
  {
    if i < k {
      StartStays(sets, g, t, i, k - 1);
    }
  }

  /** Nodes that overlap by the threshold lie in one stretch. */
  lemma SameStretch(sets: seq<set<Var>>, g: Growth, t: nat, i: nat, k: nat)
    requires Grown(g) && SpanningTrees.Within(sets, g.order) && Greedy(sets, g) && i < |g.order| && k < |g.order|
    requires Overlap(sets, g.order[i], g.order[k]) >= t
    ensures Start(sets, g, t, i) == Start(sets, g, t, k)
  {
    if i <= k {
      StartStays(sets, g, t, i, k);
    } else {
      assert sets[g.order[i]] * sets[g.order[k]] == sets[g.order[k]] * sets[g.order[i]];
      StartStays(sets, g, t, k, i);
    }
  }

  /** How many of the first edges overlap by less than the threshold. */
  ghost function Light(sets: seq<set<Var>>, g: Growth, t: nat, n: nat): nat
    requires Grown(g) && SpanningTrees.Within(sets, g.order) && n <= |g.order|
  {
    if n <= 1 then 0 else Light(sets, g, t, n - 1) + if Weight(sets, g, n - 1) < t then 1 else 0
  }

  ghost function Starts(sets: seq<set<Var>>, g: Growth, t: nat, n: nat): set<nat>
    requires Grown(g) && SpanningTrees.Within(sets, g.order) && n <= |g.order|
  {
    if n == 0 then {} else Starts(sets, g, t, n - 1) + if n == 1 || Weight(sets, g, n - 1) < t then {n - 1} else {}
  }

  lemma {:induction false} StartsCount(sets: seq<set<Var>>, g: Growth, t: nat, n: nat)
    requires Grown(g) && SpanningTrees.Within(sets, g.order) && 0 < n <= |g.order|
    ensures |Starts(sets, g, t, n)| == 1 + Light(sets, g, t, n)
    ensures forall i :: i in Starts(sets, g, t, n) ==> i < n && Start(sets, g, t, i) == i
  {
    if n > 1 {
      StartsCount(sets, g, t, n - 1);
    } else {
      assert Starts(sets, g, t, 1) == {0};
    }
  }

  /** The stretch of a node, by its place in Prim's order. */
  ghost function StretchOf(sets: seq<set<Var>>, g: Growth, t: nat, x: nat): nat
    requires Grown(g) && SpanningTrees.Within(sets, g.order) && x in g.order
  {
    Start(sets, g, t, Position(g.order, x))
  }

  lemma SameStretchOf(sets: seq<set<Var>>, g: Growth, t: nat, x: nat, y: nat)
    requires Grown(g) && SpanningTrees.Within(sets, g.order) && Greedy(sets, g) && x in g.order && y in g.order
    requires x < |sets| && y < |sets| && Overlap(sets, x, y) >= t
    ensures StretchOf(sets, g, t, x) == StretchOf(sets, g, t, y)
  {
    SameStretch(sets, g, t, Position(g.order, x), Position(g.order, y));
  }

  lemma WithOne<T>(s: set<T>, x: T)
    ensures |s + {x}| <= |s| + 1
  {
    Sizes(s, {x});
  }

  ghost predicate Inside(order: seq<nat>, nodes: seq<nat>) {
    forall i :: 0 <= i < |order| ==> order[i] in nodes
  }

  ghost predicate SameNodes(g: Growth, g': Growth) {
    Inside(g.order, g'.order) && Inside(g'.order, g.order)
  }

  /** The stretches the first nodes of another tree lie in. */
  ghost function Met(sets: seq<set<Var>>, g: Growth, t: nat, order: seq<nat>, n: nat): (met: set<nat>)
    requires Grown(g) && SpanningTrees.Within(sets, g.order) && n <= |order| && Inside(order, g.order)
    ensures forall i :: 0 <= i < n ==> StretchOf(sets, g, t, order[i]) in met
  {
    if n == 0 then {} else Met(sets, g, t, order, n - 1) + {StretchOf(sets, g, t, order[n - 1])}
  }

  lemma MetNext(sets: seq<set<Var>>, g: Growth, t: nat, g': Growth, n: nat)
    requires Grown(g) && SpanningTrees.Within(sets, g.order) && Greedy(sets, g) && Grown(g')
    requires SpanningTrees.Within(sets, g'.order)
    requires 1 < n <= |g'.order| && Inside(g'.order, g.order)
    ensures |Met(sets, g, t, g'.order, n)| <= |Met(sets, g, t, g'.order, n - 1)| + if Weight(sets, g', n - 1) < t then 1 else 0
  {
    var up := g'.up[n - 1];
    assert g'.order[up] in g.order && g'.order[n - 1] in g.order;
    var met, at := Met(sets, g, t, g'.order, n - 1), StretchOf(sets, g, t, g'.order[n - 1]);
    if Weight(sets, g', n - 1) >= t {
      SameStretchOf(sets, g, t, g'.order[up], g'.order[n - 1]);
      assert StretchOf(sets, g, t, g'.order[up]) in met;
      assert met + {at} == met;
    } else {
      WithOne(met, at);
    }
  }

  /** Every further stretch a tree meets costs it an edge below the threshold. */
  lemma {:induction false} MetCount(sets: seq<set<Var>>, g: Growth, t: nat, g': Growth, n: nat)
    requires Grown(g) && SpanningTrees.Within(sets, g.order) && Greedy(sets, g) && Grown(g')
    requires SpanningTrees.Within(sets, g'.order)
    requires 0 < n <= |g'.order| && Inside(g'.order, g.order)
    ensures |Met(sets, g, t, g'.order, n)| <= 1 + Light(sets, g', t, n)
  {
    if n > 1 {
      MetCount(sets, g, t, g', n - 1);
      MetNext(sets, g, t, g', n);
    } else {
      assert Met(sets, g, t, g'.order, 1) == {StretchOf(sets, g, t, g'.order[0])};
    }
  }

  lemma StartMet(sets: seq<set<Var>>, g: Growth, t: nat, order: seq<nat>, i: nat)
    requires Grown(g) && SpanningTrees.Within(sets, g.order) && i < |g.order| && Start(sets, g, t, i) == i
    requires g.order[i] in order
    requires Inside(order, g.order)
    ensures i in Met(sets, g, t, order, |order|)
  {
    var x := g.order[i];
    assert Position(g.order, x) == i;
    assert StretchOf(sets, g, t, order[Position(order, x)]) in Met(sets, g, t, order, |order|);
  }

  /** At any threshold, a greedy tree has the fewest edges below it. */
  lemma FewestLight(sets: seq<set<Var>>, g: Growth, t: nat, g': Growth)
    requires Grown(g) && SpanningTrees.Within(sets, g.order) && Greedy(sets, g) && Grown(g')
    requires SpanningTrees.Within(sets, g'.order)
    requires g.order != [] && SameNodes(g, g')
    ensures Light(sets, g, t, |g.order|) <= Light(sets, g', t, |g'.order|)
  {
    var starts, met := Starts(sets, g, t, |g.order|), Met(sets, g, t, g'.order, |g'.order|);
    StartsCount(sets, g, t, |g.order|);
    MetCount(sets, g, t, g', |g'.order|);
    forall i | i in starts
      ensures i in met
    {
      StartMet(sets, g, t, g'.order, i);
    }
    SubsetSizes(starts, met);
  }

  /* ------------------------------------------------------------------ */
  /* Thresholds add up to the overlap                                     */
  /* ------------------------------------------------------------------ */

  /** The edges at or above each threshold from 1 to `m`, counted once for each. */
  ghost function Levels(sets: seq<set<Var>>, g: Growth, m: nat, n: nat): int
    requires Grown(g) && SpanningTrees.Within(sets, g.order) && n <= |g.order|
  {
    if m == 0 then 0 else Levels(sets, g, m - 1, n) + n - 1 - Light(sets, g, m, n)
  }

  lemma {:induction false} LevelsNext(sets: seq<set<Var>>, g: Growth, m: nat, n: nat)
    requires Grown(g) && SpanningTrees.Within(sets, g.order) && 1 < n <= |g.order|
    ensures Levels(sets, g, m, n) == Levels(sets, g, m, n - 1) + if Weight(sets, g, n - 1) < m then Weight(sets, g, n - 1) else m
  {
    if m > 0 {
      LevelsNext(sets, g, m - 1, n);
    }
  }

  lemma {:induction false} LevelsOne(sets: seq<set<Var>>, g: Growth, m: nat)
    requires Grown(g) && SpanningTrees.Within(sets, g.order) && g.order != []
    ensures Levels(sets, g, m, 1) == 0
  {
    if m > 0 {
      LevelsOne(sets, g, m - 1);
    }
  }

  /** Counted at every threshold, an edge counts for its overlap. */
  lemma {:induction false} LevelsAll(sets: seq<set<Var>>, g: Growth, m: nat, n: nat)
    requires Grown(g) && SpanningTrees.Within(sets, g.order) && 0 < n <= |g.order| && EdgeOverlap(sets, g, n) <= m
    ensures Levels(sets, g, m, n) == EdgeOverlap(sets, g, n)
  {
    if n > 1 {
      LevelsAll(sets, g, m, n - 1);
      LevelsNext(sets, g, m, n);
    } else {
      LevelsOne(sets, g, m);
    }
  }

  lemma {:induction false} LevelsLess(sets: seq<set<Var>>, g: Growth, g': Growth, m: nat)
    requires Grown(g) && SpanningTrees.Within(sets, g.order) && Greedy(sets, g) && Grown(g')
    requires SpanningTrees.Within(sets, g'.order)
    requires g.order != [] && |g.order| == |g'.order| && SameNodes(g, g')
    ensures Levels(sets, g', m, |g'.order|) <= Levels(sets, g, m, |g.order|)
  {
    if m > 0 {
      LevelsLess(sets, g, g', m - 1);
      FewestLight(sets, g, m, g');
    }
  }

  lemma {:induction false} ListedCount(order: seq<nat>, n: nat)
    requires n <= |order| && forall i, j :: 0 <= i < j < |order| ==> order[i] != order[j]
    ensures |Listed(order, n)| == n
  {
    if n > 0 {
      ListedCount(order, n - 1);
    }
  }

  lemma SameLength(g: Growth, g': Growth)
    requires Grown(g) && Grown(g') && SameNodes(g, g')
    ensures |g.order| == |g'.order|
  {
    ListedCount(g.order, |g.order|);
    ListedCount(g'.order, |g'.order|);
    forall x: nat
      ensures x in Listed(g.order, |g.order|) <==> x in Listed(g'.order, |g'.order|)
    {
      assert x in Listed(g.order, |g.order|) <==> x in g.order;
      assert x in Listed(g'.order, |g'.order|) <==> x in g'.order;
    }
    assert Listed(g.order, |g.order|) == Listed(g'.order, |g'.order|);
  }

  /* ------------------------------------------------------------------ */
  /* The maximum                                                          */
  /* ------------------------------------------------------------------ */

  /** Prim's tree is a maximum spanning tree: no tree over the same atoms overlaps by more, whatever its root. */
  lemma PrimIsMaximum(sets: seq<set<Var>>, core: seq<bool>, root: nat, g: Growth, g': Growth)
    requires IsPrim(sets, core, root, g) && Grown(g') && SpanningTrees.Within(sets, g'.order)
    requires forall x: nat :: x in g'.order <==> x < |core| && core[x]
    ensures EdgeOverlap(sets, g', |g'.order|) <= EdgeOverlap(sets, g, |g.order|)
  {
    assert forall x :: x in g.order <==> x in g'.order;
    assert SameNodes(g, g');
    SameLength(g, g');
    PrimIsGreedy(sets, core, root, g);
    var m := EdgeOverlap(sets, g, |g.order|) + EdgeOverlap(sets, g', |g'.order|);
    LevelsAll(sets, g, m, |g.order|);
    LevelsAll(sets, g', m, |g'.order|);
    LevelsLess(sets, g, g', m);
  }

  /** Some tree over the core atoms keeps the atoms of every variable together: a join tree. */
  ghost predicate HasJoinTree(sets: seq<set<Var>>, core: seq<bool>) {
    exists g :: IsJoinTree(sets, core, g)
  }

  ghost predicate IsJoinTree(sets: seq<set<Var>>, core: seq<bool>, g: Growth) {
    && Grown(g) && SpanningTrees.Within(sets, g.order) && (forall x: nat :: x in g.order <==> x < |core| && core[x])
    && forall x :: x in UnionAll(sets) ==> Connected(sets, g, x)
  }

  /** A tree over the core atoms never overlaps by more than the maximum, and reaches it exactly when it is a join
      tree. */
  lemma ReachesMaximum(sets: seq<set<Var>>, core: seq<bool>, g: Growth)
    requires Grown(g) && SpanningTrees.Within(sets, g.order) && g.order != []
    requires (forall x: nat :: x in g.order <==> x < |core| && core[x])
    requires |sets| == |core| && forall i :: 0 <= i < |sets| && !core[i] ==> sets[i] == {}
    ensures EdgeOverlap(sets, g, |g.order|) + |UnionAll(sets)| <= SumAll(sets)
    ensures EdgeOverlap(sets, g, |g.order|) + |UnionAll(sets)| == SumAll(sets) <==> IsJoinTree(sets, core, g)
  {
    OverlapBound(sets, g);
    SumsAgree(sets, g);
  }

  /** Prim's tree reaches the maximum exactly when the rule has a join tree at all - and is then one. */
  lemma PrimDecidesAcyclicity(sets: seq<set<Var>>, core: seq<bool>, root: nat, g: Growth)
    requires IsPrim(sets, core, root, g) && forall i :: 0 <= i < |sets| && !core[i] ==> sets[i] == {}
    ensures EdgeOverlap(sets, g, |g.order|) + |UnionAll(sets)| == SumAll(sets) <==> HasJoinTree(sets, core)
    ensures HasJoinTree(sets, core) <==> IsJoinTree(sets, core, g)
  {
    assert root in g.order;
    ReachesMaximum(sets, core, g);
    if g' :| IsJoinTree(sets, core, g') {
      assert root in g'.order;
      PrimIsMaximum(sets, core, root, g, g');
      ReachesMaximum(sets, core, g');
    }
  }
}

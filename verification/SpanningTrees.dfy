/** Rooted spanning trees grown node by node, and how much their edges overlap. */
module SpanningTrees {
  import opened Datalog
  import opened JoinTrees
  import opened CoreAtoms

  /** Nodes in the order they joined the tree; node `i > 0` hangs below the earlier node `up[i]`. */
  datatype Growth = Growth(order: seq<nat>, up: seq<nat>)

  ghost predicate Grown(g: Growth) {
    && |g.order| == |g.up|
    && (forall i, j :: 0 <= i < j < |g.order| ==> g.order[i] != g.order[j])
    && (forall i :: 0 < i < |g.up| ==> g.up[i] < i)
  }

  /** The map lists, for every node, exactly the nodes below it, each once, in whatever order. */
  ghost predicate IsTreeOf(g: Growth, tree: map<nat, seq<nat>>)
    requires Grown(g)
  {
    match g
    case Growth(order, _) =>
      && (forall x :: x in tree <==> x in order)
      && (forall j :: 0 <= j < |order| ==> ListsChildren(g, j, tree[order[j]]))
  }

  ghost predicate ListsChildren(g: Growth, j: nat, children: seq<nat>)
    requires Grown(g)
  {
    && (forall x :: multiset(children)[x] <= 1)
    && (forall x :: x in children <==> HangsBelow(g, j, x))
  }

  ghost predicate HangsBelow(g: Growth, j: nat, x: nat)
    requires Grown(g)
  {
    exists i :: 0 < i < |g.order| && g.order[i] == x && g.up[i] == j
  }

  function Position(order: seq<nat>, x: nat): (i: nat)
    requires x in order
    ensures i < |order| && order[i] == x
  {
    if order[0] == x then 0 else 1 + Position(order[1..], x)
  }

  lemma ChildPosition(g: Growth, tree: map<nat, seq<nat>>, j: nat, k: nat)
    requires Grown(g) && IsTreeOf(g, tree) && j < |g.order| && k < |tree[g.order[j]]|
    ensures var x := tree[g.order[j]][k]; x in g.order && j < Position(g.order, x) && g.up[Position(g.order, x)] == j
  {
    var x := tree[g.order[j]][k];
    assert x in tree[g.order[j]] && ListsChildren(g, j, tree[g.order[j]]);
    var i :| 0 < i < |g.order| && g.order[i] == x && g.up[i] == j;
    assert Position(g.order, x) == i;
  }

  /** The subtree below node `j`, as the planner walks it. */
  function ToTree(g: Growth, tree: map<nat, seq<nat>>, j: nat): (t: JoinTree)
    requires Grown(g) && IsTreeOf(g, tree) && j < |g.order|
    ensures t.atom == g.order[j] && |t.children| == |tree[g.order[j]]|
    decreases |g.order| - j
  {
    var children := tree[g.order[j]];
    Node(g.order[j], seq(|children|, k requires 0 <= k < |children| =>
      ChildPosition(g, tree, j, k); ToTree(g, tree, Position(g.order, children[k]))))
  }

  lemma ToTreeChild(g: Growth, tree: map<nat, seq<nat>>, j: nat, k: nat)
    requires Grown(g) && IsTreeOf(g, tree) && j < |g.order| && k < |tree[g.order[j]]|
    ensures tree[g.order[j]][k] in g.order && Position(g.order, tree[g.order[j]][k]) > j
    ensures ToTree(g, tree, j).children[k] == ToTree(g, tree, Position(g.order, tree[g.order[j]][k]))
  {
    ChildPosition(g, tree, j, k);
  }

  /* ------------------------------------------------------------------ */
  /* Spanning                                                             */
  /* ------------------------------------------------------------------ */

  predicate DescendsFrom(g: Growth, i: nat, j: nat)
    requires |g.order| == |g.up| && forall i :: 0 < i < |g.up| ==> g.up[i] < i
    requires i < |g.order|
    decreases i
  {
    i == j || (i > 0 && DescendsFrom(g, g.up[i], j))
  }

  lemma {:induction false} AllDescendFromRoot(g: Growth, i: nat)
    requires Grown(g) && i < |g.order|
    ensures DescendsFrom(g, i, 0)
    decreases i
  {
    if i > 0 {
      AllDescendFromRoot(g, g.up[i]);
    }
  }

  /** A proper descendant passes through some child. */
  lemma {:induction false} DescendsThrough(g: Growth, i: nat, j: nat) returns (c: nat)
    requires Grown(g) && i < |g.order| && i != j && DescendsFrom(g, i, j)
    ensures 0 < c < |g.order| && g.up[c] == j && DescendsFrom(g, i, c) && j < c
    decreases i
  {
    if g.up[i] == j {
      c := i;
    } else {
      c := DescendsThrough(g, g.up[i], j);
    }
  }

  ghost predicate InSome(ts: seq<JoinTree>, x: nat) {
    exists k :: 0 <= k < |ts| && x in PreOrder(ts[k])
  }

  lemma {:induction false} PreOrderAllHas(ts: seq<JoinTree>, x: nat)
    ensures x in PreOrderAll(ts) <==> InSome(ts, x)
  {
    if ts != [] {
      var front, last := ts[..|ts| - 1], ts[|ts| - 1];
      PreOrderAllHas(front, x);
      InSomeLast(ts, x);
      assert x in PreOrderAll(ts) <==> x in PreOrderAll(front) || x in PreOrder(last);
    }
  }

  lemma InSomeLast(ts: seq<JoinTree>, x: nat)
    requires ts != []
    ensures InSome(ts, x) <==> InSome(ts[..|ts| - 1], x) || x in PreOrder(ts[|ts| - 1])
  {
    var front := ts[..|ts| - 1];
    if InSome(front, x) {
      var k :| 0 <= k < |front| && x in PreOrder(front[k]);
      assert ts[k] == front[k];
    }
    if InSome(ts, x) {
      var k :| 0 <= k < |ts| && x in PreOrder(ts[k]);
      assert k < |front| ==> front[k] == ts[k];
    }
  }

  /** The pre-order of a node lists exactly its descendants. */
  lemma {:induction false} PreOrderDescends(g: Growth, tree: map<nat, seq<nat>>, j: nat, i: nat)
    requires Grown(g) && IsTreeOf(g, tree) && j < |g.order| && i < |g.order|
    ensures g.order[i] in PreOrder(ToTree(g, tree, j)) <==> DescendsFrom(g, i, j)
    decreases |g.order| - j
  {
    var t, x, children := ToTree(g, tree, j), g.order[i], tree[g.order[j]];
    PreOrderAllHas(t.children, x);
    if i != j && DescendsFrom(g, i, j) {
      var c := DescendsThrough(g, i, j);
      assert ListsChildren(g, j, children) && g.order[c] in children;
      var k :| 0 <= k < |children| && children[k] == g.order[c];
      ToTreeChild(g, tree, j, k);
      assert Position(g.order, children[k]) == c;
      PreOrderDescends(g, tree, c, i);
    }
    if i != j && x in PreOrder(t) {
      var k :| 0 <= k < |t.children| && x in PreOrder(t.children[k]);
      ChildPosition(g, tree, j, k);
      ToTreeChild(g, tree, j, k);
      var c := Position(g.order, children[k]);
      PreOrderDescends(g, tree, c, i);
      DescendsUp(g, i, c);
    }
  }

  lemma {:induction false} DescendsUp(g: Growth, i: nat, c: nat)
    requires Grown(g) && i < |g.order| && 0 < c < |g.order| && DescendsFrom(g, i, c)
    ensures DescendsFrom(g, i, g.up[c])
    decreases i
  {
    if i != c {
      DescendsUp(g, g.up[i], c);
    }
  }

  lemma {:induction false} PreOrderInside(g: Growth, tree: map<nat, seq<nat>>, j: nat, x: nat)
    requires Grown(g) && IsTreeOf(g, tree) && j < |g.order| && x in PreOrder(ToTree(g, tree, j))
    ensures x in g.order
    decreases |g.order| - j
  {
    var t := ToTree(g, tree, j);
    PreOrderAllHas(t.children, x);
    if x != g.order[j] {
      var k :| 0 <= k < |t.children| && x in PreOrder(t.children[k]);
      ToTreeChild(g, tree, j, k);
      PreOrderInside(g, tree, Position(g.order, tree[g.order[j]][k]), x);
    }
  }

  /** A grown tree spans its nodes: the root's pre-order lists exactly them. */
  lemma SpansNodes(g: Growth, tree: map<nat, seq<nat>>)
    requires Grown(g) && IsTreeOf(g, tree) && g.order != []
    ensures forall x :: x in PreOrder(ToTree(g, tree, 0)) <==> x in g.order
  {
    forall x
      ensures x in PreOrder(ToTree(g, tree, 0)) <==> x in g.order
    {
      if x in PreOrder(ToTree(g, tree, 0)) {
        PreOrderInside(g, tree, 0, x);
      }
      if x in g.order {
        AllDescendFromRoot(g, Position(g.order, x));
        PreOrderDescends(g, tree, 0, Position(g.order, x));
      }
    }
  }

  /* ------------------------------------------------------------------ */
  /* Overlap                                                              */
  /* ------------------------------------------------------------------ */

  function Overlap(sets: seq<set<Var>>, x: nat, y: nat): nat
    requires x < |sets| && y < |sets|
  {
    |sets[x] * sets[y]|
  }

  ghost predicate Within(sets: seq<set<Var>>, order: seq<nat>) {
    forall i :: 0 <= i < |order| ==> order[i] < |sets|
  }

  /** The overlaps of the edges to the first `n` nodes. */
  ghost function EdgeOverlap(sets: seq<set<Var>>, g: Growth, n: nat): nat
    requires Grown(g) && Within(sets, g.order) && n <= |g.order|
  {
    if n <= 1 then 0 else EdgeOverlap(sets, g, n - 1) + Overlap(sets, g.order[g.up[n - 1]], g.order[n - 1])
  }

  ghost function SizeSum(sets: seq<set<Var>>, order: seq<nat>, n: nat): nat
    requires Within(sets, order) && n <= |order|
  {
    if n == 0 then 0 else SizeSum(sets, order, n - 1) + |sets[order[n - 1]]|
  }

  ghost function Joined(sets: seq<set<Var>>, order: seq<nat>, n: nat): (xs: set<Var>)
    requires Within(sets, order) && n <= |order|
    ensures forall x :: x in xs <==> exists i :: 0 <= i < n && x in sets[order[i]]
  {
    if n == 0 then {} else Joined(sets, order, n - 1) + sets[order[n - 1]]
  }

  lemma Sizes<T>(a: set<T>, b: set<T>)
    ensures |a + b| + |a * b| == |a| + |b|
  {
    assert a + b == a + (b - a);
    assert b == (b - a) + (a * b);
  }

  /** What a later node shares with anything before it, it shares with its parent. */
  ghost predicate RunningIntersection(sets: seq<set<Var>>, g: Growth, n: nat)
    requires Grown(g) && Within(sets, g.order) && n <= |g.order|
  {
    forall i :: 0 < i < n ==> sets[g.order[i]] * Joined(sets, g.order, i) <= sets[g.order[g.up[i]]]
  }

  /** The edges never overlap by more than the repeated occurrences of variables, and by exactly as much when every node
      meets the earlier ones in its parent. */
  lemma {:induction false} OverlapBoundTo(sets: seq<set<Var>>, g: Growth, n: nat)
    requires Grown(g) && Within(sets, g.order) && 0 < n <= |g.order|
    ensures EdgeOverlap(sets, g, n) + |Joined(sets, g.order, n)| <= SizeSum(sets, g.order, n)
    ensures EdgeOverlap(sets, g, n) + |Joined(sets, g.order, n)| == SizeSum(sets, g.order, n) <==>
      RunningIntersection(sets, g, n)
  {
    var last := n - 1;
    var mine, before := sets[g.order[last]], Joined(sets, g.order, last);
    if n == 1 {
      assert before + mine == mine;
    } else {
      var above := sets[g.order[g.up[last]]];
      OverlapBoundTo(sets, g, last);
      assert above <= before;
      SharedSizes(before, mine, above);
      RunningLast(sets, g, n);
    }
  }

  lemma SharedSizes<T>(before: set<T>, mine: set<T>, above: set<T>)
    requires above <= before
    ensures |above * mine| + |before + mine| <= |before| + |mine|
    ensures |above * mine| + |before + mine| == |before| + |mine| <==> mine * before <= above
  {
    Sizes(before, mine);
    assert above * mine <= before * mine;
    SubsetSizes(above * mine, before * mine);
    if above * mine == before * mine {
      assert forall x :: x in mine * before ==> x in before * mine;
    }
    if mine * before <= above {
      assert forall x :: x in before * mine ==> x in mine * before;
      assert above * mine == before * mine;
    }
  }

  lemma RunningLast(sets: seq<set<Var>>, g: Growth, n: nat)
    requires Grown(g) && Within(sets, g.order) && 1 < n <= |g.order|
    ensures RunningIntersection(sets, g, n) <==>
      RunningIntersection(sets, g, n - 1) && sets[g.order[n - 1]] * Joined(sets, g.order, n - 1) <= sets[g.order[g.up[n - 1]]]
  {
  }

  /* ------------------------------------------------------------------ */
  /* Join trees                                                           */
  /* ------------------------------------------------------------------ */

  /** Node `i` reaches node `top` upward, through nodes that all have the variable. */
  ghost predicate Climbs(sets: seq<set<Var>>, g: Growth, x: Var, i: nat, top: nat)
    requires Grown(g) && Within(sets, g.order) && i < |g.order|
    decreases i
  {
    x in sets[g.order[i]] && (i == top || (i > 0 && Climbs(sets, g, x, g.up[i], top)))
  }

  /** The nodes that have the variable form one connected piece of the tree, hanging below `top`. */
  ghost predicate ConnectedBelow(sets: seq<set<Var>>, g: Growth, x: Var, top: nat)
    requires Grown(g) && Within(sets, g.order)
  {
    forall i :: 0 <= i < |g.order| && x in sets[g.order[i]] ==> Climbs(sets, g, x, i, top)
  }

  ghost predicate Connected(sets: seq<set<Var>>, g: Growth, x: Var)
    requires Grown(g) && Within(sets, g.order)
  {
    exists top: nat :: ConnectedBelow(sets, g, x, top)
  }

  lemma {:induction false} ClimbsDown(sets: seq<set<Var>>, g: Growth, x: Var, i: nat, top: nat)
    requires Grown(g) && Within(sets, g.order) && i < |g.order| && Climbs(sets, g, x, i, top)
    ensures top <= i
    decreases i
  {
    if i != top {
      ClimbsDown(sets, g, x, g.up[i], top);
    }
  }

  /** The first node to have the variable. */
  lemma {:induction false} FirstWith(sets: seq<set<Var>>, g: Growth, x: Var, i: nat) returns (top: nat)
    requires Grown(g) && Within(sets, g.order) && i < |g.order| && x in sets[g.order[i]]
    ensures top <= i && x in sets[g.order[top]] && x !in Joined(sets, g.order, top)
  {
    if x in Joined(sets, g.order, i) {
      var j :| 0 <= j < i && x in sets[g.order[j]];
      top := FirstWith(sets, g, x, j);
    } else {
      top := i;
    }
  }

  lemma {:induction false} RunningClimbs(sets: seq<set<Var>>, g: Growth, x: Var, top: nat, i: nat)
    requires Grown(g) && Within(sets, g.order) && RunningIntersection(sets, g, |g.order|)
    requires top < |g.order| && x in sets[g.order[top]] && x !in Joined(sets, g.order, top)
    requires i < |g.order| && x in sets[g.order[i]]
    ensures Climbs(sets, g, x, i, top)
    decreases i
  {
    assert forall j :: 0 <= j < top ==> x !in sets[g.order[j]];
    if i != top {
      assert x in sets[g.order[i]] * Joined(sets, g.order, i);
      RunningClimbs(sets, g, x, top, g.up[i]);
    }
  }

  lemma ConnectedRuns(sets: seq<set<Var>>, g: Growth, i: nat, x: Var)
    requires Grown(g) && Within(sets, g.order) && Connected(sets, g, x)
    requires 0 < i < |g.order| && x in sets[g.order[i]] && x in Joined(sets, g.order, i)
    ensures x in sets[g.order[g.up[i]]]
  {
    var top: nat :| ConnectedBelow(sets, g, x, top);
    var j :| 0 <= j < i && x in sets[g.order[j]];
    BelowRuns(sets, g, i, j, x, top);
  }

  lemma BelowRuns(sets: seq<set<Var>>, g: Growth, i: nat, j: nat, x: Var, top: nat)
    requires Grown(g) && Within(sets, g.order) && j < i < |g.order|
    requires Climbs(sets, g, x, i, top) && Climbs(sets, g, x, j, top)
    ensures x in sets[g.order[g.up[i]]]
  {
    ClimbsDown(sets, g, x, j, top);
    assert Climbs(sets, g, x, g.up[i], top);
  }

  /** The edges overlap by at most the repeated occurrences of variables - and by exactly that many when and only when
      the atoms of every variable are connected in the tree. */
  lemma OverlapBound(sets: seq<set<Var>>, g: Growth)
    requires Grown(g) && Within(sets, g.order) && g.order != []
    ensures EdgeOverlap(sets, g, |g.order|) + |Joined(sets, g.order, |g.order|)| <= SizeSum(sets, g.order, |g.order|)
    ensures EdgeOverlap(sets, g, |g.order|) + |Joined(sets, g.order, |g.order|)| == SizeSum(sets, g.order, |g.order|)
      <==> forall x :: x in Joined(sets, g.order, |g.order|) ==> Connected(sets, g, x)
  {
    var n := |g.order|;
    OverlapBoundTo(sets, g, n);
    if RunningIntersection(sets, g, n) {
      forall x | x in Joined(sets, g.order, n)
        ensures Connected(sets, g, x)
      {
        var i :| 0 <= i < n && x in sets[g.order[i]];
        var top := FirstWith(sets, g, x, i);
        forall i | 0 <= i < n && x in sets[g.order[i]]
          ensures Climbs(sets, g, x, i, top)
        {
          RunningClimbs(sets, g, x, top, i);
        }
        assert ConnectedBelow(sets, g, x, top);
      }
    }
    if forall x :: x in Joined(sets, g.order, n) ==> Connected(sets, g, x) {
      forall i, x | 0 < i < n && x in sets[g.order[i]] * Joined(sets, g.order, i)
        ensures x in sets[g.order[g.up[i]]]
      {
        assert x in Joined(sets, g.order, n);
        ConnectedRuns(sets, g, i, x);
      }
    }
  }

  /* ------------------------------------------------------------------ */
  /* Growing and permuting                                                */
  /* ------------------------------------------------------------------ */

  function GrowChild(g: Growth, p: nat, c: nat): Growth {
    Growth(g.order + [c], g.up + [p])
  }

  /** A new leaf below a node of the tree. */
  function Hang(tree: map<nat, seq<nat>>, parent: nat, child: nat): map<nat, seq<nat>>
    requires parent in tree
  {
    tree[parent := tree[parent] + [child]][child := []]
  }

  /** Hanging a new node below an old one. */
  lemma GrowsChild(g: Growth, tree: map<nat, seq<nat>>, p: nat, c: nat)
    requires Grown(g) && IsTreeOf(g, tree) && p < |g.order| && c !in g.order
    ensures Grown(GrowChild(g, p, c)) && IsTreeOf(GrowChild(g, p, c), Hang(tree, g.order[p], c))
  {
    var g', parent, n := GrowChild(g, p, c), g.order[p], |g.order|;
    var tree' := Hang(tree, parent, c);
    GrownChild(g, p, c);
    forall j | 0 <= j < |g'.order|
      ensures ListsChildren(g', j, tree'[g'.order[j]])
    {
      if j < n {
        assert g.order[j] in g.order && ListsChildren(g, j, tree[g.order[j]]);
        ChildrenGrow(g, p, c, j, tree[g.order[j]]);
      } else {
        assert forall i :: 0 < i < |g'.order| ==> g'.up[i] < n;
      }
    }
  }

  lemma GrownChild(g: Growth, p: nat, c: nat)
    requires Grown(g) && p < |g.order| && c !in g.order
    ensures Grown(GrowChild(g, p, c))
  {
    var g' := GrowChild(g, p, c);
    assert forall i :: 0 <= i < |g.order| ==> g'.order[i] == g.order[i] && g'.up[i] == g.up[i] && g.order[i] in g.order;
  }

  lemma ChildrenGrow(g: Growth, p: nat, c: nat, j: nat, children: seq<nat>)
    requires Grown(g) && p < |g.order| && c !in g.order && Grown(GrowChild(g, p, c)) && j < |g.order|
    requires ListsChildren(g, j, children)
    ensures ListsChildren(GrowChild(g, p, c), j, if j == p then children + [c] else children)
  {
    var g', n := GrowChild(g, p, c), |g.order|;
    assert g'.order[n] == c && g'.up[n] == p;
    forall x
      ensures HangsBelow(g', j, x) <==> HangsBelow(g, j, x) || (j == p && x == c)
    {
      if HangsBelow(g, j, x) {
        var i :| 0 < i < n && g.order[i] == x && g.up[i] == j;
        assert g'.order[i] == x && g'.up[i] == j;
      }
      if HangsBelow(g', j, x) {
        var i :| 0 < i < |g'.order| && g'.order[i] == x && g'.up[i] == j;
        assert i < n ==> g.order[i] == x && g.up[i] == j;
      }
    }
    if j == p {
      assert c !in children;
    }
  }

  /** The same nodes below every node, in another order. */
  ghost predicate Permuted(tree: map<nat, seq<nat>>, tree': map<nat, seq<nat>>) {
    tree'.Keys == tree.Keys && forall x :: x in tree ==> multiset(tree'[x]) == multiset(tree[x])
  }

  /** Reordering children keeps the tree's nodes and edges. */
  lemma PermutedIsTree(g: Growth, tree: map<nat, seq<nat>>, tree': map<nat, seq<nat>>)
    requires Grown(g) && IsTreeOf(g, tree) && Permuted(tree, tree')
    ensures IsTreeOf(g, tree')
  {
    forall j | 0 <= j < |g.order|
      ensures ListsChildren(g, j, tree'[g.order[j]])
    {
      var x := g.order[j];
      assert ListsChildren(g, j, tree[x]) && multiset(tree'[x]) == multiset(tree[x]);
      assert forall y :: y in tree'[x] <==> y in multiset(tree'[x]);
      assert forall y :: y in tree[x] <==> y in multiset(tree[x]);
    }
  }

  /* ------------------------------------------------------------------ */
  /* Sums over all atoms                                                  */
  /* ------------------------------------------------------------------ */

  function SumAll(sets: seq<set<Var>>): nat {
    if sets == [] then 0 else SumAll(sets[..|sets| - 1]) + |sets[|sets| - 1]|
  }

  function UnionAll(sets: seq<set<Var>>): (xs: set<Var>)
    ensures forall x :: x in xs <==> exists i :: 0 <= i < |sets| && x in sets[i]
  {
    if sets == [] then
      {}
    else
      assert forall i :: 0 <= i < |sets| - 1 ==> sets[..|sets| - 1][i] == sets[i];
      UnionAll(sets[..|sets| - 1]) + sets[|sets| - 1]
  }

  ghost function SumIn(sets: seq<set<Var>>, ids: set<nat>): nat {
    if sets == [] then 0 else SumIn(sets[..|sets| - 1], ids) + if |sets| - 1 in ids then |sets[|sets| - 1]| else 0
  }

  lemma {:induction false} SumInOne(sets: seq<set<Var>>, ids: set<nat>, x: nat)
    requires x !in ids
    ensures SumIn(sets, ids + {x}) == SumIn(sets, ids) + if x < |sets| then |sets[x]| else 0
  {
    if sets != [] {
      SumInOne(sets[..|sets| - 1], ids, x);
    }
  }

  lemma {:induction false} SumInAll(sets: seq<set<Var>>, ids: set<nat>)
    requires forall i :: 0 <= i < |sets| && i !in ids ==> sets[i] == {}
    ensures SumIn(sets, ids) == SumAll(sets)
  {
    if sets != [] {
      SumInAll(sets[..|sets| - 1], ids);
    }
  }

  lemma {:induction false} SumInNone(sets: seq<set<Var>>)
    ensures SumIn(sets, {}) == 0
  {
    if sets != [] {
      SumInNone(sets[..|sets| - 1]);
    }
  }

  ghost function Listed(order: seq<nat>, n: nat): (ids: set<nat>)
    requires n <= |order|
    ensures forall x :: x in ids <==> exists i :: 0 <= i < n && order[i] == x
  {
    if n == 0 then {} else Listed(order, n - 1) + {order[n - 1]}
  }

  lemma {:induction false} SizeSumIn(sets: seq<set<Var>>, order: seq<nat>, n: nat)
    requires Within(sets, order) && n <= |order| && forall i, j :: 0 <= i < j < |order| ==> order[i] != order[j]
    ensures SizeSum(sets, order, n) == SumIn(sets, Listed(order, n))
  {
    if n == 0 {
      SumInNone(sets);
    } else {
      SizeSumIn(sets, order, n - 1);
      SumInOne(sets, Listed(order, n - 1), order[n - 1]);
    }
  }

  /** Over an order of all atoms that have variables, the sums are those over all atoms. */
  lemma SumsAgree(sets: seq<set<Var>>, g: Growth)
    requires Grown(g) && Within(sets, g.order) && forall i: nat :: i < |sets| && i !in g.order ==> sets[i] == {}
    ensures SizeSum(sets, g.order, |g.order|) == SumAll(sets) && Joined(sets, g.order, |g.order|) == UnionAll(sets)
  {
    var ids := Listed(g.order, |g.order|);
    SizeSumIn(sets, g.order, |g.order|);
    SumInAll(sets, ids);
    forall x
      ensures x in Joined(sets, g.order, |g.order|) <==> x in UnionAll(sets)
    {
      if i: nat :| i < |sets| && x in sets[i] {
        assert i in g.order;
        var j :| 0 <= j < |g.order| && g.order[j] == i;
      }
    }
  }
}

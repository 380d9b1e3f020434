/** What the optimizer's measures of a tree are: the most variables a join keeps, and the longest way down. */
module Measures {
  import opened Datalog
  import opened JoinTrees
  import opened SpanningTrees
  import opened Optimizer

  /* ------------------------------------------------------------------ */
  /* What a join keeps                                                    */
  /* ------------------------------------------------------------------ */

  function VarsOfTrees(sets: seq<set<Var>>, ts: seq<JoinTree>): set<Var> {
    set i, x | 0 <= i < |ts| && x in VarsOfNodes(sets, PreOrder(ts[i])) :: x
  }

  /** What a join of two sides keeps: what both have, and what either has and something outside reads. */
  function Kept(front: set<Var>, back: set<Var>, outside: set<Var>): set<Var> {
    front * back + (front + back) * outside
  }

  /** A node's own variables, with those below its first `i` children. */
  function FrontVars(sets: seq<set<Var>>, t: JoinTree, i: nat): set<Var>
    requires i <= |t.children|
  {
    VarsOfNodes(sets, [t.atom]) + VarsOfTrees(sets, t.children[..i])
  }

  /** Everything at and below a node except below its `i`-th child. */
  function Around(sets: seq<set<Var>>, t: JoinTree, i: nat): set<Var>
    requires i < |t.children|
  {
    FrontVars(sets, t, i) + VarsOfTrees(sets, t.children[i + 1..])
  }

  /** The join that adds a node's `i`-th child to the node and its earlier children. */
  function KeptAt(sets: seq<set<Var>>, t: JoinTree, outer: set<Var>, i: nat): set<Var>
    requires i < |t.children|
  {
    Kept(FrontVars(sets, t, i), VarsOfNodes(sets, PreOrder(t.children[i])), outer + VarsOfTrees(sets, t.children[i + 1..]))
  }

  /** Some join at or below the node keeps these variables, when `outer` is read outside the node's tree. */
  ghost predicate Keeps(sets: seq<set<Var>>, t: JoinTree, outer: set<Var>, kept: set<Var>)
    decreases t, 1
  {
    exists i: nat :: i < |t.children| && KeepsAtChild(sets, t, outer, kept, i)
  }

  /** The join that adds the child, or one below it. */
  ghost predicate KeepsAtChild(sets: seq<set<Var>>, t: JoinTree, outer: set<Var>, kept: set<Var>, i: nat)
    requires i < |t.children|
    decreases t, 0
  {
    kept == KeptAt(sets, t, outer, i) || Keeps(sets, t.children[i], outer + Around(sets, t, i), kept)
  }

  /** The most variables any join of the tree keeps, with `head` read above; 0 if there is no join. */
  ghost predicate IsWidth(sets: seq<set<Var>>, t: JoinTree, head: set<Var>, width: nat) {
    && (forall kept :: Keeps(sets, t, head, kept) ==> |kept| <= width)
    && (if t.children == [] then width == 0 else exists kept :: Keeps(sets, t, head, kept) && |kept| == width)
  }

  /* ------------------------------------------------------------------ */
  /* Peeling                                                              */
  /* ------------------------------------------------------------------ */

  lemma VarsOfMore(sets: seq<set<Var>>, a: seq<nat>, b: seq<nat>)
    ensures VarsOfNodes(sets, a + b) == VarsOfNodes(sets, a) + VarsOfNodes(sets, b)
  {
    var both := a + b;
    forall x | x in VarsOfNodes(sets, a) + VarsOfNodes(sets, b)
      ensures x in VarsOfNodes(sets, both)
    {
      if x in VarsOfNodes(sets, a) {
        var k :| 0 <= k < |a| && a[k] < |sets| && x in sets[a[k]];
        assert both[k] == a[k];
      } else {
        var k :| 0 <= k < |b| && b[k] < |sets| && x in sets[b[k]];
        assert both[|a| + k] == b[k];
      }
    }
  }

  lemma {:induction false} VarsBelow(sets: seq<set<Var>>, ts: seq<JoinTree>)
    ensures VarsOfNodes(sets, PreOrderAll(ts)) == VarsOfTrees(sets, ts)
  {
    if ts != [] {
      var n := |ts| - 1;
      VarsBelow(sets, ts[..n]);
      VarsOfMore(sets, PreOrderAll(ts[..n]), PreOrder(ts[n]));
      LastTree(sets, ts, n);
    }
  }

  /** The trees from one place on, with the last one apart. */
  lemma LastTree(sets: seq<set<Var>>, ts: seq<JoinTree>, n: nat)
    requires n + 1 == |ts|
    ensures VarsOfTrees(sets, ts) == VarsOfTrees(sets, ts[..n]) + VarsOfNodes(sets, PreOrder(ts[n]))
  {
    assert forall i :: 0 <= i < n ==> ts[..n][i] == ts[i];
  }

  lemma VarsOfPeeled(sets: seq<set<Var>>, t: JoinTree)
    requires t.children != []
    ensures VarsOfNodes(sets, PreOrder(Truncated(t))) == FrontVars(sets, t, |t.children| - 1)
    ensures VarsOfNodes(sets, PreOrder(t)) ==
      VarsOfNodes(sets, PreOrder(Truncated(t))) + VarsOfNodes(sets, PreOrder(t.children[|t.children| - 1]))
  {
    var front := t.children[..|t.children| - 1];
    VarsOfMore(sets, [t.atom], PreOrderAll(front));
    VarsBelow(sets, front);
    PreOrderTruncated(t);
    VarsOfMore(sets, PreOrder(Truncated(t)), PreOrder(t.children[|t.children| - 1]));
  }

  /** For an earlier child, the last one is outside, whether it is peeled off or not. */
  lemma EarlierChild(sets: seq<set<Var>>, t: JoinTree, outer: set<Var>, i: nat, kept: set<Var>)
    requires i + 1 < |t.children|
    ensures var last := VarsOfNodes(sets, PreOrder(t.children[|t.children| - 1]));
      KeepsAtChild(sets, Truncated(t), outer + last, kept, i) <==> KeepsAtChild(sets, t, outer, kept, i)
  {
    var n, rest := |t.children| - 1, Truncated(t);
    var last, after := VarsOfNodes(sets, PreOrder(t.children[n])), VarsOfTrees(sets, t.children[i + 1..]);
    var before, front := VarsOfTrees(sets, rest.children[i + 1..]), FrontVars(sets, rest, i);
    EarlierVars(sets, t, i);
    SameOutside(outer, last, before, after, front);
    assert KeptAt(sets, rest, outer + last, i) == KeptAt(sets, t, outer, i);
    assert outer + last + Around(sets, rest, i) == outer + Around(sets, t, i);
  }

  lemma EarlierVars(sets: seq<set<Var>>, t: JoinTree, i: nat)
    requires i + 1 < |t.children|
    ensures var n, rest := |t.children| - 1, Truncated(t);
      && FrontVars(sets, rest, i) == FrontVars(sets, t, i) && rest.children[i] == t.children[i]
      && VarsOfTrees(sets, t.children[i + 1..]) == VarsOfTrees(sets, rest.children[i + 1..]) + VarsOfNodes(sets, PreOrder(t.children[n]))
  {
    var n := |t.children| - 1;
    FrontChildren(t.children, n, i);
    LastTree(sets, t.children[i + 1..], n - i - 1);
  }

  lemma SameOutside(outer: set<Var>, last: set<Var>, before: set<Var>, after: set<Var>, front: set<Var>)
    requires after == before + last
    ensures outer + last + before == outer + after && outer + last + (front + before) == outer + (front + after)
  {
  }

  lemma FrontChildren(ts: seq<JoinTree>, n: nat, i: nat)
    requires i < n < |ts|
    ensures ts[..n][..i] == ts[..i] && ts[..n][i + 1..] == ts[i + 1..][..n - i - 1] && ts[..n][i] == ts[i]
    ensures ts[i + 1..][n - i - 1] == ts[n]
  {
  }

  /** The joins of a tree: the one of its last child, those below that child, and those of the tree without it. */
  lemma KeepsPeeled(sets: seq<set<Var>>, t: JoinTree, outer: set<Var>, kept: set<Var>)
    requires t.children != []
    ensures var last, rest := t.children[|t.children| - 1], Truncated(t);
      var back, front := VarsOfNodes(sets, PreOrder(last)), VarsOfNodes(sets, PreOrder(rest));
      Keeps(sets, t, outer, kept) <==>
      kept == Kept(front, back, outer) || Keeps(sets, last, outer + front, kept) || Keeps(sets, rest, outer + back, kept)
  {
    VarsOfPeeled(sets, t);
    LastChild(sets, t, outer);
    var n, back := |t.children| - 1, VarsOfNodes(sets, PreOrder(t.children[|t.children| - 1]));
    forall i: nat | i < n
      ensures KeepsAtChild(sets, Truncated(t), outer + back, kept, i) <==> KeepsAtChild(sets, t, outer, kept, i)
    {
      EarlierChild(sets, t, outer, i, kept);
    }
    KeepsMore(sets, t, outer, outer + back, kept);
  }

  lemma KeepsMore(sets: seq<set<Var>>, t: JoinTree, outer: set<Var>, wider: set<Var>, kept: set<Var>)
    requires t.children != []
    requires forall i: nat :: i < |t.children| - 1 ==>
      (KeepsAtChild(sets, Truncated(t), wider, kept, i) <==> KeepsAtChild(sets, t, outer, kept, i))
    ensures Keeps(sets, t, outer, kept) <==>
      KeepsAtChild(sets, t, outer, kept, |t.children| - 1) || Keeps(sets, Truncated(t), wider, kept)
  {
  }

  lemma LastChild(sets: seq<set<Var>>, t: JoinTree, outer: set<Var>)
    requires t.children != []
    ensures var n := |t.children| - 1;
      && KeptAt(sets, t, outer, n) == Kept(FrontVars(sets, t, n), VarsOfNodes(sets, PreOrder(t.children[n])), outer)
      && outer + Around(sets, t, n) == outer + FrontVars(sets, t, n)
  {
    var n := |t.children| - 1;
    assert t.children[n + 1..] == [] && VarsOfTrees(sets, t.children[n + 1..]) == {};
    assert outer + VarsOfTrees(sets, t.children[n + 1..]) == outer;
    assert Around(sets, t, n) == FrontVars(sets, t, n);
  }

  /* ------------------------------------------------------------------ */
  /* The measures                                                         */
  /* ------------------------------------------------------------------ */

  /** What the peeled side and the leftover need is what the join keeps. */
  lemma JoinKeeps(back: set<Var>, front: set<Var>, head: set<Var>, outer: set<Var>)
    requires (front + back) * head == (front + back) * outer
    ensures back * (front + head) + front * (back + head) == Kept(front, back, outer)
    ensures back * (back * (front + head)) == back * (outer + front)
    ensures front * (front * (back + head)) == front * (outer + back)
  {
    assert forall x :: x in front + back ==> (x in head <==> x in (front + back) * outer);
  }

  /** `Width` is the most variables any join keeps, whatever `head` holds besides what is read of the tree. */
  lemma {:induction false} WidthIs(sets: seq<set<Var>>, t: JoinTree, head: set<Var>, outer: set<Var>)
    requires VarsOfNodes(sets, PreOrder(t)) * head == VarsOfNodes(sets, PreOrder(t)) * outer
    ensures IsWidth(sets, t, outer, Width(sets, t, head))
    decreases |PreOrder(t)|
  {
    if t.children != [] {
      PreOrderTruncated(t);
      VarsOfPeeled(sets, t);
      var last, rest := t.children[|t.children| - 1], Truncated(t);
      var back, front := VarsOfNodes(sets, PreOrder(last)), VarsOfNodes(sets, PreOrder(rest));
      JoinKeeps(back, front, head, outer);
      WidthIs(sets, last, back * (front + head), outer + front);
      WidthIs(sets, rest, front * (back + head), outer + back);
      WidthOfPeeled(sets, t, outer, Width(sets, last, back * (front + head)), Width(sets, rest, front * (back + head)));
    }
  }

  lemma WidthOfPeeled(sets: seq<set<Var>>, t: JoinTree, outer: set<Var>, atBack: nat, atFront: nat)
    requires t.children != []
    requires var last, rest := t.children[|t.children| - 1], Truncated(t);
      var back, front := VarsOfNodes(sets, PreOrder(last)), VarsOfNodes(sets, PreOrder(rest));
      IsWidth(sets, last, outer + front, atBack) && IsWidth(sets, rest, outer + back, atFront)
    ensures var last, rest := t.children[|t.children| - 1], Truncated(t);
      var back, front := VarsOfNodes(sets, PreOrder(last)), VarsOfNodes(sets, PreOrder(rest));
      IsWidth(sets, t, outer, Larger(Larger(atBack, atFront), |Kept(front, back, outer)|))
  {
    var last, rest := t.children[|t.children| - 1], Truncated(t);
    var back, front := VarsOfNodes(sets, PreOrder(last)), VarsOfNodes(sets, PreOrder(rest));
    forall kept {
      KeepsPeeled(sets, t, outer, kept);
    }
    var width, here := Larger(Larger(atBack, atFront), |Kept(front, back, outer)|), Kept(front, back, outer);
    assert Keeps(sets, t, outer, here);
    if width != |here| {
      var kept :| |kept| == width && (Keeps(sets, last, outer + front, kept) || Keeps(sets, rest, outer + back, kept));
      assert Keeps(sets, t, outer, kept);
    }
  }

  /** A way down from the root, child by child. */
  ghost predicate WayDown(t: JoinTree, path: seq<nat>)
    decreases |path|
  {
    path == [] || (path[0] < |t.children| && WayDown(t.children[path[0]], path[1..]))
  }

  /** The length of a longest way down. */
  ghost predicate IsDepth(t: JoinTree, depth: nat) {
    && (forall path :: WayDown(t, path) ==> |path| <= depth)
    && exists path :: WayDown(t, path) && |path| == depth
  }

  lemma {:induction false} DeepestIs(ts: seq<JoinTree>) returns (k: nat)
    requires ts != []
    ensures forall i :: 0 <= i < |ts| ==> Depth(ts[i]) <= DeepestOf(ts)
    ensures k < |ts| && Depth(ts[k]) == DeepestOf(ts)
  {
    k := |ts| - 1;
    if |ts| > 1 {
      var j := DeepestIs(ts[..|ts| - 1]);
      assert forall i :: 0 <= i < |ts| - 1 ==> ts[..|ts| - 1][i] == ts[i];
      k := if Depth(ts[k]) < DeepestOf(ts) then j else k;
    }
  }

  lemma {:induction false} NoWayDeeper(t: JoinTree, path: seq<nat>)
    requires WayDown(t, path)
    ensures |path| <= Depth(t)
    decreases |path|
  {
    if path != [] {
      var k := DeepestIs(t.children);
      NoWayDeeper(t.children[path[0]], path[1..]);
    }
  }

  lemma {:induction false} DeepestWay(t: JoinTree) returns (path: seq<nat>)
    ensures WayDown(t, path) && |path| == Depth(t)
  {
    if t.children == [] {
      path := [];
    } else {
      var k := DeepestIs(t.children);
      var below := DeepestWay(t.children[k]);
      path := [k] + below;
      assert path[1..] == below;
    }
  }

  lemma DepthIs(t: JoinTree)
    ensures IsDepth(t, Depth(t))
  {
    forall path | WayDown(t, path) {
      NoWayDeeper(t, path);
    }
    var path := DeepestWay(t);
  }

  /* ------------------------------------------------------------------ */
  /* The choice                                                           */
  /* ------------------------------------------------------------------ */

  /** A candidate's tree, with the most variables a join of it keeps and its longest way down. */
  ghost predicate MeasuredBy(sets: seq<set<Var>>, head: set<Var>, c: Candidate, t: JoinTree) {
    && Grown(c.g) && IsTreeOf(c.g, c.tree) && c.g.order != [] && t == ToTree(c.g, c.tree, 0)
    && IsWidth(sets, t, head, c.width) && IsDepth(t, c.depth)
  }

  lemma CandidateMeasures(sets: seq<set<Var>>, core: seq<bool>, head: set<Var>, c: Candidate) returns (t: JoinTree)
    requires IsCandidate(sets, core, head, c)
    ensures MeasuredBy(sets, head, c, t)
  {
    var root :| Measured(sets, core, head, root, c);
    t := ToTree(c.g, c.tree, 0);
    WidthIs(sets, t, head, head);
    DepthIs(t);
  }

  /** No tree considered has a join that keeps fewer variables at most than the chosen one's do - or the same number,
      and a shorter longest way down. */
  lemma ChosenIsNarrowest(sets: seq<set<Var>>, core: seq<bool>, head: set<Var>, optimized: bool, plan: PlanTree,
                          best: Candidate, considered: seq<Candidate>, c: Candidate)
    returns (chosen: JoinTree, other: JoinTree)
    requires Chosen(sets, core, head, optimized, plan, best, considered) && c in considered
    ensures MeasuredBy(sets, head, best, chosen) && MeasuredBy(sets, head, c, other)
    ensures best.width < c.width || (best.width == c.width && best.depth <= c.depth)
  {
    var k :| 0 <= k < |considered| && FirstAt(best, considered, k);
    var i :| 0 <= i < |considered| && considered[i] == c;
    assert IsCandidate(sets, core, head, considered[k]) && IsCandidate(sets, core, head, considered[i]);
    chosen := CandidateMeasures(sets, core, head, best);
    other := CandidateMeasures(sets, core, head, c);
    assert !Better(c, best);
  }
}

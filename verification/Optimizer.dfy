/** The join-tree optimizer: the default chain, Prim's trees from every root, and their permutations. */
module Optimizer {
  import opened Datalog
  import opened JoinTrees
  import opened CoreAtoms
  import opened SpanningTrees
  import opened Prim
  import opened MaximumTrees
  import opened Permutations

  /* ------------------------------------------------------------------ */
  /* Subtrees                                                             */
  /* ------------------------------------------------------------------ */

  /** The pre-order of the subtree below a node. */
  ghost function Below(g: Growth, tree: Tree, x: nat): seq<nat>
    requires Grown(g) && IsTreeOf(g, tree) && x in g.order
  {
    PreOrder(ToTree(g, tree, Position(g.order, x)))
  }

  /** The memo holds pre-orders of nodes of the tree. */
  ghost predicate MemoOk(g: Growth, tree: Tree, memo: map<nat, seq<nat>>)
    requires Grown(g) && IsTreeOf(g, tree)
  {
    forall x :: x in memo ==> x in g.order && memo[x] == Below(g, tree, x)
  }

  /** The pre-order of a node followed by those of its first `k` children. */
  ghost function BelowFirst(g: Growth, tree: Tree, x: nat, k: nat): seq<nat>
    requires Grown(g) && IsTreeOf(g, tree) && x in g.order && k <= |tree[x]|
  {
    [x] + PreOrderAll(ToTree(g, tree, Position(g.order, x)).children[..k])
  }

  lemma BelowNext(g: Growth, tree: Tree, x: nat, k: nat)
    requires Grown(g) && IsTreeOf(g, tree) && x in g.order && k < |tree[x]|
    ensures tree[x][k] in g.order && Position(g.order, x) < Position(g.order, tree[x][k])
    ensures BelowFirst(g, tree, x, k + 1) == BelowFirst(g, tree, x, k) + Below(g, tree, tree[x][k])
  {
    var j := Position(g.order, x);
    var ts := ToTree(g, tree, j).children;
    ToTreeChild(g, tree, j, k);
    PreOrderAllNext(ts, k);
    RootFirst(x, PreOrderAll(ts[..k]), PreOrder(ts[k]));
  }

  lemma RootFirst(x: nat, a: seq<nat>, b: seq<nat>)
    ensures [x] + (a + b) == [x] + a + b
  {
  }

  lemma BelowAll(g: Growth, tree: Tree, x: nat)
    requires Grown(g) && IsTreeOf(g, tree) && x in g.order
    ensures BelowFirst(g, tree, x, 0) == [x] && BelowFirst(g, tree, x, |tree[x]|) == Below(g, tree, x)
  {
    var t := ToTree(g, tree, Position(g.order, x));
    assert t.children[..|tree[x]|] == t.children;
  }

  /** The pre-order of a node, remembered in the memo with those of the nodes below it. */
  method PopulateSubtree(subroot: nat, tree: Tree, memo: map<nat, seq<nat>>, ghost g: Growth)
    returns (subtree: seq<nat>, memo': map<nat, seq<nat>>)
    requires Grown(g) && IsTreeOf(g, tree) && subroot in g.order && MemoOk(g, tree, memo)
    ensures subtree == Below(g, tree, subroot)
    ensures MemoOk(g, tree, memo') && memo.Keys <= memo'.Keys && subroot in memo'
    decreases |g.order| - Position(g.order, subroot)
  {
    if subroot in memo {
      return memo[subroot], memo;
    }
    var children := tree[subroot];
    BelowAll(g, tree, subroot);
    subtree, memo' := [subroot], memo;
    for k := 0 to |children|
      invariant subtree == BelowFirst(g, tree, subroot, k)
      invariant MemoOk(g, tree, memo') && memo.Keys <= memo'.Keys
    {
      BelowNext(g, tree, subroot, k);
      var below;
      below, memo' := PopulateSubtree(children[k], tree, memo', g);
      subtree := subtree + below;
    }
    memo' := memo'[subroot := subtree];
  }

  lemma {:induction false} MemoIsExact(g: Growth, tree: Tree, memo: map<nat, seq<nat>>, j: nat)
    requires Grown(g) && IsTreeOf(g, tree) && MemoOk(g, tree, memo) && (forall x :: x in g.order ==> x in memo)
    requires j < |g.order|
    ensures ExactSubTrees(ToTree(g, tree, j), memo)
    decreases |g.order| - j
  {
    var t := ToTree(g, tree, j);
    assert g.order[j] in g.order && Position(g.order, g.order[j]) == j;
    forall k | 0 <= k < |t.children|
      ensures ExactSubTrees(t.children[k], memo)
    {
      ToTreeChild(g, tree, j, k);
      MemoIsExact(g, tree, memo, Position(g.order, tree[g.order[j]][k]));
    }
  }

  /** The pre-order of every core atom. */
  method PopulateSubtrees(core: seq<bool>, tree: Tree, ghost g: Growth) returns (memo: map<nat, seq<nat>>)
    requires Grown(g) && IsTreeOf(g, tree) && g.order != [] && GrownOver(core, g)
    ensures ExactSubTrees(ToTree(g, tree, 0), memo)
  {
    memo := FillMemo(core, tree, g);
    MemoIsExact(g, tree, memo, 0);
  }

  /** The tree grew over the core atoms. */
  ghost predicate GrownOver(core: seq<bool>, g: Growth) {
    forall x: nat :: x in g.order <==> x < |core| && core[x]
  }

  method FillMemo(core: seq<bool>, tree: Tree, ghost g: Growth) returns (memo: map<nat, seq<nat>>)
    requires Grown(g) && IsTreeOf(g, tree) && GrownOver(core, g)
    ensures MemoOk(g, tree, memo) && Filled(core, |core|, memo)
  {
    memo := map[];
    for x := 0 to |core|
      invariant MemoOk(g, tree, memo) && Filled(core, x, memo)
    {
      ghost var before := memo;
      if core[x] {
        assert x in g.order;
        var subtree;
        subtree, memo := PopulateSubtree(x, tree, memo, g);
      }
      FilledNext(core, x, before, memo);
    }
  }

  lemma FilledNext(core: seq<bool>, n: nat, before: map<nat, seq<nat>>, after: map<nat, seq<nat>>)
    requires n < |core| && Filled(core, n, before) && before.Keys <= after.Keys && (core[n] ==> n in after)
    ensures Filled(core, n + 1, after)
  {
  }

  ghost predicate Filled(core: seq<bool>, n: nat, memo: map<nat, seq<nat>>) {
    forall x: nat :: x < n && x < |core| && core[x] ==> x in memo
  }

  /* ------------------------------------------------------------------ */
  /* Measures                                                             */
  /* ------------------------------------------------------------------ */

  /** The longest path down from the root. */
  function Depth(t: JoinTree): nat
    decreases t, 1
  {
    if t.children == [] then 0 else 1 + DeepestOf(t.children)
  }

  function DeepestOf(ts: seq<JoinTree>): nat
    decreases ts, 0
  {
    if ts == [] then
      0
    else
      var front, last := DeepestOf(ts[..|ts| - 1]), Depth(ts[|ts| - 1]);
      if front < last then last else front
  }

  function VarsOfNodes(sets: seq<set<Var>>, nodes: seq<nat>): set<Var> {
    set k, x | 0 <= k < |nodes| && nodes[k] < |sets| && x in sets[nodes[k]] :: x
  }

  function Larger(a: nat, b: nat): nat {
    if a < b then b else a
  }

  /** The most variables any join of the peeled plan keeps, when `head` is read above. */
  function Width(sets: seq<set<Var>>, t: JoinTree, head: set<Var>): nat
    decreases |PreOrder(t)|
  {
    if t.children == [] then
      0
    else
      PreOrderTruncated(t);
      var child, leftover := t.children[|t.children| - 1], Truncated(t);
      var planningVars, leftoverVars := VarsOfNodes(sets, PreOrder(child)), VarsOfNodes(sets, PreOrder(leftover));
      var planningHead, leftoverHead := planningVars * (leftoverVars + head), leftoverVars * (planningVars + head);
      Larger(Larger(Width(sets, child, planningHead), Width(sets, leftover, leftoverHead)), |planningHead + leftoverHead|)
  }

  /* ------------------------------------------------------------------ */
  /* Choosing a tree                                                      */
  /* ------------------------------------------------------------------ */

  /** A rooted tree spanning the core atoms, how it grew, and its measures. */
  datatype Candidate = Candidate(g: Growth, tree: Tree, overlap: nat, width: nat, depth: nat)

  predicate Better(a: Candidate, b: Candidate) {
    a.width < b.width || (a.width == b.width && a.depth < b.depth)
  }

  /** The candidate spans the core atoms from the root, and its measures are its own. */
  ghost predicate Measured(sets: seq<set<Var>>, core: seq<bool>, head: set<Var>, root: nat, c: Candidate) {
    && Spanning(sets, core, root, c.g, c.tree, c.overlap)
    && c.width == Width(sets, ToTree(c.g, c.tree, 0), head) && c.depth == Depth(ToTree(c.g, c.tree, 0))
  }

  /** The core atoms in order. */
  function CoreIds(core: seq<bool>): seq<nat> {
    if core == [] then
      []
    else
      var n := |core| - 1;
      CoreIds(core[..n]) + if core[n] then [n] else []
  }

  lemma {:induction false} CoreIdsAre(core: seq<bool>)
    ensures forall x: nat :: x in CoreIds(core) <==> x < |core| && core[x]
    ensures forall i, j :: 0 <= i < j < |CoreIds(core)| ==> CoreIds(core)[i] < CoreIds(core)[j]
  {
    if core != [] {
      var n := |core| - 1;
      CoreIdsAre(core[..n]);
      NextCoreId(CoreIds(core[..n]), n);
    }
  }

  lemma NextCoreId(ids: seq<nat>, n: nat)
    requires (forall x: nat :: x in ids ==> x < n) && forall i, j :: 0 <= i < j < |ids| ==> ids[i] < ids[j]
    ensures forall x: nat :: x in ids + [n] <==> x in ids || x == n
    ensures forall i, j :: 0 <= i < j < |ids + [n]| ==> (ids + [n])[i] < (ids + [n])[j]
  {
    assert forall i :: 0 <= i < |ids| ==> ids[i] in ids;
  }

  /** The default chain: the last core atom is the root, and below each one hangs the one before it. */
  ghost predicate IsChain(core: seq<bool>, c: Candidate) {
    CoreIds(core) != [] && ChainsDown(CoreIds(core), 0, c.g) && HangsChained(CoreIds(core), 0, c.tree)
  }

  /** The tree was grown by Prim's algorithm, whatever the order of its children. */
  ghost predicate ByPrim(sets: seq<set<Var>>, core: seq<bool>, c: Candidate) {
    exists root :: IsPrim(sets, core, root, c.g)
  }

  /** A candidate is the default chain or a Prim tree, with its own measures. */
  ghost predicate IsCandidate(sets: seq<set<Var>>, core: seq<bool>, head: set<Var>, c: Candidate) {
    (exists root :: Measured(sets, core, head, root, c)) && (IsChain(core, c) || ByPrim(sets, core, c))
  }

  /** The default: each core atom below the next one, the last as root. */
  method DefaultChain(sets: seq<set<Var>>, core: seq<bool>, coreIds: seq<nat>)
    returns (tree: Tree, overlap: nat, g: Growth)
    requires |sets| == |core| && coreIds != [] && (forall x: nat :: x in coreIds <==> x < |core| && core[x])
    requires forall i, j :: 0 <= i < j < |coreIds| ==> coreIds[i] < coreIds[j]
    ensures Spanning(sets, core, coreIds[|coreIds| - 1], g, tree, overlap)
    ensures ChainsDown(coreIds, 0, g) && HangsChained(coreIds, 0, tree)
  {
    var last := |coreIds| - 1;
    ChainStarts(sets, core, coreIds);
    tree, overlap, g := map[coreIds[last] := []], 0, Growth([coreIds[last]], [0]);
    for i := last downto 0
      invariant Partial(sets, g, tree, overlap) && ChainsDown(coreIds, i, g) && HangsChained(coreIds, i, tree)
    {
      assert coreIds[i] in coreIds;
      ChainStep(coreIds, i, g);
      HangStep(coreIds, i, tree);
      tree, overlap, g := HangNext(sets, coreIds[i + 1], coreIds[i], tree, overlap, g);
    }
    ChainSpans(core, coreIds, g);
  }

  /** Hangs an atom below the last one hung. */
  method HangNext(sets: seq<set<Var>>, parent: nat, child: nat, tree0: Tree, overlap0: nat, g0: Growth)
    returns (tree: Tree, overlap: nat, g: Growth)
    requires Partial(sets, g0, tree0, overlap0) && g0.order[|g0.order| - 1] == parent && parent in tree0
    requires child < |sets| && child !in g0.order
    ensures Partial(sets, g, tree, overlap) && g == GrowChild(g0, |g0.order| - 1, child)
    ensures tree == Hang(tree0, parent, child)
  {
    HangGrows(sets, g0, tree0, overlap0, |g0.order| - 1, parent, child);
    tree, overlap := Hang(tree0, parent, child), overlap0 + Overlap(sets, parent, child);
    g := GrowChild(g0, |g0.order| - 1, child);
  }

  /** From the `i`-th id on, each id has the one before it as its only child; the `i`-th has none yet. */
  ghost predicate HangsChained(coreIds: seq<nat>, i: nat, tree: Tree)
    requires i < |coreIds|
  {
    && (forall x :: x in tree <==> x in coreIds[i..]) && coreIds[i] in tree && tree[coreIds[i]] == []
    && (forall k :: i < k < |coreIds| ==> coreIds[k] in tree && tree[coreIds[k]] == [coreIds[k - 1]])
  }

  lemma HangStep(coreIds: seq<nat>, i: nat, tree: Tree)
    requires i + 1 < |coreIds| && HangsChained(coreIds, i + 1, tree)
    requires forall i, j :: 0 <= i < j < |coreIds| ==> coreIds[i] < coreIds[j]
    ensures coreIds[i + 1] in tree && HangsChained(coreIds, i, Hang(tree, coreIds[i + 1], coreIds[i]))
  {
    assert coreIds[i..] == [coreIds[i]] + coreIds[i + 1..];
  }

  lemma ChainStarts(sets: seq<set<Var>>, core: seq<bool>, coreIds: seq<nat>)
    requires |sets| == |core| && coreIds != [] && (forall x: nat :: x in coreIds <==> x < |core| && core[x])
    ensures var last := |coreIds| - 1;
      && Partial(sets, Growth([coreIds[last]], [0]), map[coreIds[last] := []], 0)
      && ChainsDown(coreIds, last, Growth([coreIds[last]], [0]))
      && HangsChained(coreIds, last, map[coreIds[last] := []])
  {
    assert coreIds[|coreIds| - 1] in coreIds && coreIds[|coreIds| - 1..] == [coreIds[|coreIds| - 1]];
  }

  lemma ChainSpans(core: seq<bool>, coreIds: seq<nat>, g: Growth)
    requires ChainsDown(coreIds, 0, g) && forall x: nat :: x in coreIds <==> x < |core| && core[x]
    ensures forall x: nat :: x in g.order <==> x < |core| && core[x]
  {
    forall x: nat
      ensures x in g.order <==> x in coreIds
    {
      if x in coreIds {
        var k :| 0 <= k < |coreIds| && coreIds[k] == x;
        assert g.order[|coreIds| - 1 - k] == x;
      }
    }
  }

  /** The ids from the last down to the `i`-th, each below the one before. */
  ghost predicate ChainsDown(coreIds: seq<nat>, i: nat, g: Growth)
    requires i <= |coreIds|
  {
    && |g.order| == |g.up| == |coreIds| - i
    && (forall k :: 0 <= k < |g.order| ==> g.order[k] == coreIds[|coreIds| - 1 - k])
    && (forall k :: 0 < k < |g.up| ==> g.up[k] == k - 1)
  }

  lemma ChainStep(coreIds: seq<nat>, i: nat, g: Growth)
    requires i + 1 < |coreIds| && ChainsDown(coreIds, i + 1, g)
    requires forall i, j :: 0 <= i < j < |coreIds| ==> coreIds[i] < coreIds[j]
    ensures coreIds[i] !in g.order && g.order[|g.order| - 1] == coreIds[i + 1]
    ensures ChainsDown(coreIds, i, GrowChild(g, |g.order| - 1, coreIds[i]))
  {
  }

  /* ------------------------------------------------------------------ */
  /* Candidates                                                           */
  /* ------------------------------------------------------------------ */

  function Inserted(x: nat, s: seq<nat>): (r: seq<nat>)
    ensures multiset(r) == multiset(s) + multiset{x}
  {
    if s == [] || x <= s[0] then
      [x] + s
    else
      assert s == [s[0]] + s[1..];
      [s[0]] + Inserted(x, s[1..])
  }

  function Sorted(s: seq<nat>): (r: seq<nat>)
    ensures multiset(r) == multiset(s)
  {
    if s == [] then
      []
    else
      assert s == [s[0]] + s[1..];
      Inserted(s[0], Sorted(s[1..]))
  }

  /** The tree with every node's children in ascending order. */
  function Normalized(tree: Tree): (r: Tree)
    ensures Permuted(tree, r)
  {
    map x | x in tree :: Sorted(tree[x])
  }

  function Measure(sets: seq<set<Var>>, head: set<Var>, g: Growth, tree: Tree, overlap: nat): Candidate
    requires Grown(g) && IsTreeOf(g, tree) && g.order != []
  {
    var t := ToTree(g, tree, 0);
    Candidate(g, tree, overlap, Width(sets, t, head), Depth(t))
  }

  ghost predicate Seen(g: Growth, tree: Tree, considered: seq<Candidate>) {
    exists c :: c in considered && c.g == g && c.tree == tree
  }

  /** Every reordering of the tree is among the candidates. */
  ghost predicate Covers(g: Growth, tree: Tree, considered: seq<Candidate>) {
    forall t :: Permuted(tree, t) ==> Seen(g, t, considered)
  }

  /** The tree Prim's algorithm grows from the root is among the candidates in every reordering. */
  ghost predicate Explored(sets: seq<set<Var>>, core: seq<bool>, root: nat, considered: seq<Candidate>) {
    exists g, tree :: IsPrim(sets, core, root, g) && IsTreeOf(g, tree) && Covers(g, tree, considered)
  }

  /** The best is the first of the candidates than which none is better. */
  ghost predicate NoneBetter(best: Candidate, considered: seq<Candidate>) {
    && (forall c :: c in considered ==> !Better(c, best))
    && exists k :: 0 <= k < |considered| && FirstAt(best, considered, k)
  }

  ghost predicate FirstAt(best: Candidate, considered: seq<Candidate>, k: nat)
    requires k < |considered|
  {
    considered[k] == best && forall i :: 0 <= i < k ==> Better(best, considered[i])
  }

  /** All candidates are spanning trees with their own measures. */
  ghost predicate AllCandidates(sets: seq<set<Var>>, core: seq<bool>, head: set<Var>, considered: seq<Candidate>) {
    forall i :: 0 <= i < |considered| ==> IsCandidate(sets, core, head, considered[i])
  }

  ghost predicate BestOf(sets: seq<set<Var>>, core: seq<bool>, head: set<Var>, best: Candidate,
                         considered: seq<Candidate>)
  {
    NoneBetter(best, considered) && AllCandidates(sets, core, head, considered)
  }

  lemma NoneBetterStep(best: Candidate, considered: seq<Candidate>, c: Candidate)
    requires NoneBetter(best, considered)
    ensures NoneBetter(if Better(c, best) then c else best, considered + [c])
  {
    var k :| 0 <= k < |considered| && FirstAt(best, considered, k);
    var considered' := considered + [c];
    if Better(c, best) {
      assert forall i :: 0 <= i < |considered| ==> considered[i] in considered && considered'[i] == considered[i];
      assert FirstAt(c, considered', |considered|);
    } else {
      assert FirstAt(best, considered', k);
    }
  }

  lemma AllCandidatesStep(sets: seq<set<Var>>, core: seq<bool>, head: set<Var>, considered: seq<Candidate>,
                          c: Candidate)
    requires AllCandidates(sets, core, head, considered) && IsCandidate(sets, core, head, c)
    ensures AllCandidates(sets, core, head, considered + [c])
  {
    forall i | 0 <= i < |considered| + 1
      ensures IsCandidate(sets, core, head, (considered + [c])[i])
    {
      if i < |considered| {
        assert (considered + [c])[i] == considered[i];
      } else {
        assert (considered + [c])[i] == c;
      }
    }
  }

  lemma PrimCandidate(sets: seq<set<Var>>, core: seq<bool>, head: set<Var>, root: nat, g: Growth, tree: Tree,
                      overlap: nat)
    requires Spanning(sets, core, root, g, tree, overlap) && IsPrim(sets, core, root, g)
    ensures IsCandidate(sets, core, head, Measure(sets, head, g, tree, overlap))
  {
    var c := Measure(sets, head, g, tree, overlap);
    assert Measured(sets, core, head, root, c);
    assert ByPrim(sets, core, c);
  }

  /** Measures a tree, and keeps it if it is strictly better than the best so far. */
  method Consider(sets: seq<set<Var>>, core: seq<bool>, head: set<Var>, root: nat, g: Growth, tree: Tree, overlap: nat,
                  best: Candidate, ghost considered: seq<Candidate>)
    returns (best': Candidate, ghost considered': seq<Candidate>)
    requires Spanning(sets, core, root, g, tree, overlap) && IsPrim(sets, core, root, g)
    requires BestOf(sets, core, head, best, considered)
    ensures BestOf(sets, core, head, best', considered') && considered <= considered' && Seen(g, tree, considered')
  {
    var c := Measure(sets, head, g, tree, overlap);
    PrimCandidate(sets, core, head, root, g, tree, overlap);
    NoneBetterStep(best, considered, c);
    AllCandidatesStep(sets, core, head, considered, c);
    considered' := considered + [c];
    best' := if c.width < best.width || (c.width == best.width && c.depth < best.depth) then c else best;
    assert considered'[|considered|] == c;
  }

  lemma ReorderedSpans(sets: seq<set<Var>>, core: seq<bool>, root: nat, g: Growth, tree: Tree, overlap: nat,
                       tree': Tree)
    requires Spanning(sets, core, root, g, tree, overlap) && Permuted(tree, tree')
    ensures Spanning(sets, core, root, g, tree', overlap)
  {
    PermutedIsTree(g, tree, tree');
  }

  /** Considers trees one by one. */
  method ConsiderAll(sets: seq<set<Var>>, core: seq<bool>, head: set<Var>, root: nat, g: Growth, tree: Tree,
                     overlap: nat, trees: seq<Tree>,
                     best: Candidate, ghost considered: seq<Candidate>) returns (best': Candidate,
                     ghost considered': seq<Candidate>)
    requires Spanning(sets, core, root, g, tree, overlap) && IsPrim(sets, core, root, g)
    requires BestOf(sets, core, head, best, considered)
    requires forall i :: 0 <= i < |trees| ==> Permuted(tree, trees[i])
    ensures BestOf(sets, core, head, best', considered') && considered <= considered'
    ensures AllSeen(g, trees, |trees|, considered')
  {
    best', considered' := best, considered;
    for i := 0 to |trees|
      invariant BestOf(sets, core, head, best', considered') && considered <= considered'
      invariant AllSeen(g, trees, i, considered')
    {
      ReorderedSpans(sets, core, root, g, tree, overlap, trees[i]);
      ghost var before := considered';
      best', considered' := Consider(sets, core, head, root, g, trees[i], overlap, best', considered');
      SeenStays(g, trees, i, before, considered');
    }
  }

  ghost predicate AllSeen(g: Growth, trees: seq<Tree>, n: nat, considered: seq<Candidate>)
    requires n <= |trees|
  {
    forall j :: 0 <= j < n ==> Seen(g, trees[j], considered)
  }

  lemma SeenStays(g: Growth, trees: seq<Tree>, n: nat, before: seq<Candidate>, after: seq<Candidate>)
    requires n < |trees| && before <= after && AllSeen(g, trees, n, before) && Seen(g, trees[n], after)
    ensures AllSeen(g, trees, n + 1, after)
  {
    assert forall c :: c in before ==> c in after;
  }

  lemma ExploredStays(sets: seq<set<Var>>, core: seq<bool>, root: nat, before: seq<Candidate>, after: seq<Candidate>)
    requires Explored(sets, core, root, before) && before <= after
    ensures Explored(sets, core, root, after)
  {
    var g, tree :| IsPrim(sets, core, root, g) && IsTreeOf(g, tree) && Covers(g, tree, before);
    assert forall c :: c in before ==> c in after;
    assert Covers(g, tree, after);
  }

  /** Considers every reordering of the tree Prim's algorithm grows from one root. */
  method ExploreRoot(sets: seq<set<Var>>, core: seq<bool>, head: set<Var>, root: nat, best: Candidate,
                     ghost considered: seq<Candidate>)
    returns (best': Candidate, ghost considered': seq<Candidate>)
    requires |sets| == |core| && root < |core| && core[root] && BestOf(sets, core, head, best, considered)
    ensures BestOf(sets, core, head, best', considered') && considered <= considered'
    ensures Explored(sets, core, root, considered')
  {
    var grown, overlap, g := SpanFrom(sets, core, root);
    var tree := Normalized(grown);
    ReorderedSpans(sets, core, root, g, grown, overlap, tree);
    var trees := TreePermutations(tree);
    assert forall i :: 0 <= i < |trees| ==> trees[i] in trees;
    best', considered' := ConsiderAll(sets, core, head, root, g, tree, overlap, trees, best, considered);
    CoversAll(g, tree, trees, considered');
  }

  lemma CoversAll(g: Growth, tree: Tree, trees: seq<Tree>, considered: seq<Candidate>)
    requires forall t :: t in trees <==> Permuted(tree, t)
    requires AllSeen(g, trees, |trees|, considered)
    ensures Covers(g, tree, considered)
  {
    forall t | Permuted(tree, t)
      ensures Seen(g, t, considered)
    {
      assert t in trees;
      var j :| 0 <= j < |trees| && trees[j] == t;
    }
  }

  /** Every core root below `n` was explored. */
  ghost predicate AllExplored(sets: seq<set<Var>>, core: seq<bool>, n: nat, considered: seq<Candidate>)
    requires n <= |core|
  {
    forall root: nat :: root < n && core[root] ==> Explored(sets, core, root, considered)
  }

  lemma AllExploredStays(sets: seq<set<Var>>, core: seq<bool>, n: nat, before: seq<Candidate>, after: seq<Candidate>)
    requires n < |core| && AllExplored(sets, core, n, before) && before <= after && Explored(sets, core, n, after)
    ensures AllExplored(sets, core, n + 1, after)
  {
    forall root: nat | root < n && core[root]
      ensures Explored(sets, core, root, after)
    {
      ExploredStays(sets, core, root, before, after);
    }
  }

  /** The best of the default chain and, when optimizing, of every reordering of every root's Prim tree. */
  method ChooseTree(sets: seq<set<Var>>, core: seq<bool>, head: set<Var>, optimized: bool)
    returns (best: Candidate, ghost considered: seq<Candidate>)
    requires |sets| == |core| && exists x: nat :: x < |core| && core[x]
    ensures BestOf(sets, core, head, best, considered) && considered != [] && IsChain(core, considered[0])
    ensures !optimized ==> considered == [best]
    ensures optimized ==> AllExplored(sets, core, |core|, considered)
  {
    best := ChainCandidate(sets, core, head);
    considered := [best];
    if optimized {
      best, considered := ExploreAll(sets, core, head, best);
    }
  }

  method ExploreAll(sets: seq<set<Var>>, core: seq<bool>, head: set<Var>, chain: Candidate)
    returns (best: Candidate, ghost considered: seq<Candidate>)
    requires |sets| == |core| && BestOf(sets, core, head, chain, [chain])
    ensures BestOf(sets, core, head, best, considered) && [chain] <= considered
    ensures AllExplored(sets, core, |core|, considered)
  {
    best, considered := chain, [chain];
    for root := 0 to |core|
      invariant BestOf(sets, core, head, best, considered) && [chain] <= considered
      invariant AllExplored(sets, core, root, considered)
    {
      if core[root] {
        ghost var before := considered;
        best, considered := ExploreRoot(sets, core, head, root, best, considered);
        AllExploredStays(sets, core, root, before, considered);
      }
    }
  }

  method ChainCandidate(sets: seq<set<Var>>, core: seq<bool>, head: set<Var>) returns (chain: Candidate)
    requires |sets| == |core| && exists x: nat :: x < |core| && core[x]
    ensures IsChain(core, chain) && BestOf(sets, core, head, chain, [chain])
  {
    var coreIds := CoreIds(core);
    CoreIdsAre(core);
    ghost var some: nat :| some < |core| && core[some];
    assert some in coreIds;
    var tree, overlap, g := DefaultChain(sets, core, coreIds);
    chain := Measure(sets, head, g, tree, overlap);
    ChainIsBest(sets, core, head, coreIds[|coreIds| - 1], chain);
  }

  lemma ChainIsBest(sets: seq<set<Var>>, core: seq<bool>, head: set<Var>, root: nat, chain: Candidate)
    requires Measured(sets, core, head, root, chain) && IsChain(core, chain)
    ensures BestOf(sets, core, head, chain, [chain])
  {
    assert IsCandidate(sets, core, head, chain);
    AloneIsBest(sets, core, head, chain, [chain]);
  }

  lemma AloneIsBest(sets: seq<set<Var>>, core: seq<bool>, head: set<Var>, c: Candidate, considered: seq<Candidate>)
    requires IsCandidate(sets, core, head, c) && considered == [c]
    ensures BestOf(sets, core, head, c, considered)
  {
    AloneNoneBetter(c);
    forall i | 0 <= i < |considered|
      ensures IsCandidate(sets, core, head, considered[i])
    {
      assert considered[i] == c;
    }
  }

  lemma AloneNoneBetter(c: Candidate)
    ensures NoneBetter(c, [c])
  {
    assert FirstAt(c, [c], 0);
  }

  /* ------------------------------------------------------------------ */
  /* The plan tree                                                        */
  /* ------------------------------------------------------------------ */

  datatype PlanTree = PlanTree(joinTree: JoinTree, overlap: nat, maxOverlap: nat, subTrees: map<nat, seq<nat>>,
                               width: nat) {
    /** The edges overlap by as much as any tree's can. */
    predicate IsAcyclic() {
      overlap == maxOverlap
    }
  }

  /** The variables of core atoms; the other atoms take no part in the tree. */
  function CoreSets(atoms: seq<Atom>, core: seq<bool>): (sets: seq<set<Var>>)
    requires |core| == |atoms|
    ensures |sets| == |atoms| && forall i :: 0 <= i < |atoms| ==> sets[i] == if core[i] then Variables(atoms[i]) else {}
  {
    seq(|atoms|, i requires 0 <= i < |atoms| => if core[i] then Variables(atoms[i]) else {})
  }

  /** The tree spans exactly the core atoms, and lists every subtree's pre-order. */
  ghost predicate TreeOk(core: seq<bool>, plan: PlanTree) {
    (forall i: nat :: i in PreOrder(plan.joinTree) <==> i < |core| && core[i]) && ExactSubTrees(plan.joinTree, plan.subTrees)
  }

  /** The tree never overlaps by more than the maximum, and is reported acyclic exactly when it is a join tree. If it
      was grown by Prim's algorithm, that is exactly when the rule has a join tree at all. */
  ghost predicate OverlapOk(sets: seq<set<Var>>, core: seq<bool>, plan: PlanTree, best: Candidate) {
    && plan.overlap <= plan.maxOverlap && (plan.IsAcyclic() <==> IsJoinTree(sets, core, best.g))
    && (ByPrim(sets, core, best) ==> (plan.IsAcyclic() <==> HasJoinTree(sets, core)))
  }

  lemma StarOverlaps(x: Var, y: Var, z: Var, w: Var, sets: seq<set<Var>>)
    requires x != y && x != z && x != w && y != z && y != w && z != w && sets == [{x, y}, {y, z}, {x, w}]
    ensures Overlap(sets, 0, 1) == 1 && Overlap(sets, 0, 2) == 1 && Overlap(sets, 2, 1) == 0 && Overlap(sets, 1, 0) == 1
  {
    assert sets[0] * sets[1] == {y} && sets[0] * sets[2] == {x} && sets[2] * sets[1] == {} && sets[1] * sets[0] == {y};
  }

  lemma StarSums(x: Var, y: Var, z: Var, w: Var, sets: seq<set<Var>>)
    requires x != y && x != z && x != w && y != z && y != w && z != w && sets == [{x, y}, {y, z}, {x, w}]
    ensures SumAll(sets) == |UnionAll(sets)| + 2
  {
    assert |sets[0]| == 2 && |sets[1]| == 2 && |sets[2]| == 2;
    ThreeSum(sets);
    StarUnion(x, y, z, w, sets);
  }

  lemma ThreeSum(sets: seq<set<Var>>)
    requires |sets| == 3
    ensures SumAll(sets) == |sets[0]| + |sets[1]| + |sets[2]|
  {
    var two := sets[..2];
    assert two[..1][..0] == [] && SumAll(two[..1]) == |sets[0]|;
    assert SumAll(two) == |sets[0]| + |sets[1]|;
  }

  lemma StarUnion(x: Var, y: Var, z: Var, w: Var, sets: seq<set<Var>>)
    requires x != y && x != z && x != w && y != z && y != w && z != w && sets == [{x, y}, {y, z}, {x, w}]
    ensures |UnionAll(sets)| == 4
  {
    assert x in sets[0] && y in sets[0] && z in sets[1] && w in sets[2];
    assert UnionAll(sets) == {x, y, z, w};
  }

  lemma StarBeatsChain(sets: seq<set<Var>>, chain: Growth)
    requires |sets| == 3 && Overlap(sets, 0, 1) == 1 && Overlap(sets, 0, 2) == 1 && Overlap(sets, 2, 1) == 0
    requires Overlap(sets, 1, 0) == 1
    requires SumAll(sets) == |UnionAll(sets)| + 2 && chain.order == [2, 1, 0] && |chain.up| == 3 && chain.up[1] == 0
    requires chain.up[2] == 1
    ensures HasJoinTree(sets, [true, true, true]) && !IsJoinTree(sets, [true, true, true], chain)
  {
    var star := Growth([0, 1, 2], [0, 0, 0]);
    ThreeNodes(sets, 0, 1, 2, star);
    ThreeNodes(sets, 2, 1, 0, chain);
    assert IsJoinTree(sets, [true, true, true], star);
  }

  /** A tree of three nodes is a join tree when its two edges overlap by the maximum. */
  lemma ThreeNodes(sets: seq<set<Var>>, a: nat, b: nat, c: nat, g: Growth)
    requires |sets| == 3 && a < 3 && b < 3 && c < 3 && a != b && a != c && b != c
    requires g.order == [a, b, c] && |g.up| == 3 && g.up[1] == 0 && g.up[2] < 2
    ensures IsJoinTree(sets, [true, true, true], g) <==>
      Overlap(sets, a, b) + Overlap(sets, if g.up[2] == 0 then a else b, c) + |UnionAll(sets)| == SumAll(sets)
  {
    var core := [true, true, true];
    assert forall n: nat :: n in g.order <==> n < 3;
    assert Grown(g) && SpanningTrees.Within(sets, g.order);
    assert EdgeOverlap(sets, g, 1) == 0 && EdgeOverlap(sets, g, 2) == Overlap(sets, a, b);
    ReachesMaximum(sets, core, g);
  }

  lemma ThreeCores()
    ensures CoreIds([true, true, true]) == [0, 1, 2]
  {
    var core := [true, true, true];
    assert core[..2] == [true, true] && core[..2][..1] == [true] && core[..2][..1][..0] == [];
    assert CoreIds(core[..2][..1]) == [0] && CoreIds(core[..2]) == [0, 1];
  }

  ghost predicate PlanOk(sets: seq<set<Var>>, core: seq<bool>, plan: PlanTree, best: Candidate) {
    TreeOk(core, plan) && OverlapOk(sets, core, plan, best) && plan.width == best.width
  }

  lemma OverlapWithin(sets: seq<set<Var>>, core: seq<bool>, root: nat, c: Candidate)
    requires Spanning(sets, core, root, c.g, c.tree, c.overlap)
    requires forall i :: 0 <= i < |sets| && !core[i] ==> sets[i] == {}
    ensures c.overlap + |UnionAll(sets)| <= SumAll(sets)
    ensures c.overlap + |UnionAll(sets)| == SumAll(sets) <==> IsJoinTree(sets, core, c.g)
    ensures ByPrim(sets, core, c) ==> (HasJoinTree(sets, core) <==> IsJoinTree(sets, core, c.g))
  {
    ReachesMaximum(sets, core, c.g);
    if root :| IsPrim(sets, core, root, c.g) {
      PrimDecidesAcyclicity(sets, core, root, c.g);
    }
  }

  method MakePlan(sets: seq<set<Var>>, core: seq<bool>, ghost head: set<Var>, ghost root: nat, c: Candidate)
    returns (plan: PlanTree)
    requires Measured(sets, core, head, root, c) && forall i :: 0 <= i < |sets| && !core[i] ==> sets[i] == {}
    ensures PlanOk(sets, core, plan, c)
  {
    OverlapWithin(sets, core, root, c);
    SpansNodes(c.g, c.tree);
    var subTrees := PopulateSubtrees(core, c.tree, c.g);
    plan := PlanTree(ToTree(c.g, c.tree, 0), c.overlap, SumAll(sets) - |UnionAll(sets)|, subTrees, c.width);
  }

  /** Everything the optimizer promises of its choice. */
  ghost predicate Chosen(sets: seq<set<Var>>, core: seq<bool>, head: set<Var>, optimized: bool, plan: PlanTree,
                         best: Candidate, considered: seq<Candidate>)
  {
    && PlanOk(sets, core, plan, best) && BestOf(sets, core, head, best, considered)
    && considered != [] && IsChain(core, considered[0])
    && (!optimized ==> considered == [best])
    && (optimized ==> AllExplored(sets, core, |core|, considered))
  }

  method Plan(sets: seq<set<Var>>, core: seq<bool>, head: set<Var>, optimized: bool)
    returns (plan: PlanTree, ghost best: Candidate, ghost considered: seq<Candidate>)
    requires |sets| == |core| && (exists x: nat :: x < |core| && core[x])
    requires forall i :: 0 <= i < |sets| && !core[i] ==> sets[i] == {}
    ensures Chosen(sets, core, head, optimized, plan, best, considered)
  {
    var chosen;
    chosen, considered := ChooseTree(sets, core, head, optimized);
    best := chosen;
    ghost var root := RootOf(sets, core, head, chosen, considered);
    plan := MakePlan(sets, core, head, root, chosen);
  }

  /** Chooses a tree. It spans exactly the core atoms, with exact subtrees. It is the default chain - or, when
      optimizing, the first of the chain and all reorderings of every root's Prim tree than which none has a smaller
      width, or the same width and a smaller depth. */
  method FromCatalog(atoms: seq<Atom>, head: set<Var>, optimized: bool)
    returns (plan: PlanTree, ghost best: Candidate, ghost considered: seq<Candidate>)
    requires atoms != []
    ensures Chosen(CoreSets(atoms, CoreBitmap(atoms)), CoreBitmap(atoms), head, optimized, plan, best, considered)
  {
    var core := PopulateIsCoreAtomBitmap(VariableSets(atoms));
    assert core == CoreBitmap(atoms);
    ghost var some := SubsumedByCore(VariableSets(atoms), 0);
    assert core[some];
    plan, best, considered := Plan(CoreSets(atoms, core), core, head, optimized);
  }

  /** The tree is the optimizer's choice. */
  ghost predicate Picked(atoms: seq<Atom>, head: set<Var>, optimized: bool, plan: PlanTree) {
    exists best, considered ::
      Chosen(CoreSets(atoms, CoreBitmap(atoms)), CoreBitmap(atoms), head, optimized, plan, best, considered)
  }

  /** The tree a rule is compiled over. */
  method PickTree(atoms: seq<Atom>, head: set<Var>, optimized: bool) returns (plan: PlanTree)
    requires atoms != []
    ensures TreeOk(CoreBitmap(atoms), plan) && Picked(atoms, head, optimized, plan)
  {
    ghost var best, considered;
    plan, best, considered := FromCatalog(atoms, head, optimized);
  }

  lemma RootOf(sets: seq<set<Var>>, core: seq<bool>, head: set<Var>, best: Candidate, considered: seq<Candidate>)
    returns (root: nat)
    requires BestOf(sets, core, head, best, considered)
    ensures Measured(sets, core, head, root, best)
  {
    var i :| 0 <= i < |considered| && considered[i] == best;
    assert IsCandidate(sets, core, head, considered[i]);
    root :| Measured(sets, core, head, root, best);
  }

  function CoreBitmap(atoms: seq<Atom>): (core: seq<bool>)
    ensures |core| == |atoms| && forall i :: 0 <= i < |atoms| ==> core[i] == IsCore(VariableSets(atoms), i)
  {
    seq(|atoms|, i requires 0 <= i < |atoms| => IsCore(VariableSets(atoms), i))
  }

  /* ------------------------------------------------------------------ */
  /* A rule whose default chain is no join tree                           */
  /* ------------------------------------------------------------------ */

  /** The atoms of `a(x, y), b(y, z), c(x, w)`. */
  function Star(): seq<Atom> {
    [Atom("a", [Variable("x"), Variable("y")]), Atom("b", [Variable("y"), Variable("z")]), Atom("c", [Variable("x"), Variable("w")])]
  }

  lemma TwoVariables(atom: Atom, x: Var, y: Var)
    requires atom.args == [Variable(x), Variable(y)]
    ensures Variables(atom) == {x, y}
  {
    assert atom.args[0] == Variable(x) && atom.args[1] == Variable(y);
  }

  lemma StarVariables()
    ensures VariableSets(Star()) == [{"x", "y"}, {"y", "z"}, {"x", "w"}]
  {
    TwoVariables(Star()[0], "x", "y");
    TwoVariables(Star()[1], "y", "z");
    TwoVariables(Star()[2], "x", "w");
  }

  lemma ThreeAreCore(sets: seq<set<Var>>)
    requires sets == [{"x", "y"}, {"y", "z"}, {"x", "w"}]
    ensures forall i :: 0 <= i < 3 ==> IsCore(sets, i)
  {
    assert "y" in sets[0] && "y" !in sets[2] && "x" in sets[0] && "x" !in sets[1];
    assert "z" in sets[1] && "z" !in sets[0] && "z" !in sets[2] && "w" in sets[2] && "w" !in sets[0] && "w" !in sets[1];
  }

  lemma StarSets()
    ensures CoreBitmap(Star()) == [true, true, true]
    ensures CoreSets(Star(), CoreBitmap(Star())) == [{"x", "y"}, {"y", "z"}, {"x", "w"}]
  {
    StarVariables();
    ThreeAreCore(VariableSets(Star()));
  }

  /** The default chain may miss a join tree the rule has: with a(x, y), b(y, z) and c(x, w), c and a are not neighbours
      in it. Planned without optimization the rule is then reported as cyclic, though it is not. */
  lemma ChainMissesJoinTree(head: set<Var>, plan: PlanTree, best: Candidate, considered: seq<Candidate>)
    requires Chosen(CoreSets(Star(), CoreBitmap(Star())), CoreBitmap(Star()), head, false, plan, best, considered)
    ensures !plan.IsAcyclic() && HasJoinTree(CoreSets(Star(), CoreBitmap(Star())), CoreBitmap(Star()))
  {
    StarSets();
    StarMissed(CoreSets(Star(), CoreBitmap(Star())), CoreBitmap(Star()), head, plan, best, considered);
  }

  lemma StarMissed(sets: seq<set<Var>>, core: seq<bool>, head: set<Var>, plan: PlanTree, best: Candidate,
                   considered: seq<Candidate>)
    requires sets == [{"x", "y"}, {"y", "z"}, {"x", "w"}] && core == [true, true, true]
    requires Chosen(sets, core, head, false, plan, best, considered)
    ensures !plan.IsAcyclic() && HasJoinTree(sets, core)
  {
    ThreeCores();
    ChainChosen(sets, core, head, plan, best, considered);
    ThreeDown(best.g);
    StarOverlaps("x", "y", "z", "w", sets);
    StarSums("x", "y", "z", "w", sets);
    StarBeatsChain(sets, best.g);
  }

  lemma ChainChosen(sets: seq<set<Var>>, core: seq<bool>, head: set<Var>, plan: PlanTree, best: Candidate,
                    considered: seq<Candidate>)
    requires Chosen(sets, core, head, false, plan, best, considered)
    ensures ChainsDown(CoreIds(core), 0, best.g) && (plan.IsAcyclic() <==> IsJoinTree(sets, core, best.g))
  {
    assert considered[0] == best;
  }

  lemma ThreeDown(g: Growth)
    requires ChainsDown([0, 1, 2], 0, g)
    ensures g.order == [2, 1, 0] && |g.up| == 3 && g.up[1] == 0 && g.up[2] == 1
  {
  }

  method PlanStar(head: set<Var>) returns (plan: PlanTree)
    ensures !plan.IsAcyclic() && HasJoinTree(CoreSets(Star(), CoreBitmap(Star())), CoreBitmap(Star()))
  {
    ghost var best, considered;
    plan, best, considered := FromCatalog(Star(), head, false);
    ChainMissesJoinTree(head, plan, best, considered);
  }
}

/** Assembling a whole program: plain groups, and recursive groups inside their scopes, where sideways slices have to be
    published before they are read. */
module Scopes {
  import opened Wrappers
  import opened Schedules
  import opened Fusion

  /* ------------------------------------------------------------------ */
  /* One scope                                                            */
  /* ------------------------------------------------------------------ */

  predicate IsUnary(op: Op) {
    op.kind.Unary? || op.kind.Compute?
  }

  /** The relations a scope iterates on: what its rules derive, but for the slices. */
  function Variables(p: GroupPlan): set<Sig> {
    Named(p.heads) - p.slices
  }

  /** The slices that become readable when the operator is built: only a join to rows publishes those it is the root
      of. */
  function Publishes(p: GroupPlan, op: Op): (r: set<Sig>)
    requires |p.heads| == |p.roots|
    ensures forall s :: s in r <==> op.kind.JoinToRow? && exists i ::
      0 <= i < |p.roots| && DerivesSlice(p, i, s) && p.roots[i] == op.sig
  {
    if op.kind.JoinToRow? then set i | 0 <= i < |p.roots| && DerivesSlice(p, i, p.heads[i]) && p.roots[i] == op.sig :: p.heads[i] else {}
  }

  predicate DerivesSlice(p: GroupPlan, i: nat, s: Sig)
    requires i < |p.heads|
  {
    p.heads[i] == s && s in p.slices
  }

  /** What a scope holds after its first `k` operators. */
  ghost function Nest(p: GroupPlan, start: set<Sig>, k: nat): set<Sig>
    requires |p.heads| == |p.roots| && k <= |p.plan|
  {
    if k == 0 then start else Nest(p, start, k - 1) + {p.plan[k - 1].sig} + Publishes(p, p.plan[k - 1])
  }

  /** An operator's inputs are in the scope; a unary operator may also read a relation the scope iterates on. */
  predicate Finds(p: GroupPlan, nest: set<Sig>, op: Op) {
    forall i :: 0 <= i < |op.inputs| ==> op.inputs[i] in nest || (IsUnary(op) && op.inputs[i] in Variables(p))
  }

  /** The first `n` operators find their inputs. */
  ghost predicate ScopeRuns(p: GroupPlan, start: set<Sig>, n: nat)
    requires |p.heads| == |p.roots| && n <= |p.plan|
  {
    forall k :: 0 <= k < n ==> FindsAt(p, start, k)
  }

  ghost predicate FindsAt(p: GroupPlan, start: set<Sig>, k: nat)
    requires |p.heads| == |p.roots| && k < |p.plan|
  {
    Finds(p, Nest(p, start, k), p.plan[k])
  }

  /** Every relation the scope iterates on finds the rows of its rules. */
  predicate Collects(p: GroupPlan, nest: set<Sig>)
    requires |p.heads| == |p.roots|
  {
    forall i :: 0 <= i < |p.roots| && p.heads[i] !in p.slices ==> p.roots[i] in nest
  }

  /** What comes into the scope from outside. */
  function Entered(p: GroupPlan, built: set<Sig>): set<Sig> {
    p.enterScope * built - Named(p.heads) - p.slices
  }

  /** What is brought in is there outside, or is iterated on. */
  predicate Enterable(p: GroupPlan, built: set<Sig>) {
    p.enterScope - p.slices <= built + Variables(p)
  }

  /** What is brought into a scope, once all but `left` was looked at. */
  ghost predicate EnteredBut(p: GroupPlan, built: set<Sig>, left: set<Sig>, nest: set<Sig>) {
    && nest == Entered(p, built) - left && p.enterScope - p.slices - left <= built + Variables(p)
  }

  method EnterScope(p: GroupPlan, built: set<Sig>) returns (r: Option<set<Sig>>)
    ensures r.Some? <==> Enterable(p, built)
    ensures r.Some? ==> r.value == Entered(p, built)
  {
    var nest: set<Sig>, left := {}, p.enterScope;
    while left != {}
      invariant left <= p.enterScope && EnteredBut(p, built, left, nest)
    {
      var s :| s in left;
      if s !in p.slices && s !in built && s !in Named(p.heads) {
        assert s in p.enterScope - p.slices && s !in built + Variables(p);
        return None;
      }
      EnteredNext(p, built, left, nest, s);
      // an earlier contribution to a relation of the group goes to that relation, not into the scope's map
      if s !in p.slices && s in built && s !in Named(p.heads) {
        nest := nest + {s};
      }
      left := left - {s};
    }
    r := Some(nest);
  }

  lemma EnteredNext(p: GroupPlan, built: set<Sig>, left: set<Sig>, nest: set<Sig>, s: Sig)
    requires EnteredBut(p, built, left, nest) && s in left && left <= p.enterScope
    requires s in p.slices || s in built || s in Named(p.heads)
    ensures EnteredBut(p, built, left - {s}, if s !in p.slices && s in built && s !in Named(p.heads) then nest + {s} else nest)
  {
  }

  /** The scope once its first `k` operators are built. */
  ghost predicate NestAt(p: GroupPlan, start: set<Sig>, k: nat, nest: set<Sig>) {
    |p.heads| == |p.roots| && k <= |p.plan| && nest == Nest(p, start, k) && ScopeRuns(p, start, k)
  }

  lemma NestNext(p: GroupPlan, start: set<Sig>, k: nat, nest: set<Sig>, next: set<Sig>)
    requires NestAt(p, start, k, nest) && k < |p.plan| && Finds(p, nest, p.plan[k])
    requires next == nest + {p.plan[k].sig} + Publishes(p, p.plan[k])
    ensures NestAt(p, start, k + 1, next)
  {
    assert FindsAt(p, start, k);
  }

  lemma NestStuck(p: GroupPlan, start: set<Sig>, k: nat, nest: set<Sig>)
    requires NestAt(p, start, k, nest) && k < |p.plan| && !Finds(p, nest, p.plan[k])
    ensures !ScopeRuns(p, start, |p.plan|)
  {
    assert !FindsAt(p, start, k);
  }

  method RunScope(p: GroupPlan, start: set<Sig>) returns (r: Option<set<Sig>>)
    requires |p.heads| == |p.roots|
    ensures r.Some? <==> ScopeRuns(p, start, |p.plan|)
    ensures r.Some? ==> r.value == Nest(p, start, |p.plan|)
  {
    var nest := start;
    for k := 0 to |p.plan|
      invariant NestAt(p, start, k, nest)
    {
      if !Finds(p, nest, p.plan[k]) {
        NestStuck(p, start, k, nest);
        return None;
      }
      var next := nest + {p.plan[k].sig} + Publishes(p, p.plan[k]);
      NestNext(p, start, k, nest, next);
      nest := next;
    }
    r := Some(nest);
  }

  /** Assembles a recursive group. A collection missing anywhere is a panic, and gives nothing; otherwise the relations
      iterated on leave the scope. */
  method AssembleScope(p: GroupPlan, built: set<Sig>) returns (r: Option<set<Sig>>)
    requires |p.heads| == |p.roots|
    ensures r.Some? <==> ScopeBuilds(p, built)
    ensures r.Some? ==> r.value == Variables(p)
  {
    var start := EnterScope(p, built);
    if start.None? {
      return None;
    }
    var nest := RunScope(p, start.value);
    if nest.None? || !Collects(p, nest.value) {
      return None;
    }
    r := Some(Variables(p));
  }

  /** Nothing is missing: entering, running or collecting. */
  ghost predicate ScopeBuilds(p: GroupPlan, built: set<Sig>)
    requires |p.heads| == |p.roots|
  {
    && Enterable(p, built) && ScopeRuns(p, Entered(p, built), |p.plan|)
    && Collects(p, Nest(p, Entered(p, built), |p.plan|))
  }

  /* ------------------------------------------------------------------ */
  /* When a scope is complete                                             */
  /* ------------------------------------------------------------------ */

  /** Before its `k`-th operator, the plan of the scope has a join to rows that is the root of a rule deriving the
      slice. */
  ghost predicate PublishedBefore(p: GroupPlan, s: Sig, k: nat)
    requires |p.heads| == |p.roots| && k <= |p.plan|
  {
    exists b: nat :: b < k && s in Publishes(p, p.plan[b])
  }

  /** If the operator's input is a slice, it is published by then. */
  ghost predicate InTime(p: GroupPlan, k: nat, s: Sig)
    requires |p.heads| == |p.roots| && k <= |p.plan|
  {
    s in p.slices ==> PublishedBefore(p, s, k)
  }

  /** Every slice is published before it is read. */
  ghost predicate SlicesPublished(p: GroupPlan)
    requires |p.heads| == |p.roots|
  {
    forall k: nat, s :: k < |p.plan| && s in p.plan[k].inputs ==> InTime(p, k, s)
  }

  lemma PublishedNext(p: GroupPlan, s: Sig, k: nat)
    requires |p.heads| == |p.roots| && k < |p.plan|
    ensures PublishedBefore(p, s, k + 1) <==> PublishedBefore(p, s, k) || s in Publishes(p, p.plan[k])
  {
    if PublishedBefore(p, s, k + 1) {
      var b: nat :| b < k + 1 && s in Publishes(p, p.plan[b]);
    }
  }

  lemma {:induction false} NestIs(p: GroupPlan, start: set<Sig>, k: nat, s: Sig)
    requires |p.heads| == |p.roots| && k <= |p.plan|
    ensures s in Nest(p, start, k) <==> s in start || s in Outputs(p.plan[..k]) || PublishedBefore(p, s, k)
  {
    if k > 0 {
      NestIs(p, start, k - 1, s);
      OutputsNext(p.plan, k - 1);
      PublishedNext(p, s, k - 1);
    }
  }

  /** An operator finds an input: in the scope or, if it is unary, among the relations iterated on. */
  ghost predicate InputAt(p: GroupPlan, start: set<Sig>, k: nat, s: Sig)
    requires |p.heads| == |p.roots| && k < |p.plan|
  {
    s in Nest(p, start, k) || (IsUnary(p.plan[k]) && s in Variables(p))
  }

  lemma FindsInputs(p: GroupPlan, start: set<Sig>, k: nat)
    requires |p.heads| == |p.roots| && k < |p.plan|
    ensures FindsAt(p, start, k) <==> forall s :: s in p.plan[k].inputs ==> InputAt(p, start, k, s)
  {
    var op, nest := p.plan[k], Nest(p, start, k);
    if FindsAt(p, start, k) {
      forall s | s in op.inputs
        ensures InputAt(p, start, k, s)
      {
        var i :| 0 <= i < |op.inputs| && op.inputs[i] == s;
      }
    }
    if forall s :: s in op.inputs ==> InputAt(p, start, k, s) {
      forall i | 0 <= i < |op.inputs|
        ensures op.inputs[i] in nest || (IsUnary(op) && op.inputs[i] in Variables(p))
      {
        assert InputAt(p, start, k, op.inputs[i]);
      }
    }
  }

  lemma OpTree(group: Group, p: GroupPlan, available: set<Sig>, k: nat) returns (t: Tree)
    requires Planned(group, p, available) && k < |p.plan|
    ensures t in AllSubtrees(group.roots) && p.plan[k] == OpOf(t)
  {
    assert IsOpOf(p.plan[k], AllSubtrees(group.roots));
    t :| t in AllSubtrees(group.roots) && p.plan[k] == OpOf(t);
  }

  lemma ChildInside(roots: seq<Tree>, t: Tree, i: nat)
    requires t in AllSubtrees(roots) && t.Node? && i < |t.children|
    ensures t.children[i] in AllSubtrees(roots)
  {
    var k :| 0 <= k < |roots| && t in Subtrees(roots[k]);
    ChildIsSubtree(t, i);
    SubtreeOf(roots[k], t, t.children[i]);
    InSubtrees(roots, k, t.children[i]);
  }

  /** Only leaves, which are unary, read what the group derives. */
  lemma DerivedReader(group: Group, p: GroupPlan, available: set<Sig>, k: nat, s: Sig)
    requires Planned(group, p, available) && Apart(group) && k < |p.plan| && s in p.plan[k].inputs
    requires s in Named(p.heads)
    ensures IsUnary(p.plan[k])
  {
    var t := OpTree(group, p, available, k);
    if t.Node? {
      var i :| 0 <= i < |p.plan[k].inputs| && p.plan[k].inputs[i] == s;
      ChildInside(group.roots, t, i);
    }
  }

  /** No operator's collection has the name of something derived. */
  lemma OutputsApart(group: Group, p: GroupPlan, available: set<Sig>, s: Sig)
    requires Planned(group, p, available) && Apart(group) && s in Outputs(p.plan)
    ensures s !in Named(p.heads)
  {
    var k :| 0 <= k < |p.plan| && p.plan[k].sig == s;
    var t := OpTree(group, p, available, k);
  }

  lemma SliceInput(p: GroupPlan, start: set<Sig>, k: nat, s: Sig)
    requires |p.heads| == |p.roots| && k < |p.plan| && s in p.slices && s !in start && s !in Outputs(p.plan[..k])
    ensures InputAt(p, start, k, s) <==> PublishedBefore(p, s, k)
  {
    NestIs(p, start, k, s);
  }

  lemma PlainInput(p: GroupPlan, start: set<Sig>, k: nat, s: Sig)
    requires |p.heads| == |p.roots| && k < |p.plan| && s !in p.slices
    requires if s in Named(p.heads) then IsUnary(p.plan[k]) else s in start + Outputs(p.plan[..k])
    ensures InputAt(p, start, k, s)
  {
    NestIs(p, start, k, s);
  }

  lemma InputThere(plan: seq<Op>, k: nat, available: set<Sig>, s: Sig)
    requires Runs(plan, available) && k < |plan| && s in plan[k].inputs
    ensures s in available + Outputs(plan[..k])
  {
    RunsPrefix(plan, k, available);
  }

  lemma OutputsFront(plan: seq<Op>, k: nat, s: Sig)
    requires k <= |plan| && s in Outputs(plan[..k])
    ensures s in Outputs(plan)
  {
    var j :| 0 <= j < k && plan[..k][j].sig == s;
    assert plan[j].sig == s;
  }

  /** A planned recursive group whose other inputs are built. */
  ghost predicate Ready(group: Group, p: GroupPlan, available: set<Sig>, built: set<Sig>) {
    && Planned(group, p, available) && group.recursive && Apart(group) && |p.heads| == |p.roots|
    && p.slices <= Named(p.heads)
    && p.enterScope - Named(p.heads) <= built
  }

  /** One operator of a scope finds an input unless it is a slice not published yet. */
  lemma InputFound(group: Group, p: GroupPlan, available: set<Sig>, built: set<Sig>, k: nat, s: Sig)
    requires Ready(group, p, available, built) && k < |p.plan| && s in p.plan[k].inputs
    ensures InputAt(p, Entered(p, built), k, s) <==> InTime(p, k, s)
  {
    if s in p.slices {
      SliceUnbuilt(group, p, available, k, s);
      SliceInput(p, Entered(p, built), k, s);
    } else {
      if s in Named(p.heads) {
        DerivedReader(group, p, available, k, s);
      } else {
        InputThere(p.plan, k, p.enterScope, s);
      }
      PlainInput(p, Entered(p, built), k, s);
    }
  }

  lemma SliceUnbuilt(group: Group, p: GroupPlan, available: set<Sig>, k: nat, s: Sig)
    requires Planned(group, p, available) && Apart(group) && k < |p.plan| && s in Named(p.heads)
    ensures s !in Outputs(p.plan[..k])
  {
    if s in Outputs(p.plan[..k]) {
      OutputsFront(p.plan, k, s);
      OutputsApart(group, p, available, s);
    }
  }

  lemma RootCollected(group: Group, p: GroupPlan, available: set<Sig>, built: set<Sig>, i: nat)
    requires Ready(group, p, available, built) && i < |p.roots|
    ensures p.roots[i] in Nest(p, Entered(p, built), |p.plan|)
  {
    InSubtrees(group.roots, i, group.roots[i]);
    assert p.roots[i] == group.roots[i].sig;
    WholeNest(p, Entered(p, built), p.roots[i]);
  }

  lemma WholeNest(p: GroupPlan, start: set<Sig>, s: Sig)
    requires |p.heads| == |p.roots| && s in start + Outputs(p.plan)
    ensures s in Nest(p, start, |p.plan|)
  {
    NestIs(p, start, |p.plan|, s);
    assert p.plan[..|p.plan|] == p.plan;
  }

  /** Every operator finds its inputs if and only if every slice is published before it is read. */
  lemma ScopeRunsExactly(p: GroupPlan, start: set<Sig>)
    requires |p.heads| == |p.roots|
    requires forall k: nat, s :: k < |p.plan| && s in p.plan[k].inputs ==>
      (InputAt(p, start, k, s) <==> InTime(p, k, s))
    ensures ScopeRuns(p, start, |p.plan|) <==> SlicesPublished(p)
  {
    forall k: nat | k < |p.plan|
      ensures FindsAt(p, start, k) <==> forall s :: s in p.plan[k].inputs ==> InTime(p, k, s)
    {
      FindsInputs(p, start, k);
    }
  }

  /** A planned scope is complete if and only if every slice it reads is published before its first reader. */
  lemma ScopeExact(group: Group, p: GroupPlan, available: set<Sig>, built: set<Sig>)
    requires Ready(group, p, available, built)
    ensures ScopeBuilds(p, built) <==> SlicesPublished(p)
  {
    forall i: nat | i < |p.roots|
      ensures p.roots[i] in Nest(p, Entered(p, built), |p.plan|)
    {
      RootCollected(group, p, available, built, i);
    }
    forall k: nat, s | k < |p.plan| && s in p.plan[k].inputs
      ensures InputAt(p, Entered(p, built), k, s) <==> InTime(p, k, s)
    {
      InputFound(group, p, available, built, k, s);
    }
    ScopeRunsExactly(p, Entered(p, built));
  }

  /* ------------------------------------------------------------------ */
  /* A whole program                                                      */
  /* ------------------------------------------------------------------ */

  /** The slices of every recursive group are published in time. */
  ghost predicate AllPublished(plans: seq<GroupPlan>, n: nat)
    requires n <= |plans|
  {
    forall g :: 0 <= g < n && plans[g].recursive ==> |plans[g].heads| == |plans[g].roots| && SlicesPublished(plans[g])
  }

  /** Every rule finds its root when the relations of a plain group are collected. */
  method CollectHeads(p: GroupPlan, built: set<Sig>) returns (built': set<Sig>)
    requires forall k :: 0 <= k < |p.roots| ==> p.roots[k] in built
    ensures built' == built + Named(p.heads)
  {
    built' := built + Named(p.heads);
  }

  ghost predicate WellNamed(group: Group) {
    Apart(group) && |group.heads| == |group.roots| && group.slices <= Named(group.heads)
  }

  /** What was planned, and can be assembled. */
  ghost predicate Assemblable(groups: seq<Group>, plans: seq<GroupPlan>, relations: set<Sig>) {
    && AllPlanned(groups, plans, relations)
    && forall g :: 0 <= g < |groups| ==> WellNamed(groups[g])
  }

  /** Assembles all groups of a planned program, fusing wherever a join has no other reader. It goes through if and only
      if in every recursive group every slice is published before its first reader; then every rule's root outside a
      scope is built, and every relation the program derives. */
  method Assemble(groups: seq<Group>, plans: seq<GroupPlan>, fusable: Op -> bool, relations: set<Sig>)
    returns (r: Option<set<Sig>>)
    requires Assemblable(groups, plans, relations)
    ensures r.Some? <==> AllPublished(plans, |plans|)
    ensures r.Some? ==> RootsIn(plans, |plans|, r.value) && HeadsOf(groups) <= r.value
  {
    var consumers := CountConsumers(plans);
    var built := relations;
    for g := 0 to |plans|
      invariant Kept(plans, g, 0, {}, AvailableTo(relations, plans[..g]), built) && AllPublished(plans, g)
      invariant RootsIn(plans, g, built) && HeadsOf(groups[..g]) <= built
    {
      ghost var before := built;
      var next := AssembleNext(groups, plans, g, consumers, fusable, relations, built);
      if next.None? {
        return None;
      }
      built := next.value;
      HeadsNext(groups, g);
    }
    assert groups[..|groups|] == groups;
    r := Some(built);
  }

  /** The roots of the first `n` groups' rules are in `sigs`; those of recursive groups are inside their scopes. */
  ghost predicate RootsIn(plans: seq<GroupPlan>, n: nat, sigs: set<Sig>) {
    forall g, k :: 0 <= g < n && g < |plans| && !plans[g].recursive && 0 <= k < |plans[g].roots| ==> plans[g].roots[k] in sigs
  }

  method AssembleNext(groups: seq<Group>, plans: seq<GroupPlan>, g: nat, consumers: Counts, fusable: Op -> bool,
                      ghost relations: set<Sig>, built: set<Sig>)
    returns (r: Option<set<Sig>>)
    requires Assemblable(groups, plans, relations) && g < |plans|
    requires forall s :: Counted(consumers, s) == TotalReads(plans, s)
    requires Kept(plans, g, 0, {}, AvailableTo(relations, plans[..g]), built)
    ensures r.Some? <==> (plans[g].recursive ==> SlicesPublished(plans[g]))
    ensures r.Some? ==> built + ExportedBy(groups[g]) <= r.value && Kept(plans, g + 1, 0, {}, AvailableTo(relations, plans[..g + 1]), r.value)
    ensures r.Some? && !plans[g].recursive ==> forall k :: 0 <= k < |plans[g].roots| ==> plans[g].roots[k] in r.value
  {
    ghost var available := AvailableTo(relations, plans[..g]);
    GroupReady(groups, plans, relations, g);
    AvailableNext(relations, plans, g);
    if plans[g].recursive {
      r := AssembleRecursive(groups[g], plans, g, built, available);
    } else {
      var collected := AssemblePlain(groups[g], plans, g, consumers, fusable, built, available);
      r := Some(collected);
    }
  }

  lemma GroupReady(groups: seq<Group>, plans: seq<GroupPlan>, relations: set<Sig>, g: nat)
    requires Assemblable(groups, plans, relations) && g < |plans|
    ensures Planned(groups[g], plans[g], AvailableTo(relations, plans[..g])) && WellNamed(groups[g])
  {
  }

  method AssembleRecursive(group: Group, plans: seq<GroupPlan>, g: nat, built: set<Sig>, ghost available: set<Sig>)
    returns (r: Option<set<Sig>>)
    requires g < |plans| && plans[g].recursive && Planned(group, plans[g], available) && WellNamed(group)
    requires Kept(plans, g, 0, {}, available, built)
    ensures r.Some? <==> SlicesPublished(plans[g])
    ensures r.Some? ==> r.value == built + ExportedBy(group)
    ensures r.Some? ==> Kept(plans, g + 1, 0, {}, available + ExportedBy(group), r.value)
  {
    ScopeFinds(plans, g, available, built);
    ScopeExact(group, plans[g], available, built);
    var left := AssembleScope(plans[g], built);
    if left.None? {
      return None;
    }
    KeptLater(plans, g, available, built);
    KeptHeads(plans, g + 1, available, built, left.value);
    r := Some(built + left.value);
  }

  method AssemblePlain(group: Group, plans: seq<GroupPlan>, g: nat, consumers: Counts, fusable: Op -> bool,
                       built: set<Sig>, ghost available: set<Sig>)
    returns (r: set<Sig>)
    requires g < |plans| && !plans[g].recursive && Planned(group, plans[g], available)
    requires forall s :: Counted(consumers, s) == TotalReads(plans, s)
    requires Kept(plans, g, 0, {}, available, built)
    ensures Kept(plans, g + 1, 0, {}, available + Outputs(plans[g].plan) + ExportedBy(group), r)
    ensures built + ExportedBy(group) <= r && forall k :: 0 <= k < |plans[g].roots| ==> plans[g].roots[k] in r
  {
    var inner := AssembleGroup(plans, g, consumers, fusable, built, available);
    RootsFound(plans, g, available + Outputs(plans[g].plan), inner);
    r := CollectHeads(plans[g], inner);
    KeptHeads(plans, g + 1, available + Outputs(plans[g].plan), inner, Named(plans[g].heads));
  }

  lemma RootsFound(plans: seq<GroupPlan>, g: nat, available: set<Sig>, built: set<Sig>)
    requires g < |plans| && Kept(plans, g + 1, 0, {}, available, built)
    requires forall k :: 0 <= k < |plans[g].roots| ==> plans[g].roots[k] in available
    ensures forall k :: 0 <= k < |plans[g].roots| ==> plans[g].roots[k] in built
  {
    forall k | 0 <= k < |plans[g].roots|
      ensures plans[g].roots[k] in built
    {
      HeadFinds(plans, g + 1, 0, {}, available, built, g, plans[g].roots[k]);
    }
  }
}

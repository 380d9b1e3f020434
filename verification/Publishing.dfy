/** When a whole program can be assembled, by its rules alone: every sideways slice read in a recursive group has to be
    the rows of a join which that group computes itself. */
module Publishing {
  import opened Wrappers
  import opened Schedules
  import opened Scopes

  /* ------------------------------------------------------------------ */
  /* One recursive group                                                  */
  /* ------------------------------------------------------------------ */

  /** Nothing scheduled outside reads what the group derives. */
  ghost predicate Fresh(group: Group, seen: set<Sig>) {
    forall t :: t in AllSubtrees(group.roots) && t.sig in seen ==> Relations(t) !! Named(group.heads)
  }

  /** A recursive group and its plan. */
  ghost predicate Nested(group: Group, p: GroupPlan, available: set<Sig>, seen: set<Sig>) {
    && Planned(group, p, available) && group.recursive && WellNamed(group) && Faithful(AllSubtrees(group.roots))
    && SlicesFirst(group) && ScopePlanned(group, p, seen) && Fresh(group, seen)
  }

  /** The root's rows are a join's, and the group computes them. */
  ghost predicate Published(root: Tree, seen: set<Sig>) {
    OpOf(root).kind.JoinToRow? && root.sig !in seen
  }

  /** Every slice a rule reads is published. */
  ghost predicate Publishable(group: Group, seen: set<Sig>)
    requires |group.heads| == |group.roots|
  {
    forall i, j :: 0 <= i < |group.roots| && 0 <= j < |group.roots| && ReadsSlice(group, i, j) ==> Published(group.roots[i], seen)
  }

  lemma OpIs(group: Group, p: GroupPlan, available: set<Sig>, k: nat, t: Tree)
    requires Planned(group, p, available) && Faithful(AllSubtrees(group.roots)) && t in AllSubtrees(group.roots)
    requires k < |p.plan| && p.plan[k].sig == t.sig
    ensures p.plan[k] == OpOf(t)
  {
    var u := OpTree(group, p, available, k);
  }

  /** A tree that reads a slice is not taken from outside. */
  lemma ComputedInside(group: Group, p: GroupPlan, available: set<Sig>, seen: set<Sig>, t: Tree, s: Sig)
    requires Nested(group, p, available, seen) && t in AllSubtrees(group.roots)
    requires t.sig in p.enterScope + Outputs(p.plan)
    requires s in Relations(t) && s in group.slices
    ensures t.sig in Outputs(p.plan)
  {
    assert s in Named(group.heads);
  }

  lemma WholeOutputs(plan: seq<Op>, k: nat, available: set<Sig>, s: Sig)
    requires Runs(plan, available) && k < |plan| && s in plan[k].inputs
    ensures s in available + Outputs(plan)
  {
    InputThere(plan, k, available, s);
    if s in Outputs(plan[..k]) {
      OutputsFront(plan, k, s);
    }
  }

  /** Below a scheduled tree that reads a slice, the leaf over the slice is scheduled. */
  lemma {:induction false} SliceReader(group: Group, p: GroupPlan, available: set<Sig>, seen: set<Sig>, t: Tree, s: Sig)
    returns (k: nat)
    requires Nested(group, p, available, seen) && t in AllSubtrees(group.roots) && t.sig in Outputs(p.plan)
    requires s in Relations(t) && s in group.slices
    ensures k < |p.plan| && s in p.plan[k].inputs
    decreases t
  {
    k :| 0 <= k < |p.plan| && p.plan[k].sig == t.sig;
    OpIs(group, p, available, k, t);
    match t
    case Leaf(_, relation, _) =>
      assert p.plan[k].inputs[0] == s;
    case Node(_, children, _) =>
      var i :| 0 <= i < |children| && s in Relations(children[i]);
      ChildInside(group.roots, t, i);
      assert p.plan[k].inputs[i] == children[i].sig;
      WholeOutputs(p.plan, k, p.enterScope, children[i].sig);
      ComputedInside(group, p, available, seen, children[i], s);
      k := SliceReader(group, p, available, seen, children[i], s);
  }

  /** A rule that reads a slice has an operator that reads it. */
  lemma RuleReader(group: Group, p: GroupPlan, available: set<Sig>, seen: set<Sig>, i: nat, j: nat) returns (k: nat)
    requires Nested(group, p, available, seen) && i < |group.roots| && j < |group.roots| && ReadsSlice(group, i, j)
    ensures k < |p.plan| && group.heads[i] in p.plan[k].inputs
  {
    InSubtrees(group.roots, j, group.roots[j]);
    assert p.roots[j] == group.roots[j].sig;
    ComputedInside(group, p, available, seen, group.roots[j], group.heads[i]);
    k := SliceReader(group, p, available, seen, group.roots[j], group.heads[i]);
  }

  /** A slice published in the plan is published by its own rule. */
  lemma PublishedByRule(group: Group, p: GroupPlan, available: set<Sig>, seen: set<Sig>, i: nat, b: nat)
    requires Nested(group, p, available, seen) && i < |group.roots| && group.heads[i] in group.slices
    requires b < |p.plan| && group.heads[i] in Publishes(p, p.plan[b])
    ensures Published(group.roots[i], seen)
  {
    var i' :| 0 <= i' < |p.roots| && DerivesSlice(p, i', group.heads[i]) && p.roots[i'] == p.plan[b].sig;
    assert group.heads[i'] == group.heads[i];
    assert i' == i;
    InSubtrees(group.roots, i, group.roots[i]);
    OpIs(group, p, available, b, group.roots[i]);
  }

  /** A published root is published before the operators that read the slice. */
  lemma PublishedInTime(group: Group, p: GroupPlan, available: set<Sig>, seen: set<Sig>, i: nat, k: nat)
    requires Nested(group, p, available, seen) && i < |group.roots| && group.heads[i] in group.slices
    requires Published(group.roots[i], seen)
    requires k < |p.plan| && group.heads[i] in p.plan[k].inputs
    ensures PublishedBefore(p, group.heads[i], k)
  {
    assert p.roots[i] == group.roots[i].sig && ScheduledBefore(p.plan, p.roots[i], k);
    var b: nat :| b < k && p.plan[b].sig == p.roots[i];
    InSubtrees(group.roots, i, group.roots[i]);
    OpIs(group, p, available, b, group.roots[i]);
    assert DerivesSlice(p, i, group.heads[i]);
  }

  /** The rule an operator that reads a slice belongs to. */
  lemma ReaderRule(group: Group, p: GroupPlan, available: set<Sig>, seen: set<Sig>, k: nat, s: Sig)
    returns (i: nat, j: nat)
    requires Nested(group, p, available, seen) && k < |p.plan| && s in p.plan[k].inputs && s in group.slices
    ensures i < |group.roots| && j < |group.roots| && ReadsSlice(group, i, j) && group.heads[i] == s
  {
    i :| 0 <= i < |group.heads| && group.heads[i] == s;
    var t := OpTree(group, p, available, k);
    j :| 0 <= j < |group.roots| && t in Subtrees(group.roots[j]);
    assert IsOpOf(p.plan[k], Subtrees(group.roots[j]));
    var u := ReadsDerived(group, j, p.plan[k], s);
  }

  /** In a planned recursive group every slice is published before it is read if and only if every slice a rule reads
      has a root that is a join to rows and was not scheduled outside. */
  lemma SlicesExact(group: Group, p: GroupPlan, available: set<Sig>, seen: set<Sig>)
    requires Nested(group, p, available, seen)
    ensures SlicesPublished(p) <==> Publishable(group, seen)
  {
    if SlicesPublished(p) {
      forall i: nat, j: nat | i < |group.roots| && j < |group.roots| && ReadsSlice(group, i, j)
        ensures Published(group.roots[i], seen)
      {
        var k := RuleReader(group, p, available, seen, i, j);
        assert InTime(p, k, group.heads[i]);
        var b: nat :| b < k && group.heads[i] in Publishes(p, p.plan[b]);
        PublishedByRule(group, p, available, seen, i, b);
      }
    }
    if Publishable(group, seen) {
      forall k: nat, s | k < |p.plan| && s in p.plan[k].inputs
        ensures InTime(p, k, s)
      {
        if s in p.slices {
          var i, j := ReaderRule(group, p, available, seen, k, s);
          PublishedInTime(group, p, available, seen, i, k);
        }
      }
    }
  }

  /* ------------------------------------------------------------------ */
  /* What is scheduled outside                                            */
  /* ------------------------------------------------------------------ */

  ghost function AllTrees(groups: seq<Group>): set<Tree> {
    set g, t | 0 <= g < |groups| && t in AllSubtrees(groups[g].roots) :: t
  }

  ghost function Derived(groups: seq<Group>): set<Sig> {
    set g, s | 0 <= g < |groups| && s in Named(groups[g].heads) :: s
  }

  /** A relation is read only once all its rules were planned, or among them. */
  ghost predicate Complete(groups: seq<Group>) {
    forall g, h :: 0 <= g < h < |groups| ==> AllRelations(groups[g].roots) !! Named(groups[h].heads)
  }

  /** Rules grouped by what they read, and operators named by their texts. */
  ghost predicate WellFormed(groups: seq<Group>, relations: set<Sig>) {
    && Stratified(groups, relations) && Complete(groups) && Faithful(AllTrees(groups))
    && (forall t :: t in AllTrees(groups) ==> t.sig !in relations + Derived(groups) && (t.Leaf? ==> t.leafKind.Unary?))
    && (forall g :: 0 <= g < |groups| && groups[g].recursive ==> SlicesFirst(groups[g]))
  }

  /** The operator trees of the plain groups before a group. */
  ghost function OuterTrees(groups: seq<Group>, h: nat): set<Tree>
    requires h <= |groups|
  {
    set g, t | 0 <= g < h && !groups[g].recursive && t in AllSubtrees(groups[g].roots) :: t
  }

  lemma TreesOf(groups: seq<Group>, g: nat)
    requires g < |groups|
    ensures AllSubtrees(groups[g].roots) <= AllTrees(groups)
  {
  }

  lemma OuterNext(plans: seq<GroupPlan>, n: nat)
    requires n < |plans|
    ensures OuterOutputs(plans[..n + 1]) == OuterOutputs(plans[..n]) + if plans[n].recursive then {} else Outputs(plans[n].plan)
  {
    assert plans[..n + 1][..n] == plans[..n];
  }

  lemma {:induction false} OuterGrows(plans: seq<GroupPlan>, m: nat, n: nat)
    requires m <= n <= |plans|
    ensures OuterOutputs(plans[..m]) <= OuterOutputs(plans[..n])
    decreases n
  {
    if m < n {
      OuterGrows(plans, m, n - 1);
      OuterNext(plans, n - 1);
    }
  }

  lemma PlannedAt(groups: seq<Group>, plans: seq<GroupPlan>, relations: set<Sig>, g: nat)
    requires AllPlanned(groups, plans, relations) && g < |groups|
    ensures |plans| == |groups| && Planned(groups[g], plans[g], AvailableTo(relations, plans[..g]))
  {
  }

  /** What an operator tree computes is available only as a plain group's output. */
  lemma {:induction false} SigAvailable(groups: seq<Group>, plans: seq<GroupPlan>, relations: set<Sig>, n: nat, s: Sig)
    requires AllPlanned(groups, plans, relations) && n <= |plans| && s !in relations + Derived(groups)
    requires s in AvailableTo(relations, plans[..n])
    ensures s in OuterOutputs(plans[..n])
  {
    if n > 0 {
      AvailableNext(relations, plans, n - 1);
      OuterNext(plans, n - 1);
      PlannedAt(groups, plans, relations, n - 1);
      assert s !in Named(groups[n - 1].heads);
      if s in AvailableTo(relations, plans[..n - 1]) {
        SigAvailable(groups, plans, relations, n - 1, s);
      }
    }
  }

  /** A plain group that computes a collection. */
  lemma {:induction false} OuterFrom(plans: seq<GroupPlan>, n: nat, s: Sig) returns (g: nat, k: nat)
    requires n <= |plans| && s in OuterOutputs(plans[..n])
    ensures g < n && !plans[g].recursive && k < |plans[g].plan| && plans[g].plan[k].sig == s
  {
    OuterNext(plans, n - 1);
    if s in OuterOutputs(plans[..n - 1]) {
      g, k := OuterFrom(plans, n - 1, s);
    } else {
      g := n - 1;
      k :| 0 <= k < |plans[g].plan| && plans[g].plan[k].sig == s;
    }
  }

  /** The operator of a tree, in the plan of a plain group. */
  lemma OuterOp(groups: seq<Group>, plans: seq<GroupPlan>, relations: set<Sig>, n: nat, t: Tree)
    returns (g: nat, k: nat)
    requires WellFormed(groups, relations) && AllPlanned(groups, plans, relations) && n <= |plans|
    requires t in AllTrees(groups)
    requires t.sig in OuterOutputs(plans[..n])
    ensures g < n && !groups[g].recursive && k < |plans[g].plan| && plans[g].plan[k] == OpOf(t)
    ensures t in AllSubtrees(groups[g].roots)
  {
    g, k := OuterFrom(plans, n, t.sig);
    PlannedAt(groups, plans, relations, g);
    var u := OpTree(groups[g], plans[g], AvailableTo(relations, plans[..g]), k);
    TreesOf(groups, g);
  }

  /** With a tree, its subtrees are computed outside. */
  lemma {:induction false} OuterBelow(groups: seq<Group>, plans: seq<GroupPlan>, relations: set<Sig>, n: nat, t: Tree,
                                      u: Tree)
    requires WellFormed(groups, relations) && AllPlanned(groups, plans, relations) && n <= |plans|
    requires t in AllTrees(groups)
    requires t.sig in OuterOutputs(plans[..n]) && u in Subtrees(t)
    ensures u.sig in OuterOutputs(plans[..n])
    decreases t
  {
    if u != t {
      var i :| 0 <= i < |t.children| && u in Subtrees(t.children[i]);
      OuterChild(groups, plans, relations, n, t, i);
      OuterBelow(groups, plans, relations, n, t.children[i], u);
    }
  }

  lemma OuterChild(groups: seq<Group>, plans: seq<GroupPlan>, relations: set<Sig>, n: nat, t: Tree, i: nat)
    requires WellFormed(groups, relations) && AllPlanned(groups, plans, relations) && n <= |plans|
    requires t in AllTrees(groups)
    requires t.sig in OuterOutputs(plans[..n]) && t.Node? && i < |t.children|
    ensures t.children[i] in AllTrees(groups) && t.children[i].sig in OuterOutputs(plans[..n])
  {
    var g, k := OuterOp(groups, plans, relations, n, t);
    var child := t.children[i];
    ChildInside(groups[g].roots, t, i);
    TreesOf(groups, g);
    PlannedAt(groups, plans, relations, g);
    assert plans[g].plan[k].inputs[i] == child.sig;
    WholeOutputs(plans[g].plan, k, AvailableTo(relations, plans[..g]), child.sig);
    OuterThere(groups, plans, relations, g, n, child.sig);
  }

  lemma OuterThere(groups: seq<Group>, plans: seq<GroupPlan>, relations: set<Sig>, g: nat, n: nat, s: Sig)
    requires AllPlanned(groups, plans, relations) && g < n <= |plans| && !plans[g].recursive
    requires s !in relations + Derived(groups)
    requires s in AvailableTo(relations, plans[..g]) + Outputs(plans[g].plan)
    ensures s in OuterOutputs(plans[..n])
  {
    OuterNext(plans, g);
    OuterGrows(plans, g + 1, n);
    if s in AvailableTo(relations, plans[..g]) {
      SigAvailable(groups, plans, relations, g, s);
    }
  }

  /** Of a program's trees, exactly those of the plain groups before are computed outside a recursive group. */
  lemma OutsideIs(groups: seq<Group>, plans: seq<GroupPlan>, relations: set<Sig>, n: nat, t: Tree)
    requires WellFormed(groups, relations) && AllPlanned(groups, plans, relations) && n <= |plans|
    requires t in AllTrees(groups)
    ensures t.sig in OuterOutputs(plans[..n]) <==> t in OuterTrees(groups, n)
  {
    if t.sig in OuterOutputs(plans[..n]) {
      var g, k := OuterOp(groups, plans, relations, n, t);
    }
    if t in OuterTrees(groups, n) {
      var g: nat :| g < n && !groups[g].recursive && t in AllSubtrees(groups[g].roots);
      var i :| 0 <= i < |groups[g].roots| && t in Subtrees(groups[g].roots[i]);
      RootOuter(groups, plans, relations, g, n, i);
      OuterBelow(groups, plans, relations, n, groups[g].roots[i], t);
    }
  }

  lemma RootOuter(groups: seq<Group>, plans: seq<GroupPlan>, relations: set<Sig>, g: nat, n: nat, i: nat)
    requires WellFormed(groups, relations) && AllPlanned(groups, plans, relations) && g < n <= |plans|
    requires !groups[g].recursive
    requires i < |groups[g].roots|
    ensures groups[g].roots[i] in AllTrees(groups) && groups[g].roots[i].sig in OuterOutputs(plans[..n])
  {
    InSubtrees(groups[g].roots, i, groups[g].roots[i]);
    TreesOf(groups, g);
    PlannedAt(groups, plans, relations, g);
    assert plans[g].roots[i] == groups[g].roots[i].sig;
    OuterThere(groups, plans, relations, g, n, groups[g].roots[i].sig);
  }

  /* ------------------------------------------------------------------ */
  /* The program                                                          */
  /* ------------------------------------------------------------------ */

  /** The root of a slice read in a recursive group is a join to rows and, with sharing, no operator of an earlier plain
      group. */
  ghost predicate RootPublished(groups: seq<Group>, h: nat, root: Tree, sharing: bool)
    requires h <= |groups|
  {
    OpOf(root).kind.JoinToRow? && (sharing ==> root !in OuterTrees(groups, h))
  }

  ghost predicate GroupPublishable(groups: seq<Group>, h: nat, sharing: bool)
    requires h < |groups| && |groups[h].heads| == |groups[h].roots|
  {
    forall i, j :: 0 <= i < |groups[h].roots| && 0 <= j < |groups[h].roots| && ReadsSlice(groups[h], i, j) ==>
      RootPublished(groups, h, groups[h].roots[i], sharing)
  }

  ghost predicate ProgramPublishable(groups: seq<Group>, sharing: bool)
    requires forall g :: 0 <= g < |groups| ==> |groups[g].heads| == |groups[g].roots|
  {
    forall h :: 0 <= h < |groups| && groups[h].recursive ==> GroupPublishable(groups, h, sharing)
  }

  /** A slice that is read makes the program fail if its rows are not a join's, or are shared with an earlier plain
      group. */
  lemma UnpublishedSlice(groups: seq<Group>, h: nat, i: nat, j: nat, sharing: bool)
    requires h < |groups| && groups[h].recursive
    requires forall g :: 0 <= g < |groups| ==> |groups[g].heads| == |groups[g].roots|
    requires i < |groups[h].roots| && j < |groups[h].roots| && ReadsSlice(groups[h], i, j)
    requires !OpOf(groups[h].roots[i]).kind.JoinToRow? || (sharing && groups[h].roots[i] in OuterTrees(groups, h))
    ensures !ProgramPublishable(groups, sharing)
  {
    assert !RootPublished(groups, h, groups[h].roots[i], sharing);
    assert !GroupPublishable(groups, h, sharing);
  }

  lemma ReadsKnown(groups: seq<Group>, relations: set<Sig>, g: nat)
    requires Stratified(groups, relations) && g < |groups|
    ensures AllRelations(groups[g].roots) <= relations + Derived(groups)
  {
    HeadsKnown(groups, g);
  }

  lemma {:induction false} HeadsKnown(groups: seq<Group>, n: nat)
    requires n <= |groups|
    ensures HeadsOf(groups[..n]) <= Derived(groups)
  {
    if n > 0 {
      HeadsKnown(groups, n - 1);
      HeadsNext(groups, n - 1);
    }
  }

  lemma GroupNamed(groups: seq<Group>, relations: set<Sig>, g: nat)
    requires WellFormed(groups, relations) && g < |groups|
    ensures WellNamed(groups[g]) && Faithful(AllSubtrees(groups[g].roots))
  {
    TreesOf(groups, g);
    ReadsKnown(groups, relations, g);
    assert GroupOk(groups[g], relations + HeadsOf(groups[..g]));
    assert Named(groups[g].heads) <= Derived(groups);
  }

  /** What is computed outside reads nothing the group derives. */
  lemma OutsideFresh(groups: seq<Group>, plans: seq<GroupPlan>, relations: set<Sig>, h: nat, t: Tree)
    requires WellFormed(groups, relations) && AllPlanned(groups, plans, relations) && h < |groups|
    requires t in AllTrees(groups)
    requires t.sig in OuterOutputs(plans[..h])
    ensures Relations(t) !! Named(groups[h].heads)
  {
    var g, k := OuterOp(groups, plans, relations, h, t);
    var i :| 0 <= i < |groups[g].roots| && t in Subtrees(groups[g].roots[i]);
    SubtreeReads(groups[g].roots[i], t);
    assert Relations(t) <= AllRelations(groups[g].roots);
  }

  lemma GroupNested(groups: seq<Group>, plans: seq<GroupPlan>, relations: set<Sig>, sharing: bool, h: nat)
    requires WellFormed(groups, relations) && AllPlanned(groups, plans, relations) && AllScoped(groups, plans, sharing)
    requires h < |groups| && groups[h].recursive
    ensures Nested(groups[h], plans[h], AvailableTo(relations, plans[..h]), Outside(sharing, plans[..h]))
  {
    GroupNamed(groups, relations, h);
    PlannedAt(groups, plans, relations, h);
    ScopedAt(groups, plans, sharing, h);
    TreesOf(groups, h);
    forall t | t in AllSubtrees(groups[h].roots) && t.sig in Outside(sharing, plans[..h])
      ensures Relations(t) !! Named(groups[h].heads)
    {
      OutsideFresh(groups, plans, relations, h, t);
    }
  }

  lemma GroupExact(groups: seq<Group>, plans: seq<GroupPlan>, relations: set<Sig>, sharing: bool, h: nat)
    requires WellFormed(groups, relations) && AllPlanned(groups, plans, relations) && AllScoped(groups, plans, sharing)
    requires h < |groups| && groups[h].recursive
    ensures |groups[h].heads| == |groups[h].roots| == |plans[h].heads| == |plans[h].roots|
    ensures SlicesPublished(plans[h]) <==> GroupPublishable(groups, h, sharing)
  {
    GroupNested(groups, plans, relations, sharing, h);
    SlicesExact(groups[h], plans[h], AvailableTo(relations, plans[..h]), Outside(sharing, plans[..h]));
    forall i: nat | i < |groups[h].roots|
      ensures Published(groups[h].roots[i], Outside(sharing, plans[..h])) <==>
        RootPublished(groups, h, groups[h].roots[i], sharing)
    {
      InSubtrees(groups[h].roots, i, groups[h].roots[i]);
      TreesOf(groups, h);
      OutsideIs(groups, plans, relations, h, groups[h].roots[i]);
    }
  }

  /** The planned program's slices are published in time if and only if the program's rules say so. */
  lemma ProgramExact(groups: seq<Group>, plans: seq<GroupPlan>, relations: set<Sig>, sharing: bool)
    requires WellFormed(groups, relations) && AllPlanned(groups, plans, relations) && AllScoped(groups, plans, sharing)
    ensures forall g :: 0 <= g < |groups| ==> |groups[g].heads| == |groups[g].roots|
    ensures AllPublished(plans, |plans|) <==> ProgramPublishable(groups, sharing)
  {
    forall g | 0 <= g < |groups|
      ensures |groups[g].heads| == |groups[g].roots| && plans[g].recursive == groups[g].recursive
    {
      GroupNamed(groups, relations, g);
      PlannedAt(groups, plans, relations, g);
    }
    forall h | 0 <= h < |groups| && groups[h].recursive
      ensures |plans[h].heads| == |plans[h].roots|
      ensures (SlicesPublished(plans[h]) <==> GroupPublishable(groups, h, sharing))
    {
      GroupExact(groups, plans, relations, sharing, h);
    }
  }

  /** Plans and assembles a program. It goes through, and then builds every relation the program derives, if and only if
      in every recursive group every slice that is read comes from a rule whose root is a join to rows and, with
      sharing, is no operator of an earlier plain group. */
  method BuildProgram(groups: seq<Group>, sharing: bool, fusable: Op -> bool, relations: set<Sig>)
    returns (r: Option<set<Sig>>)
    requires WellFormed(groups, relations)
    ensures forall g :: 0 <= g < |groups| ==> |groups[g].heads| == |groups[g].roots|
    ensures r.Some? <==> ProgramPublishable(groups, sharing)
    ensures r.Some? ==> HeadsOf(groups) <= r.value
  {
    var plans := PlanProgram(groups, sharing, relations);
    ProgramExact(groups, plans, relations, sharing);
    forall g | 0 <= g < |groups|
      ensures WellNamed(groups[g])
    {
      GroupNamed(groups, relations, g);
    }
    r := Assemble(groups, plans, fusable, relations);
  }
}

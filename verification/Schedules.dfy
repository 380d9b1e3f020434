/** The shared schedule: one plan for all rules, each collection computed once, and joins fused with their only
    reader. */
module Schedules {

  /** A collection's signature: a relation's name, or the text of the operator tree that computes it. */
  type Sig = string

  datatype Kind = Unary | JoinToRow | OtherBinary | Compute

  /** One operator: what it computes, and the collections it reads. */
  datatype Op = Op(sig: Sig, inputs: seq<Sig>, kind: Kind)

  /** An operator tree. A leaf reads a relation; any other operator reads its children. */
  datatype Tree = Leaf(sig: Sig, relation: Sig, leafKind: Kind) | Node(sig: Sig, children: seq<Tree>, nodeKind: Kind)

  function OpOf(t: Tree): Op {
    match t
    case Leaf(sig, relation, kind) => Op(sig, [relation], kind)
    case Node(sig, children, kind) => Op(sig, Signatures(children), kind)
  }

  function Signatures(ts: seq<Tree>): (r: seq<Sig>)
    ensures |r| == |ts| && forall i :: 0 <= i < |r| ==> r[i] == ts[i].sig
  {
    seq(|ts|, i requires 0 <= i < |ts| => ts[i].sig)
  }

  function Outputs(plan: seq<Op>): (r: set<Sig>)
    ensures forall k :: 0 <= k < |plan| ==> plan[k].sig in r
  {
    set k | 0 <= k < |plan| :: plan[k].sig
  }

  lemma OutputsConcat(a: seq<Op>, b: seq<Op>)
    ensures Outputs(a + b) == Outputs(a) + Outputs(b)
  {
    assert forall k :: 0 <= k < |a| ==> (a + b)[k] == a[k];
    assert forall k :: 0 <= k < |b| ==> (a + b)[|a| + k] == b[k];
    forall s | s in Outputs(a + b)
      ensures s in Outputs(a) + Outputs(b)
    {
      var k :| 0 <= k < |a + b| && (a + b)[k].sig == s;
      assert (a + b)[k] == if k < |a| then a[k] else b[k - |a|];
    }
    forall s | s in Outputs(a) + Outputs(b)
      ensures s in Outputs(a + b)
    {
      if s in Outputs(a) {
        var k :| 0 <= k < |a| && a[k].sig == s;
      } else {
        var k :| 0 <= k < |b| && b[k].sig == s;
      }
    }
  }

  /* ------------------------------------------------------------------ */
  /* Plans that can run                                                   */
  /* ------------------------------------------------------------------ */

  ghost predicate Readable(op: Op, available: set<Sig>) {
    forall i :: 0 <= i < |op.inputs| ==> op.inputs[i] in available
  }

  /** Every operator's inputs are there before it, from the start or computed by an earlier operator. */
  ghost predicate Runs(plan: seq<Op>, available: set<Sig>)
  {
    plan != [] ==> Runs(plan[..|plan| - 1], available) && Readable(plan[|plan| - 1], available + Outputs(plan[..|plan| - 1]))
  }

  lemma {:induction false} RunsConcat(a: seq<Op>, b: seq<Op>, available: set<Sig>)
    requires Runs(a, available) && Runs(b, available + Outputs(a))
    ensures Runs(a + b, available)
  {
    if b == [] {
      assert a + b == a;
    } else {
      var front, last := b[..|b| - 1], b[|b| - 1];
      RunsConcat(a, front, available);
      assert (a + b)[..|a + b| - 1] == a + front && (a + b)[|a + b| - 1] == last;
      OutputsConcat(a, front);
      assert available + Outputs(a + front) == available + Outputs(a) + Outputs(front);
    }
  }

  lemma {:induction false} RunsWiden(plan: seq<Op>, available: set<Sig>, more: set<Sig>)
    requires Runs(plan, available) && available <= more
    ensures Runs(plan, more)
  {
    if plan != [] {
      RunsWiden(plan[..|plan| - 1], available, more);
    }
  }

  lemma RunsOne(op: Op, available: set<Sig>)
    requires Readable(op, available)
    ensures Runs([op], available) && Outputs([op]) == {op.sig}
  {
    assert [op][..0] == [];
    assert Outputs([op]) == {op.sig} by {
      assert [op][0].sig in Outputs([op]);
    }
  }

  /** Relations at the leaves. */
  ghost function Relations(t: Tree): set<Sig>
    decreases t
  {
    match t
    case Leaf(_, relation, _) => {relation}
    case Node(_, children, _) => set i, r | 0 <= i < |children| && r in Relations(children[i]) :: r
  }

  ghost function Subtrees(t: Tree): (ts: set<Tree>)
    ensures t in ts
    decreases t
  {
    {t} + if t.Leaf? then {} else set i, u | 0 <= i < |t.children| && u in Subtrees(t.children[i]) :: u
  }

  ghost function Sigs(t: Tree): set<Sig> {
    set u | u in Subtrees(t) :: u.sig
  }

  /** Equal signatures denote equal subtrees. */
  ghost predicate Faithful(ts: set<Tree>) {
    forall t, u :: t in ts && u in ts && t.sig == u.sig ==> t == u
  }

  ghost function Size(t: Tree): nat
    decreases t
  {
    if t.Leaf? then 1 else 1 + SizeAll(t.children)
  }

  ghost function SizeAll(ts: seq<Tree>): nat
    decreases ts
  {
    if ts == [] then 0 else Size(ts[0]) + SizeAll(ts[1..])
  }

  lemma {:induction false} SizeChild(ts: seq<Tree>, i: nat)
    requires i < |ts|
    ensures Size(ts[i]) <= SizeAll(ts)
  {
    if i > 0 {
      SizeChild(ts[1..], i - 1);
    }
  }

  lemma {:induction false} SubtreeSmaller(t: Tree, u: Tree)
    requires u in Subtrees(t)
    ensures Size(u) <= Size(t)
    decreases t
  {
    if u != t {
      var i :| 0 <= i < |t.children| && u in Subtrees(t.children[i]);
      SubtreeSmaller(t.children[i], u);
      SizeChild(t.children, i);
    }
  }

  /** No subtree below a node has the node's signature. */
  lemma SignatureOnPath(root: Tree, k: nat)
    requires root.Node? && k < |root.children| && Faithful(Subtrees(root))
    ensures root.sig !in Sigs(root.children[k]) && Faithful(Subtrees(root.children[k]))
    ensures Sigs(root.children[k]) <= Sigs(root)
    ensures Relations(root.children[k]) <= Relations(root) && Subtrees(root.children[k]) <= Subtrees(root)
  {
    var child := root.children[k];
    assert forall u :: u in Subtrees(child) ==> u in Subtrees(root);
    if root.sig in Sigs(child) {
      var u :| u in Subtrees(child) && u.sig == root.sig;
      SubtreeSmaller(child, u);
      SizeChild(root.children, k);
      assert false;
    }
  }

  /** No operator is scheduled twice. */
  ghost predicate Once(plan: seq<Op>) {
    forall i, j :: 0 <= i < j < |plan| ==> plan[i].sig != plan[j].sig
  }

  lemma OnceConcat(a: seq<Op>, b: seq<Op>)
    requires Once(a) && Once(b) && Outputs(a) !! Outputs(b)
    ensures Once(a + b)
  {
    forall i, j | 0 <= i < j < |a + b|
      ensures (a + b)[i].sig != (a + b)[j].sig
    {
      if i < |a| && j >= |a| {
        assert a[i].sig in Outputs(a) && b[j - |a|].sig in Outputs(b);
      }
    }
  }

  /** Every operator is the root of one of the trees. */
  ghost predicate OpsOf(plan: seq<Op>, ts: set<Tree>) {
    forall k :: 0 <= k < |plan| ==> IsOpOf(plan[k], ts)
  }

  ghost predicate IsOpOf(op: Op, ts: set<Tree>) {
    exists t :: t in ts && op == OpOf(t)
  }

  lemma OpsOfConcat(a: seq<Op>, b: seq<Op>, ts: set<Tree>, us: set<Tree>)
    requires OpsOf(a, ts) && OpsOf(b, us) && us <= ts
    ensures OpsOf(a + b, ts)
  {
    forall k | 0 <= k < |a + b|
      ensures IsOpOf((a + b)[k], ts)
    {
      if k < |a| {
        assert (a + b)[k] == a[k];
      } else {
        assert (a + b)[k] == b[k - |a|] && IsOpOf(b[k - |a|], us);
      }
    }
  }

  /** How scheduling a plan marks signatures: with sharing, exactly its outputs, new and once each; without, none. */
  ghost predicate Marks(plan: seq<Op>, sharing: bool, before: set<Sig>, after: set<Sig>) {
    if sharing then after == before + Outputs(plan) && Outputs(plan) !! before && Once(plan) else after == before
  }

  /** Two plans one after the other. */
  lemma PlansConcat(a: seq<Op>, b: seq<Op>, available: set<Sig>, sharing: bool, s0: set<Sig>, s1: set<Sig>,
                    s2: set<Sig>)
    requires Runs(a, available) && Runs(b, available + Outputs(a)) && Marks(a, sharing, s0, s1)
    requires Marks(b, sharing, s1, s2)
    ensures Runs(a + b, available) && Outputs(a + b) == Outputs(a) + Outputs(b) && Marks(a + b, sharing, s0, s2)
  {
    RunsConcat(a, b, available);
    OutputsConcat(a, b);
    if sharing {
      OnceConcat(a, b);
    }
  }

  /** The operators below an operator, and then it: its own signature was marked first. */
  lemma PlanRoot(plan: seq<Op>, op: Op, available: set<Sig>, sharing: bool, before: set<Sig>, marked: set<Sig>,
                 after: set<Sig>)
    requires Runs(plan, available) && Readable(op, available + Outputs(plan)) && op.sig !in Outputs(plan)
    requires Marks(plan, sharing, marked, after)
    requires if sharing then op.sig !in before && marked == before + {op.sig} else marked == before
    ensures Runs(plan + [op], available) && Outputs(plan + [op]) == Outputs(plan) + {op.sig}
    ensures Marks(plan + [op], sharing, before, after)
  {
    RunsOne(op, available + Outputs(plan));
    RunsConcat(plan, [op], available);
    OutputsConcat(plan, [op]);
    if sharing {
      OnceConcat(plan, [op]);
    }
  }

  /** A tree's plan: it can run, it leaves the root's collection available, it marks what it computes, and its operators
      are the tree's. */
  ghost predicate Scheduled(root: Tree, plan: seq<Op>, available: set<Sig>, sharing: bool, before: set<Sig>,
                            after: set<Sig>)
  {
    && Runs(plan, available) && root.sig in available + Outputs(plan) && Marks(plan, sharing, before, after)
    && Outputs(plan) <= Sigs(root) && OpsOf(plan, Subtrees(root))
  }

  /** The plan of a node's first `k` children. */
  ghost predicate ChildrenScheduled(root: Tree, k: nat, plan: seq<Op>, available: set<Sig>, sharing: bool,
                                    before: set<Sig>, after: set<Sig>)
    requires root.Node? && k <= |root.children|
  {
    && Runs(plan, available) && (forall i :: 0 <= i < k ==> root.children[i].sig in available + Outputs(plan))
    && Marks(plan, sharing, before, after)
    && Outputs(plan) <= Sigs(root) - {root.sig} && OpsOf(plan, Subtrees(root))
  }

  lemma NextScheduled(root: Tree, k: nat, plan: seq<Op>, child: seq<Op>, available: set<Sig>, sharing: bool,
                      before: set<Sig>, middle: set<Sig>, after: set<Sig>)
    requires root.Node? && k < |root.children| && Faithful(Subtrees(root))
    requires ChildrenScheduled(root, k, plan, available, sharing, before, middle)
    requires Scheduled(root.children[k], child, available + Outputs(plan), sharing, middle, after)
    ensures ChildrenScheduled(root, k + 1, plan + child, available, sharing, before, after)
  {
    SignatureOnPath(root, k);
    PlansConcat(plan, child, available, sharing, before, middle, after);
    OpsOfConcat(plan, child, Subtrees(root), Subtrees(root.children[k]));
  }

  lemma ChildrenWiden(root: Tree, k: nat, plan: seq<Op>, available: set<Sig>, more: set<Sig>, sharing: bool,
                      before: set<Sig>, after: set<Sig>)
    requires root.Node? && k <= |root.children| && available <= more
    requires ChildrenScheduled(root, k, plan, available, sharing, before, after)
    ensures ChildrenScheduled(root, k, plan, more, sharing, before, after)
  {
    RunsWiden(plan, available, more);
  }

  lemma Widen(root: Tree, plan: seq<Op>, available: set<Sig>, more: set<Sig>, sharing: bool, before: set<Sig>,
              after: set<Sig>)
    requires available <= more && Scheduled(root, plan, available, sharing, before, after)
    ensures Scheduled(root, plan, more, sharing, before, after)
  {
    RunsWiden(plan, available, more);
  }

  /** Signatures marked before a tree is planned: its root's, with sharing. */
  ghost predicate RootMarked(root: Tree, sharing: bool, before: set<Sig>, marked: set<Sig>) {
    if sharing then root.sig !in before && marked == before + {root.sig} else marked == before
  }

  lemma RootScheduled(root: Tree, plan: seq<Op>, available: set<Sig>, sharing: bool, before: set<Sig>, marked: set<Sig>,
                      after: set<Sig>)
    requires RootMarked(root, sharing, before, marked)
    requires match root
      case Leaf(_, relation, _) => plan == [] && after == marked && relation in available
      case Node(_, children, _) => ChildrenScheduled(root, |children|, plan, available, sharing, marked, after)
    ensures Scheduled(root, plan + [OpOf(root)], available, sharing, before, after)
  {
    assert root.sig in Sigs(root) && IsOpOf(OpOf(root), Subtrees(root));
    PlanRoot(plan, OpOf(root), available, sharing, before, marked, after);
    assert OpsOf([OpOf(root)], Subtrees(root));
    OpsOfConcat(plan, [OpOf(root)], Subtrees(root), Subtrees(root));
  }

  /** What a recursive group may take from outside: with sharing, what is scheduled there. */
  function Shared(sharing: bool, seen: set<Sig>): set<Sig> {
    if sharing then seen else {}
  }

  /** A scope takes in relations and what is scheduled outside, and schedules none of the latter again. */
  ghost predicate Enters(plan: seq<Op>, enterScope: set<Sig>, seen: set<Sig>, relations: set<Sig>) {
    enterScope <= seen + relations && Outputs(plan) !! seen
  }

  /* ------------------------------------------------------------------ */
  /* The scheduler                                                        */
  /* ------------------------------------------------------------------ */

  /** What is scheduled already: outside any scope, and inside the recursive group being planned. */
  class Scheduler {
    var seen: set<Sig>
    var nestedSeen: set<Sig>

    constructor ()
      ensures seen == {} && nestedSeen == {}
    {
      seen, nestedSeen := {}, {};
    }

    /** Schedules a tree outside any scope; with sharing, only what is not scheduled yet. `pending` are the signatures
        marked by the trees around this one, which are computed later. */
    method ConstructNonRecursive(root: Tree, sharing: bool, ghost available: set<Sig>, ghost pending: set<Sig>)
      returns (plan: seq<Op>)
      requires Faithful(Subtrees(root)) && Sigs(root) !! pending && Relations(root) <= available
      requires seen <= available + pending
      modifies this`seen
      ensures Scheduled(root, plan, available, sharing, old(seen), seen)
      decreases root, 1
    {
      assert root.sig in Sigs(root);
      if sharing && root.sig in seen {
        return [];
      }
      if sharing {
        seen := seen + {root.sig};
      }
      plan := [];
      ghost var marked := seen;
      if root.Node? {
        plan := ConstructChildren(root, sharing, available, pending);
      }
      RootScheduled(root, plan, available, sharing, old(seen), marked, seen);
      plan := plan + [OpOf(root)];
    }

    method ConstructChildren(root: Tree, sharing: bool, ghost available: set<Sig>, ghost pending: set<Sig>)
      returns (plan: seq<Op>)
      requires root.Node? && Faithful(Subtrees(root)) && Sigs(root) !! pending && Relations(root) <= available
      requires seen <= available + pending + {root.sig} && (sharing ==> root.sig in seen)
      modifies this`seen
      ensures ChildrenScheduled(root, |root.children|, plan, available, sharing, old(seen), seen)
      decreases root, 0
    {
      plan := [];
      for k := 0 to |root.children|
        invariant ChildrenScheduled(root, k, plan, available, sharing, old(seen), seen)
      {
        SignatureOnPath(root, k);
        MarksKnown(root, plan, available, pending, sharing, old(seen), seen);
        ghost var middle := seen;
        var child := ConstructNonRecursive(root.children[k], sharing, available + Outputs(plan), pending + {root.sig});
        NextScheduled(root, k, plan, child, available, sharing, old(seen), middle, seen);
        plan := plan + child;
      }
    }

    /** Schedules a tree inside a recursive group: what is scheduled outside is brought into the scope, and so is every
        relation a leaf reads. */
    method ConstructRecursive(root: Tree, sharing: bool, ghost available: set<Sig>, ghost pending: set<Sig>)
      returns (plan: seq<Op>, enterScope: set<Sig>)
      requires Faithful(Subtrees(root)) && Sigs(root) !! pending && nestedSeen <= available + pending
      modifies this`nestedSeen
      ensures Scheduled(root, plan, available + enterScope, sharing, old(nestedSeen), nestedSeen)
      ensures Enters(plan, enterScope, Shared(sharing, seen), Relations(root))
      decreases root, 1
    {
      assert root.sig in Sigs(root);
      if sharing && root.sig in seen {
        return [], {root.sig};
      }
      if sharing && root.sig in nestedSeen {
        return [], {};
      }
      if sharing {
        nestedSeen := nestedSeen + {root.sig};
      }
      ghost var marked := nestedSeen;
      plan, enterScope := [], {};
      match root {
        case Leaf(_, relation, _) => enterScope := {relation};
        case Node(_, _, _) => plan, enterScope := ConstructRecursiveChildren(root, sharing, available, pending);
      }
      RootScheduled(root, plan, available + enterScope, sharing, old(nestedSeen), marked, nestedSeen);
      RunsOne(OpOf(root), available + enterScope + Outputs(plan));
      OutputsConcat(plan, [OpOf(root)]);
      plan := plan + [OpOf(root)];
    }

    method ConstructRecursiveChildren(root: Tree, sharing: bool, ghost available: set<Sig>, ghost pending: set<Sig>)
      returns (plan: seq<Op>, enterScope: set<Sig>)
      requires root.Node? && Faithful(Subtrees(root)) && Sigs(root) !! pending
      requires nestedSeen <= available + pending + {root.sig} && (sharing ==> root.sig in nestedSeen)
      modifies this`nestedSeen
      ensures ChildrenScheduled(root, |root.children|, plan, available + enterScope, sharing, old(nestedSeen), nestedSeen)
      ensures Enters(plan, enterScope, Shared(sharing, seen), Relations(root))
      decreases root, 0
    {
      plan, enterScope := [], {};
      for k := 0 to |root.children|
        invariant ChildrenScheduled(root, k, plan, available + enterScope, sharing, old(nestedSeen), nestedSeen)
        invariant Enters(plan, enterScope, Shared(sharing, seen), Relations(root))
      {
        SignatureOnPath(root, k);
        MarksKnown(root, plan, available + enterScope, pending, sharing, old(nestedSeen), nestedSeen);
        ghost var middle := nestedSeen;
        var child, entered := ConstructRecursive(root.children[k], sharing, available + enterScope + Outputs(plan), pending + {root.sig});
        NextInScope(root, k, plan, child, available, enterScope, entered, sharing, old(nestedSeen), middle, nestedSeen);
        OutputsConcat(plan, child);
        plan, enterScope := plan + child, enterScope + entered;
      }
    }
  }

  /** What is marked while a node's children are planned is available, or computed around them. */
  lemma MarksKnown(root: Tree, plan: seq<Op>, available: set<Sig>, pending: set<Sig>, sharing: bool, before: set<Sig>,
                   after: set<Sig>)
    requires Marks(plan, sharing, before, after) && before <= available + pending + {root.sig}
    ensures after <= available + Outputs(plan) + (pending + {root.sig})
  {
  }

  lemma NextInScope(root: Tree, k: nat, plan: seq<Op>, child: seq<Op>, available: set<Sig>, scope: set<Sig>,
                    entered: set<Sig>, sharing: bool,
                    before: set<Sig>, middle: set<Sig>, after: set<Sig>)
    requires root.Node? && k < |root.children| && Faithful(Subtrees(root))
    requires ChildrenScheduled(root, k, plan, available + scope, sharing, before, middle)
    requires Scheduled(root.children[k], child, available + scope + Outputs(plan) + entered, sharing, middle, after)
    ensures ChildrenScheduled(root, k + 1, plan + child, available + (scope + entered), sharing, before, after)
  {
    ChildrenWiden(root, k, plan, available + scope, available + (scope + entered), sharing, before, middle);
    Widen(root.children[k], child, available + scope + Outputs(plan) + entered,
          available + (scope + entered) + Outputs(plan), sharing, middle, after);
    NextScheduled(root, k, plan, child, available + (scope + entered), sharing, before, middle, after);
  }

  /* ------------------------------------------------------------------ */
  /* Groups                                                               */
  /* ------------------------------------------------------------------ */

  /** The relations of a list of heads. */
  function Named(heads: seq<Sig>): (r: set<Sig>)
    ensures forall k :: 0 <= k < |heads| ==> heads[k] in r
    ensures forall s :: s in r ==> exists k :: 0 <= k < |heads| && heads[k] == s
  {
    set k | 0 <= k < |heads| :: heads[k]
  }

  /** What a group leaves to those after it: all it derives - but a recursive group keeps its slices to itself. */
  function Exports(recursive: bool, heads: seq<Sig>, slices: set<Sig>): set<Sig> {
    if recursive then Named(heads) - slices else Named(heads)
  }

  /** Rules planned together: their trees and, for each, the relation it derives; and which of these relations are
      slices, made by passing a rule sideways. */
  datatype Group = Group(recursive: bool, roots: seq<Tree>, heads: seq<Sig>, slices: set<Sig>)

  ghost function AllSubtrees(roots: seq<Tree>): set<Tree> {
    set i, u | 0 <= i < |roots| && u in Subtrees(roots[i]) :: u
  }

  ghost function AllRelations(roots: seq<Tree>): set<Sig> {
    set i, r | 0 <= i < |roots| && r in Relations(roots[i]) :: r
  }

  datatype GroupPlan = GroupPlan(recursive: bool, roots: seq<Sig>, heads: seq<Sig>, slices: set<Sig>, plan: seq<Op>,
                                 enterScope: set<Sig>)

  /** What a group may read: what was there before it and, within a scope, whatever it derives itself. */
  ghost function InReach(group: Group, available: set<Sig>): set<Sig> {
    available + if group.recursive then Named(group.heads) else {}
  }

  ghost predicate GroupOk(group: Group, available: set<Sig>) {
    && |group.heads| == |group.roots| && group.slices <= Named(group.heads)
    && forall k :: 0 <= k < |group.roots| ==> Faithful(Subtrees(group.roots[k])) && Relations(group.roots[k]) <= InReach(group, available)
  }

  /** Operator texts are not relation names, and only leaves, which are unary, read relations. */
  ghost predicate Apart(group: Group) {
    forall t :: t in AllSubtrees(group.roots) ==> t.sig !in Named(group.heads) + AllRelations(group.roots) && (t.Leaf? ==> t.leafKind.Unary?)
  }

  /** Rule `j` reads the slice rule `i` derives. */
  ghost predicate ReadsSlice(group: Group, i: nat, j: nat)
    requires i < |group.roots| == |group.heads| && j < |group.roots|
  {
    group.heads[i] in group.slices && group.heads[i] in Relations(group.roots[j])
  }

  /** A slice is read only by rules after the one that derives it, and no two rules derive the same slice. */
  ghost predicate SlicesFirst(group: Group)
    requires |group.heads| == |group.roots|
  {
    && (forall i, j :: 0 <= i < |group.roots| && 0 <= j < |group.roots| && ReadsSlice(group, i, j) ==> i < j)
    && (forall i, j :: 0 <= i < j < |group.roots| && group.heads[i] in group.slices ==> group.heads[i] != group.heads[j])
  }

  /** A rule's root is taken from outside, or scheduled before anything that reads the slice the rule derives. */
  ghost predicate ReadsAfter(plan: seq<Op>, roots: seq<Sig>, heads: seq<Sig>, slices: set<Sig>, seen: set<Sig>)
    requires |heads| == |roots|
  {
    forall a: nat, i: nat :: a < |plan| && i < |roots| && heads[i] in slices && heads[i] in plan[a].inputs ==>
      roots[i] in seen || ScheduledBefore(plan, roots[i], a)
  }

  ghost predicate ScheduledBefore(plan: seq<Op>, s: Sig, a: nat)
    requires a <= |plan|
  {
    exists b: nat :: b < a && plan[b].sig == s
  }

  /** The plan of a scope, by what was scheduled outside. */
  ghost predicate ScopePlanned(group: Group, p: GroupPlan, seen: set<Sig>) {
    && |group.heads| == |group.roots| == |p.roots| && p.heads == group.heads && p.slices == group.slices
    && Enters(p.plan, p.enterScope, seen, AllRelations(group.roots))
    && (Apart(group) && SlicesFirst(group) ==> ReadsAfter(p.plan, p.roots, p.heads, p.slices, seen))
  }

  lemma {:induction false} SubtreeReads(t: Tree, u: Tree)
    requires u in Subtrees(t)
    ensures Relations(u) <= Relations(t)
    decreases t
  {
    if u != t {
      var i :| 0 <= i < |t.children| && u in Subtrees(t.children[i]);
      SubtreeReads(t.children[i], u);
    }
  }

  lemma {:induction false} SubtreeOf(t: Tree, u: Tree, v: Tree)
    requires u in Subtrees(t) && v in Subtrees(u)
    ensures v in Subtrees(t)
    decreases t
  {
    if u != t {
      var i :| 0 <= i < |t.children| && u in Subtrees(t.children[i]);
      SubtreeOf(t.children[i], u, v);
    }
  }

  lemma ChildIsSubtree(t: Tree, i: nat)
    requires t.Node? && i < |t.children|
    ensures t.children[i] in Subtrees(t)
  {
    assert t.children[i] in Subtrees(t.children[i]);
  }

  lemma InSubtrees(roots: seq<Tree>, k: nat, t: Tree)
    requires k < |roots| && t in Subtrees(roots[k])
    ensures t in AllSubtrees(roots)
  {
  }

  /** An operator of a tree that reads a derived relation is a leaf over it. */
  lemma ReadsDerived(group: Group, k: nat, op: Op, s: Sig) returns (t: Tree)
    requires Apart(group) && k < |group.roots| && IsOpOf(op, Subtrees(group.roots[k])) && s in op.inputs
    requires s in Named(group.heads)
    ensures t in Subtrees(group.roots[k]) && op == OpOf(t) && t.Leaf? && t.relation == s
    ensures s in Relations(group.roots[k])
  {
    t :| t in Subtrees(group.roots[k]) && op == OpOf(t);
    SubtreeReads(group.roots[k], t);
    if t.Node? {
      var i :| 0 <= i < |op.inputs| && op.inputs[i] == s;
      ChildIsSubtree(t, i);
      SubtreeOf(group.roots[k], t, t.children[i]);
      InSubtrees(group.roots, k, t.children[i]);
    }
  }

  /** Scheduling one more rule keeps the order. */
  lemma ReadsAfterNext(group: Group, k: nat, plan: seq<Op>, rule: seq<Op>, enterScope: set<Sig>, seen: set<Sig>)
    requires |group.heads| == |group.roots| && Apart(group) && SlicesFirst(group) && k < |group.roots|
    requires OpsOf(rule, Subtrees(group.roots[k]))
    requires ReadsAfter(plan, Signatures(group.roots), group.heads, group.slices, seen)
    requires enterScope <= seen + AllRelations(group.roots) && group.slices <= Named(group.heads)
    requires forall i :: 0 <= i < k ==> group.roots[i].sig in enterScope + Outputs(plan)
    ensures ReadsAfter(plan + rule, Signatures(group.roots), group.heads, group.slices, seen)
  {
    var all, roots := plan + rule, Signatures(group.roots);
    forall a: nat, i: nat | a < |all| && i < |roots| && group.heads[i] in group.slices && group.heads[i] in all[a].inputs
      ensures roots[i] in seen || ScheduledBefore(all, roots[i], a)
    {
      if a < |plan| {
        assert all[a] == plan[a] && (roots[i] in seen || ScheduledBefore(plan, roots[i], a));
        if ScheduledBefore(plan, roots[i], a) {
          var b: nat :| b < a && plan[b].sig == roots[i];
          assert all[b] == plan[b];
        }
      } else {
        assert all[a] == rule[a - |plan|] && IsOpOf(rule[a - |plan|], Subtrees(group.roots[k]));
        var t := ReadsDerived(group, k, all[a], group.heads[i]);
        assert ReadsSlice(group, i, k);
        RootDone(group, i, plan, rule, enterScope, seen, a);
      }
    }
  }

  lemma RootDone(group: Group, i: nat, plan: seq<Op>, rule: seq<Op>, enterScope: set<Sig>, seen: set<Sig>, a: nat)
    requires Apart(group) && i < |group.roots| && group.roots[i].sig in enterScope + Outputs(plan)
    requires |plan| <= a < |plan + rule|
    requires enterScope <= seen + AllRelations(group.roots)
    ensures group.roots[i].sig in seen || ScheduledBefore(plan + rule, group.roots[i].sig, a)
  {
    InSubtrees(group.roots, i, group.roots[i]);
    if group.roots[i].sig in Outputs(plan) {
      var b: nat :| b < |plan| && plan[b].sig == group.roots[i].sig;
      assert (plan + rule)[b] == plan[b];
    }
  }

  /** The group's plan can run where it stands, brings only available collections and its own relations into its scope,
      is made of the rules' operators, and computes every rule's root. */
  ghost predicate Planned(group: Group, p: GroupPlan, available: set<Sig>) {
    && p.recursive == group.recursive && p.roots == Signatures(group.roots) && p.heads == group.heads
    && p.slices == group.slices
    && OpsOf(p.plan, AllSubtrees(group.roots))
    && if group.recursive then
         p.enterScope <= InReach(group, available) && Runs(p.plan, p.enterScope) && (forall k :: 0 <= k < |p.roots| ==> p.roots[k] in p.enterScope + Outputs(p.plan))
       else
         p.enterScope == {} && Runs(p.plan, available) && (forall k :: 0 <= k < |p.roots| ==> p.roots[k] in available + Outputs(p.plan))
  }

  /** Plans one group's rules in order. A recursive group shares within itself, and leaves no mark outside. */
  method PlanGroup(scheduler: Scheduler, group: Group, sharing: bool, ghost available: set<Sig>) returns (p: GroupPlan)
    requires GroupOk(group, available) && scheduler.seen <= available
    modifies scheduler
    ensures Planned(group, p, available)
    ensures group.recursive ==> ScopePlanned(group, p, Shared(sharing, old(scheduler.seen)))
    ensures scheduler.seen == old(scheduler.seen) + if group.recursive then {} else Shared(sharing, Outputs(p.plan))
  {
    if group.recursive {
      p := PlanRecursive(scheduler, group, sharing, available);
    } else {
      p := PlanPlain(scheduler, group, sharing, available);
    }
  }

  method PlanPlain(scheduler: Scheduler, group: Group, sharing: bool, ghost available: set<Sig>) returns (p: GroupPlan)
    requires GroupOk(group, available) && scheduler.seen <= available && !group.recursive
    modifies scheduler
    ensures Planned(group, p, available) && scheduler.seen == old(scheduler.seen) + Shared(sharing, Outputs(p.plan))
  {
    var plan: seq<Op> := [];
    for k := 0 to |group.roots|
      invariant PlainGrows(group, k, plan, available)
      invariant scheduler.seen == old(scheduler.seen) + Shared(sharing, Outputs(plan))
    {
      var rule := scheduler.ConstructNonRecursive(group.roots[k], sharing, available + Outputs(plan), {});
      PlainNext(group, k, plan, available, rule);
      OutputsConcat(plan, rule);
      plan := plan + rule;
    }
    p := GroupPlan(false, Signatures(group.roots), group.heads, group.slices, plan, {});
  }

  /** The plan of a plain group's first `k` rules. */
  ghost predicate PlainGrows(group: Group, k: nat, plan: seq<Op>, available: set<Sig>)
    requires k <= |group.roots|
  {
    && Runs(plan, available) && OpsOf(plan, AllSubtrees(group.roots))
    && (forall i :: 0 <= i < k ==> group.roots[i].sig in available + Outputs(plan))
  }

  lemma PlainNext(group: Group, k: nat, plan: seq<Op>, available: set<Sig>, rule: seq<Op>)
    requires k < |group.roots| && PlainGrows(group, k, plan, available) && OpsOf(rule, Subtrees(group.roots[k]))
    requires Runs(rule, available + Outputs(plan)) && group.roots[k].sig in available + Outputs(plan) + Outputs(rule)
    ensures PlainGrows(group, k + 1, plan + rule, available)
  {
    RunsConcat(plan, rule, available);
    RuleOps(group, k, plan, rule);
    RootsNext(group, k, plan, rule, available, available);
  }

  lemma RuleOps(group: Group, k: nat, plan: seq<Op>, rule: seq<Op>)
    requires k < |group.roots| && OpsOf(plan, AllSubtrees(group.roots)) && OpsOf(rule, Subtrees(group.roots[k]))
    ensures OpsOf(plan + rule, AllSubtrees(group.roots))
  {
    assert Subtrees(group.roots[k]) <= AllSubtrees(group.roots);
    OpsOfConcat(plan, rule, AllSubtrees(group.roots), Subtrees(group.roots[k]));
  }

  lemma RootsNext(group: Group, k: nat, plan: seq<Op>, rule: seq<Op>, available: set<Sig>, more: set<Sig>)
    requires k < |group.roots| && available <= more && group.roots[k].sig in more + Outputs(plan) + Outputs(rule)
    requires forall i :: 0 <= i < k ==> group.roots[i].sig in available + Outputs(plan)
    ensures forall i :: 0 <= i < k + 1 ==> group.roots[i].sig in more + Outputs(plan + rule)
  {
    OutputsConcat(plan, rule);
  }

  method PlanRecursive(scheduler: Scheduler, group: Group, sharing: bool, ghost available: set<Sig>)
    returns (p: GroupPlan)
    requires GroupOk(group, available) && scheduler.seen <= available && group.recursive
    modifies scheduler
    ensures Planned(group, p, available) && scheduler.seen == old(scheduler.seen)
    ensures ScopePlanned(group, p, Shared(sharing, scheduler.seen))
  {
    scheduler.nestedSeen := {};
    var plan: seq<Op>, enterScope: set<Sig> := [], {};
    ghost var seen := Shared(sharing, scheduler.seen);
    for k := 0 to |group.roots|
      invariant scheduler.seen == old(scheduler.seen) && scheduler.nestedSeen <= enterScope + Outputs(plan)
      invariant ScopeGrows(group, k, plan, enterScope, seen, available)
    {
      var rule, entered := scheduler.ConstructRecursive(group.roots[k], sharing, enterScope + Outputs(plan), {});
      ScopeNext(group, k, plan, enterScope, seen, available, rule, entered);
      OutputsConcat(plan, rule);
      plan, enterScope := plan + rule, enterScope + entered;
    }
    p := GroupPlan(true, Signatures(group.roots), group.heads, group.slices, plan, enterScope);
  }

  /** The plan of a scope's first `k` rules. */
  ghost predicate ScopeGrows(group: Group, k: nat, plan: seq<Op>, enterScope: set<Sig>, seen: set<Sig>,
                             available: set<Sig>)
    requires |group.heads| == |group.roots| && k <= |group.roots|
  {
    && enterScope <= InReach(group, available) && Runs(plan, enterScope) && OpsOf(plan, AllSubtrees(group.roots))
    && (forall i :: 0 <= i < k ==> group.roots[i].sig in enterScope + Outputs(plan))
    && Enters(plan, enterScope, seen, AllRelations(group.roots))
    && (Apart(group) && SlicesFirst(group) ==> ReadsAfter(plan, Signatures(group.roots), group.heads, group.slices, seen))
  }

  lemma ScopeNext(group: Group, k: nat, plan: seq<Op>, enterScope: set<Sig>, seen: set<Sig>, available: set<Sig>,
                  rule: seq<Op>, entered: set<Sig>)
    requires GroupOk(group, available) && k < |group.roots| && ScopeGrows(group, k, plan, enterScope, seen, available)
    requires seen <= available
    requires Runs(rule, enterScope + Outputs(plan) + entered)
    requires group.roots[k].sig in enterScope + Outputs(plan) + entered + Outputs(rule)
    requires OpsOf(rule, Subtrees(group.roots[k])) && Enters(rule, entered, seen, Relations(group.roots[k]))
    ensures ScopeGrows(group, k + 1, plan + rule, enterScope + entered, seen, available)
  {
    ScopeRunsNext(plan, rule, enterScope, entered);
    RuleOps(group, k, plan, rule);
    RootsNext(group, k, plan, rule, enterScope, enterScope + entered);
    EntersNext(group, k, plan, rule, enterScope, entered, seen, available);
    if Apart(group) && SlicesFirst(group) {
      ReadsAfterNext(group, k, plan, rule, enterScope, seen);
    }
  }

  lemma EntersNext(group: Group, k: nat, plan: seq<Op>, rule: seq<Op>, enterScope: set<Sig>, entered: set<Sig>,
                   seen: set<Sig>, available: set<Sig>)
    requires GroupOk(group, available) && k < |group.roots| && seen <= available
    requires enterScope <= InReach(group, available)
    requires Enters(plan, enterScope, seen, AllRelations(group.roots))
    requires Enters(rule, entered, seen, Relations(group.roots[k]))
    ensures Enters(plan + rule, enterScope + entered, seen, AllRelations(group.roots))
    ensures enterScope + entered <= InReach(group, available)
  {
    OutputsConcat(plan, rule);
    assert Relations(group.roots[k]) <= AllRelations(group.roots);
  }

  lemma ScopeRunsNext(plan: seq<Op>, rule: seq<Op>, enterScope: set<Sig>, entered: set<Sig>)
    requires Runs(plan, enterScope) && Runs(rule, enterScope + Outputs(plan) + entered)
    ensures Runs(plan + rule, enterScope + entered)
  {
    RunsWiden(plan, enterScope, enterScope + entered);
    RunsWiden(rule, enterScope + Outputs(plan) + entered, enterScope + entered + Outputs(plan));
    RunsConcat(plan, rule, enterScope + entered);
  }

  /** Every group's plan stands where its inputs are available. */
  ghost predicate AllPlanned(groups: seq<Group>, plans: seq<GroupPlan>, relations: set<Sig>) {
    |plans| == |groups| && forall g :: 0 <= g < |plans| ==> Planned(groups[g], plans[g], AvailableTo(relations, plans[..g]))
  }

  /** What is available to a group: the input relations, the relations the groups before it derived, and what the
      non-recursive ones computed. */
  ghost function AvailableTo(relations: set<Sig>, plans: seq<GroupPlan>): set<Sig> {
    if plans == [] then
      relations
    else
      var p := plans[|plans| - 1];
      AvailableTo(relations, plans[..|plans| - 1]) + Exports(p.recursive, p.heads, p.slices) + if p.recursive then {} else Outputs(p.plan)
  }

  /** A group reads input relations, what earlier groups leave and, if it is recursive, whatever it derives itself. */
  ghost predicate Stratified(groups: seq<Group>, relations: set<Sig>) {
    forall g :: 0 <= g < |groups| ==> GroupOk(groups[g], relations + HeadsOf(groups[..g]))
  }

  function ExportedBy(group: Group): set<Sig> {
    Exports(group.recursive, group.heads, group.slices)
  }

  ghost function HeadsOf(groups: seq<Group>): set<Sig> {
    if groups == [] then {} else HeadsOf(groups[..|groups| - 1]) + ExportedBy(groups[|groups| - 1])
  }

  lemma GroupOkMore(group: Group, available: set<Sig>, more: set<Sig>)
    requires GroupOk(group, available) && available <= more
    ensures GroupOk(group, more)
  {
  }

  lemma AvailableNext(relations: set<Sig>, plans: seq<GroupPlan>, n: nat)
    requires n < |plans|
    ensures AvailableTo(relations, plans[..n + 1])
      == AvailableTo(relations, plans[..n]) + Exports(plans[n].recursive, plans[n].heads, plans[n].slices) + if plans[n].recursive then {} else Outputs(plans[n].plan)
  {
    assert plans[..n + 1][..n] == plans[..n];
  }

  lemma PlannedNext(groups: seq<Group>, plans: seq<GroupPlan>, relations: set<Sig>, p: GroupPlan)
    requires |plans| < |groups| && AllPlanned(groups[..|plans|], plans, relations)
    requires Planned(groups[|plans|], p, AvailableTo(relations, plans))
    ensures AllPlanned(groups[..|plans| + 1], plans + [p], relations)
  {
    var n, more := |plans|, plans + [p];
    forall g | 0 <= g < n + 1
      ensures Planned(groups[..n + 1][g], more[g], AvailableTo(relations, more[..g]))
    {
      if g < n {
        assert more[..g] == plans[..g] && groups[..n + 1][g] == groups[..n][g];
      } else {
        assert more[..g] == plans;
      }
    }
  }

  lemma HeadsNext(groups: seq<Group>, g: nat)
    requires g < |groups|
    ensures HeadsOf(groups[..g + 1]) == HeadsOf(groups[..g]) + ExportedBy(groups[g])
  {
    assert groups[..g + 1][..g] == groups[..g];
  }

  /** What the non-recursive groups computed. */
  ghost function OuterOutputs(plans: seq<GroupPlan>): set<Sig> {
    if plans == [] then
      {}
    else
      OuterOutputs(plans[..|plans| - 1]) + if plans[|plans| - 1].recursive then {} else Outputs(plans[|plans| - 1].plan)
  }

  ghost function Outside(sharing: bool, plans: seq<GroupPlan>): set<Sig> {
    Shared(sharing, OuterOutputs(plans))
  }

  /** Every recursive group is planned by what was scheduled before it. */
  ghost predicate AllScoped(groups: seq<Group>, plans: seq<GroupPlan>, sharing: bool) {
    |plans| == |groups| && forall g :: 0 <= g < |plans| && groups[g].recursive ==>
      ScopePlanned(groups[g], plans[g], Outside(sharing, plans[..g]))
  }

  lemma ScopedNext(groups: seq<Group>, plans: seq<GroupPlan>, sharing: bool, p: GroupPlan)
    requires |plans| < |groups| && AllScoped(groups[..|plans|], plans, sharing)
    requires groups[|plans|].recursive ==> ScopePlanned(groups[|plans|], p, Outside(sharing, plans))
    ensures AllScoped(groups[..|plans| + 1], plans + [p], sharing)
    ensures Outside(sharing, plans + [p]) ==
      Outside(sharing, plans) + if p.recursive then {} else Shared(sharing, Outputs(p.plan))
  {
    var n, more := |plans|, plans + [p];
    assert more[..n] == plans;
    forall g | 0 <= g < n + 1 && groups[g].recursive
      ensures ScopePlanned(groups[g], more[g], Outside(sharing, more[..g]))
    {
      if g < n {
        assert more[..g] == plans[..g];
        ScopedAt(groups[..n], plans, sharing, g);
      }
    }
    assert forall g :: 0 <= g < n + 1 ==> groups[..n + 1][g] == groups[g];
  }

  lemma ScopedAt(groups: seq<Group>, plans: seq<GroupPlan>, sharing: bool, g: nat)
    requires AllScoped(groups, plans, sharing) && g < |plans| && groups[g].recursive
    ensures ScopePlanned(groups[g], plans[g], Outside(sharing, plans[..g]))
  {
  }

  /** Plans all groups in order. Every operator's inputs are there before it - within a scope once the slices it reads
      are - every collection a recursive group brings in was computed before, and every rule's root is computed. */
  method PlanProgram(groups: seq<Group>, sharing: bool, ghost relations: set<Sig>) returns (plans: seq<GroupPlan>)
    requires Stratified(groups, relations)
    ensures AllPlanned(groups, plans, relations) && AllScoped(groups, plans, sharing)
  {
    plans := [];
    var scheduler := new Scheduler();
    for g := 0 to |groups|
      invariant |plans| == g && AllPlanned(groups[..g], plans, relations) && AllScoped(groups[..g], plans, sharing)
      invariant fresh(scheduler)
      invariant relations + HeadsOf(groups[..g]) <= AvailableTo(relations, plans)
      invariant scheduler.seen <= AvailableTo(relations, plans)
      invariant scheduler.seen == Outside(sharing, plans)
    {
      ghost var available := AvailableTo(relations, plans);
      GroupOkMore(groups[g], relations + HeadsOf(groups[..g]), available);
      var p := PlanGroup(scheduler, groups[g], sharing, available);
      PlannedNext(groups, plans, relations, p);
      ScopedNext(groups, plans, sharing, p);
      HeadsNext(groups, g);
      ghost var before := plans;
      plans := plans + [p];
      assert plans[..g] == before;
    }
    assert groups[..|groups|] == groups;
  }

  /* ------------------------------------------------------------------ */
  /* What sharing computes                                                */
  /* ------------------------------------------------------------------ */

  /** How operators compute: from their signature and the values of their inputs. */
  type Semantics<!V(!new)> = (Sig, seq<V>) -> V

  /** The value of a tree over the relations, computed by itself, without sharing. */
  ghost function Denote<V(!new)>(compute: Semantics<V>, base: map<Sig, V>, t: Tree): V
    requires Relations(t) <= base.Keys
    decreases t
  {
    match t
    case Leaf(sig, relation, _) => compute(sig, [base[relation]])
    case Node(sig, children, _) =>
      assert forall i :: 0 <= i < |children| ==> Relations(children[i]) <= Relations(t);
      compute(sig, seq(|children|, i requires 0 <= i < |children| => Denote(compute, base, children[i])))
  }

  /** Runs a plan on an environment of collections. */
  ghost function Execute<V(!new)>(compute: Semantics<V>, plan: seq<Op>, env: map<Sig, V>): (r: map<Sig, V>)
    requires Runs(plan, env.Keys)
    ensures r.Keys == env.Keys + Outputs(plan)
  {
    if plan == [] then
      assert Outputs(plan) == {};
      env
    else
      var n := |plan| - 1;
      var before := Execute(compute, plan[..n], env);
      OutputsLast(plan);
      before[plan[n].sig := compute(plan[n].sig, Values(plan[n].inputs, before))]
  }

  lemma OutputsLast(plan: seq<Op>)
    requires plan != []
    ensures Outputs(plan) == Outputs(plan[..|plan| - 1]) + {plan[|plan| - 1].sig}
  {
    assert plan == plan[..|plan| - 1] + [plan[|plan| - 1]];
    OutputsConcat(plan[..|plan| - 1], [plan[|plan| - 1]]);
    assert [plan[|plan| - 1]][0].sig in Outputs([plan[|plan| - 1]]);
  }

  ghost function Values<V>(inputs: seq<Sig>, env: map<Sig, V>): (r: seq<V>)
    requires forall i :: 0 <= i < |inputs| ==> inputs[i] in env
    ensures |r| == |inputs| && forall i :: 0 <= i < |r| ==> r[i] == env[inputs[i]]
  {
    seq(|inputs|, i requires 0 <= i < |inputs| => env[inputs[i]])
  }

  /** Trees closed under subtrees, whose signatures tell them apart from each other and from the relations. */
  ghost predicate Universe<V>(ts: set<Tree>, base: map<Sig, V>) {
    && Faithful(ts)
    && (forall t :: t in ts ==> Relations(t) <= base.Keys && t.sig !in base)
    && (forall t, i :: t in ts && t.Node? && 0 <= i < |t.children| ==> t.children[i] in ts)
  }

  /** Every collection of the environment is the value of its tree. */
  ghost predicate Correct<V(!new)>(compute: Semantics<V>, base: map<Sig, V>, ts: set<Tree>, env: map<Sig, V>)
    requires Universe(ts, base)
  {
    && (forall r :: r in base && r in env ==> env[r] == base[r])
    && (forall t :: t in ts && t.sig in env ==> env[t.sig] == Denote(compute, base, t))
  }

  lemma OperatorValue<V(!new)>(compute: Semantics<V>, base: map<Sig, V>, ts: set<Tree>, env: map<Sig, V>, t: Tree)
    requires Universe(ts, base) && Correct(compute, base, ts, env) && t in ts && Readable(OpOf(t), env.Keys)
    ensures compute(t.sig, Values(OpOf(t).inputs, env)) == Denote(compute, base, t)
  {
    match t
    case Leaf(sig, relation, _) =>
      assert OpOf(t).inputs[0] == relation;
      assert Values([relation], env) == [base[relation]];
    case Node(sig, children, _) =>
      assert forall i :: 0 <= i < |children| ==> OpOf(t).inputs[i] == children[i].sig && children[i] in ts;
      assert Values(OpOf(t).inputs, env) == seq(|children|, i requires 0 <= i < |children| => Denote(compute, base, children[i]));
  }

  /** Running a shared plan gives every collection the value its tree has by itself. */
  lemma {:induction false} SharingIsCorrect<V(!new)>(compute: Semantics<V>, base: map<Sig, V>, ts: set<Tree>,
                                                     plan: seq<Op>, env: map<Sig, V>)
    requires Universe(ts, base) && Correct(compute, base, ts, env) && Runs(plan, env.Keys) && OpsOf(plan, ts)
    ensures Correct(compute, base, ts, Execute(compute, plan, env))
  {
    if plan != [] {
      var n := |plan| - 1;
      SharingIsCorrect(compute, base, ts, plan[..n], env);
      assert IsOpOf(plan[n], ts);
      var t :| t in ts && plan[n] == OpOf(t);
      OperatorValue(compute, base, ts, Execute(compute, plan[..n], env), t);
    }
  }

  lemma OpsOfWiden(plan: seq<Op>, ts: set<Tree>, us: set<Tree>)
    requires OpsOf(plan, ts) && ts <= us
    ensures OpsOf(plan, us)
  {
    forall j | 0 <= j < |plan|
      ensures IsOpOf(plan[j], us)
    {
      assert IsOpOf(plan[j], ts);
    }
  }

  /** The trees' subtrees are among them. */
  lemma {:induction false} SubtreesInside<V>(ts: set<Tree>, base: map<Sig, V>, t: Tree)
    requires Universe(ts, base) && t in ts
    ensures Subtrees(t) <= ts
    decreases t
  {
    if t.Node? {
      forall i | 0 <= i < |t.children|
        ensures Subtrees(t.children[i]) <= ts
      {
        SubtreesInside(ts, base, t.children[i]);
      }
    }
  }

  /** A group's plan, run over correct collections, gives every rule's root the value of the rule's own tree. */
  lemma GroupComputes<V(!new)>(compute: Semantics<V>, base: map<Sig, V>, ts: set<Tree>, group: Group, p: GroupPlan,
                               available: set<Sig>, env: map<Sig, V>, root: Tree)
    requires Universe(ts, base) && Correct(compute, base, ts, env) && root in group.roots
    requires forall k :: 0 <= k < |group.roots| ==> group.roots[k] in ts
    requires Planned(group, p, available) && InReach(group, available) <= env.Keys
    ensures Runs(p.plan, env.Keys) && root.sig in env.Keys + Outputs(p.plan)
    ensures Execute(compute, p.plan, env)[root.sig] == Denote(compute, base, root)
  {
    var k :| 0 <= k < |group.roots| && group.roots[k] == root;
    assert p.roots[k] == root.sig;
    RunsWiden(p.plan, if group.recursive then p.enterScope else available, env.Keys);
    forall i | 0 <= i < |group.roots|
      ensures Subtrees(group.roots[i]) <= ts
    {
      SubtreesInside(ts, base, group.roots[i]);
    }
    OpsOfWiden(p.plan, AllSubtrees(group.roots), ts);
    SharingIsCorrect(compute, base, ts, p.plan, env);
  }
}

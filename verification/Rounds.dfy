/** What the rounds of a recursive group compute, sideways slices included. */
module Rounds {
  import opened Schedules
  import opened Scopes
  import opened Publishing

  /** A tree's value depends only on the relations it reads. */
  lemma {:induction false} DenoteReads<V(!new)>(compute: Semantics<V>, base: map<Sig, V>, base': map<Sig, V>, t: Tree)
    requires Relations(t) <= base.Keys && Relations(t) <= base'.Keys
    requires forall r :: r in Relations(t) ==> base[r] == base'[r]
    ensures Denote(compute, base, t) == Denote(compute, base', t)
    decreases t
  {
    if t.Node? {
      forall i | 0 <= i < |t.children|
        ensures Relations(t.children[i]) <= Relations(t)
        ensures Denote(compute, base, t.children[i]) == Denote(compute, base', t.children[i])
      {
        assert Relations(t.children[i]) <= Relations(t);
        DenoteReads(compute, base, base', t.children[i]);
      }
      assert seq(|t.children|, i requires 0 <= i < |t.children| => Denote(compute, base, t.children[i]))
        == seq(|t.children|, i requires 0 <= i < |t.children| => Denote(compute, base', t.children[i]));
    }
  }

  /* ------------------------------------------------------------------ */
  /* The values of slices                                                 */
  /* ------------------------------------------------------------------ */

  /** Rules and relations a base gives values to. */
  ghost predicate Covers<V>(base: map<Sig, V>, group: Group) {
    && |group.heads| == |group.roots| && Named(group.heads) <= base.Keys
    && forall k :: 0 <= k < |group.roots| ==> Relations(group.roots[k]) <= base.Keys
  }

  /** The relations' values, with every slice of the first `n` rules holding the value of its rule's tree. */
  ghost function Sliced<V(!new)>(compute: Semantics<V>, base: map<Sig, V>, group: Group, n: nat): (r: map<Sig, V>)
    requires Covers(base, group) && n <= |group.roots|
    ensures r.Keys == base.Keys
  {
    if n == 0 then
      base
    else
      var before := Sliced(compute, base, group, n - 1);
      if group.heads[n - 1] in group.slices then
        before[group.heads[n - 1] := Denote(compute, before, group.roots[n - 1])]
      else
        before
  }

  /** A relation keeps its value while no rule derives it as a slice. */
  lemma {:induction false} SlicedStays<V(!new)>(compute: Semantics<V>, base: map<Sig, V>, group: Group, m: nat, n: nat,
                                                s: Sig)
    requires Covers(base, group) && m <= n <= |group.roots| && s in base
    requires forall k :: m <= k < n && group.heads[k] in group.slices ==> group.heads[k] != s
    ensures Sliced(compute, base, group, n)[s] == Sliced(compute, base, group, m)[s]
    decreases n
  {
    if m < n {
      SlicedStays(compute, base, group, m, n - 1, s);
    }
  }

  /** Every slice holds the value of its rule's tree over these very values. */
  lemma SlicedIs<V(!new)>(compute: Semantics<V>, base: map<Sig, V>, group: Group, i: nat)
    requires Covers(base, group) && SlicesFirst(group) && i < |group.roots| && group.heads[i] in group.slices
    ensures Sliced(compute, base, group, |group.roots|)[group.heads[i]]
      == Denote(compute, Sliced(compute, base, group, |group.roots|), group.roots[i])
  {
    var n := |group.roots|;
    SlicedStays(compute, base, group, i + 1, n, group.heads[i]);
    forall r | r in Relations(group.roots[i])
      ensures Sliced(compute, base, group, n)[r] == Sliced(compute, base, group, i)[r]
    {
      forall k | i <= k < n && group.heads[k] in group.slices
        ensures group.heads[k] != r
      {
        assert !ReadsSlice(group, k, i);
      }
      SlicedStays(compute, base, group, i, n, r);
    }
    DenoteReads(compute, Sliced(compute, base, group, i), Sliced(compute, base, group, n), group.roots[i]);
  }

  /* ------------------------------------------------------------------ */
  /* Running a scope                                                      */
  /* ------------------------------------------------------------------ */

  /** The operators from the `k`-th on find what they read, once the scope holds `nest`. */
  ghost predicate ReadsFrom(p: GroupPlan, nest: set<Sig>, k: nat)
    requires |p.heads| == |p.roots| && k <= |p.plan|
    decreases |p.plan| - k
  {
    k < |p.plan| ==> Readable(p.plan[k], nest) && ReadsFrom(p, nest + {p.plan[k].sig} + Publishes(p, p.plan[k]), k + 1)
  }

  /** The scope with its `k`-th operator built: its rows, under its own name and the slices it publishes. */
  ghost function Built<V(!new)>(compute: Semantics<V>, p: GroupPlan, env: map<Sig, V>, k: nat): (r: map<Sig, V>)
    requires |p.heads| == |p.roots| && k < |p.plan| && Readable(p.plan[k], env.Keys)
    ensures r.Keys == env.Keys + {p.plan[k].sig} + Publishes(p, p.plan[k])
  {
    Extended(env, p, p.plan[k], compute(p.plan[k].sig, Values(p.plan[k].inputs, env)))
  }

  /** Builds a scope's operators from the `k`-th on. */
  ghost function ExecuteScope<V(!new)>(compute: Semantics<V>, p: GroupPlan, env: map<Sig, V>, k: nat): map<Sig, V>
    requires |p.heads| == |p.roots| && k <= |p.plan| && ReadsFrom(p, env.Keys, k)
    decreases |p.plan| - k
  {
    if k == |p.plan| then env else ExecuteScope(compute, p, Built(compute, p, env, k), k + 1)
  }

  /** An operator's rows, under its own name and the slices it publishes. */
  ghost function Extended<V>(env: map<Sig, V>, p: GroupPlan, op: Op, v: V): (r: map<Sig, V>)
    requires |p.heads| == |p.roots|
    ensures r.Keys == env.Keys + {op.sig} + Publishes(p, op)
    ensures forall s :: s in r ==> r[s] == if s == op.sig || s in Publishes(p, op) then v else env[s]
  {
    env[op.sig := v] + map s | s in Publishes(p, op) :: v
  }

  /** Slices hold the values of their rules' trees. */
  ghost predicate Settled<V(!new)>(compute: Semantics<V>, base: map<Sig, V>, group: Group)
    requires Covers(base, group)
  {
    forall i :: 0 <= i < |group.roots| && group.heads[i] in group.slices ==> base[group.heads[i]] == Denote(compute, base, group.roots[i])
  }

  /** A scope's names, over a program's trees. */
  ghost predicate Fits<V>(ts: set<Tree>, base: map<Sig, V>, group: Group, p: GroupPlan) {
    && Universe(ts, base) && Covers(base, group) && p.roots == Signatures(group.roots) && p.heads == group.heads
    && p.slices == group.slices
    && (forall i :: 0 <= i < |group.roots| ==> group.roots[i] in ts) && OpsOf(p.plan, ts)
  }

  lemma PublishedValue<V(!new)>(compute: Semantics<V>, base: map<Sig, V>, ts: set<Tree>, group: Group, p: GroupPlan,
                                t: Tree, s: Sig)
    requires Fits(ts, base, group, p) && Settled(compute, base, group) && t in ts && s in Publishes(p, OpOf(t))
    ensures s in base && base[s] == Denote(compute, base, t)
  {
    var i :| 0 <= i < |p.roots| && DerivesSlice(p, i, s) && p.roots[i] == t.sig;
    assert p.roots[i] == group.roots[i].sig;
    assert group.roots[i] == t;
  }

  lemma ExtendedCorrect<V(!new)>(compute: Semantics<V>, base: map<Sig, V>, ts: set<Tree>, group: Group, p: GroupPlan,
                                 env: map<Sig, V>, t: Tree, v: V)
    requires Fits(ts, base, group, p) && Settled(compute, base, group) && Correct(compute, base, ts, env) && t in ts
    requires v == Denote(compute, base, t)
    ensures Correct(compute, base, ts, Extended(env, p, OpOf(t), v))
  {
    var r := Extended(env, p, OpOf(t), v);
    forall s | s in Publishes(p, OpOf(t))
      ensures s in base && base[s] == v
    {
      PublishedValue(compute, base, ts, group, p, t, s);
    }
    forall u | u in ts && u.sig in r
      ensures r[u.sig] == Denote(compute, base, u)
    {
      assert u.sig !in base;
    }
  }

  lemma BuiltCorrect<V(!new)>(compute: Semantics<V>, base: map<Sig, V>, ts: set<Tree>, group: Group, p: GroupPlan,
                              env: map<Sig, V>, k: nat)
    requires Fits(ts, base, group, p) && Settled(compute, base, group) && Correct(compute, base, ts, env)
    requires k < |p.plan| && Readable(p.plan[k], env.Keys)
    ensures Correct(compute, base, ts, Built(compute, p, env, k))
  {
    assert IsOpOf(p.plan[k], ts);
    var t :| t in ts && p.plan[k] == OpOf(t);
    OperatorValue(compute, base, ts, env, t);
    ExtendedCorrect(compute, base, ts, group, p, env, t, compute(t.sig, Values(OpOf(t).inputs, env)));
  }

  /** Every collection of a scope is the value of its tree, and every slice published is the value of its rule's. */
  lemma {:induction false} ScopeIsCorrect<V(!new)>(compute: Semantics<V>, base: map<Sig, V>, ts: set<Tree>,
                                                   group: Group, p: GroupPlan, env: map<Sig, V>, k: nat)
    requires Fits(ts, base, group, p) && Settled(compute, base, group) && Correct(compute, base, ts, env)
    requires k <= |p.plan| && ReadsFrom(p, env.Keys, k)
    ensures Correct(compute, base, ts, ExecuteScope(compute, p, env, k))
    decreases |p.plan| - k
  {
    if k < |p.plan| {
      BuiltCorrect(compute, base, ts, group, p, env, k);
      ScopeIsCorrect(compute, base, ts, group, p, Built(compute, p, env, k), k + 1);
    }
  }

  ghost predicate BuiltFrom(p: GroupPlan, k: nat, s: Sig) {
    exists j: nat :: k <= j < |p.plan| && p.plan[j].sig == s
  }

  lemma BuiltNext(p: GroupPlan, k: nat, s: Sig)
    requires k < |p.plan| && BuiltFrom(p, k, s)
    ensures s == p.plan[k].sig || BuiltFrom(p, k + 1, s)
  {
  }

  /** Nothing built is lost. */
  lemma {:induction false} ScopeHolds<V(!new)>(compute: Semantics<V>, p: GroupPlan, env: map<Sig, V>, k: nat, s: Sig)
    requires |p.heads| == |p.roots| && k <= |p.plan| && ReadsFrom(p, env.Keys, k) && (s in env || BuiltFrom(p, k, s))
    ensures s in ExecuteScope(compute, p, env, k)
    decreases |p.plan| - k
  {
    if k < |p.plan| {
      if BuiltFrom(p, k, s) {
        BuiltNext(p, k, s);
      }
      var next := Built(compute, p, env, k);
      assert s in next || BuiltFrom(p, k + 1, s);
      ScopeHolds(compute, p, next, k + 1, s);
    }
  }

  /** What the scope holds by then is all its `k`-th operator reads. */
  ghost predicate NestReads(p: GroupPlan, start: set<Sig>, k: nat)
    requires |p.heads| == |p.roots| && k < |p.plan|
  {
    Readable(p.plan[k], Nest(p, start, k))
  }

  lemma {:induction false} NestReadsFrom(p: GroupPlan, start: set<Sig>, k: nat, nest: set<Sig>)
    requires |p.heads| == |p.roots| && k <= |p.plan| && forall j :: k <= j < |p.plan| ==> NestReads(p, start, j)
    requires nest == Nest(p, start, k)
    ensures ReadsFrom(p, nest, k)
    decreases |p.plan| - k
  {
    if k < |p.plan| {
      assert NestReads(p, start, k);
      NestReadsFrom(p, start, k + 1, nest + {p.plan[k].sig} + Publishes(p, p.plan[k]));
    }
  }

  /** A published scope reads nothing it does not hold. */
  lemma ScopeReadsAll(p: GroupPlan, start: set<Sig>)
    requires |p.heads| == |p.roots| && Runs(p.plan, p.enterScope) && SlicesPublished(p)
    requires p.enterScope - Named(p.heads) <= start && Variables(p) <= start
    ensures ReadsFrom(p, start, 0)
  {
    forall k: nat | k < |p.plan|
      ensures NestReads(p, start, k)
    {
      OperatorReads(p, start, k);
    }
    NestReadsFrom(p, start, 0, start);
  }

  lemma OperatorReads(p: GroupPlan, start: set<Sig>, k: nat)
    requires |p.heads| == |p.roots| && k < |p.plan| && Runs(p.plan, p.enterScope) && SlicesPublished(p)
    requires p.enterScope - Named(p.heads) <= start && Variables(p) <= start
    ensures NestReads(p, start, k)
  {
    forall i | 0 <= i < |p.plan[k].inputs|
      ensures p.plan[k].inputs[i] in Nest(p, start, k)
    {
      var s := p.plan[k].inputs[i];
      InputThere(p.plan, k, p.enterScope, s);
      assert InTime(p, k, s);
      NestIs(p, start, k, s);
    }
  }

  /* ------------------------------------------------------------------ */
  /* A round                                                              */
  /* ------------------------------------------------------------------ */

  lemma TreesFit<V>(groups: seq<Group>, relations: set<Sig>, base: map<Sig, V>)
    requires WellFormed(groups, relations) && base.Keys == relations + Derived(groups)
    ensures Universe(AllTrees(groups), base)
  {
    forall t | t in AllTrees(groups)
      ensures Relations(t) <= base.Keys && t.sig !in base
      ensures t.Node? ==> forall i :: 0 <= i < |t.children| ==> t.children[i] in AllTrees(groups)
    {
      TreeFits(groups, relations, t);
    }
  }

  lemma TreeFits(groups: seq<Group>, relations: set<Sig>, t: Tree)
    requires WellFormed(groups, relations) && t in AllTrees(groups)
    ensures Relations(t) <= relations + Derived(groups)
    ensures t.Node? ==> forall i :: 0 <= i < |t.children| ==> t.children[i] in AllTrees(groups)
  {
    var g :| 0 <= g < |groups| && t in AllSubtrees(groups[g].roots);
    var k :| 0 <= k < |groups[g].roots| && t in Subtrees(groups[g].roots[k]);
    SubtreeReads(groups[g].roots[k], t);
    assert Relations(t) <= AllRelations(groups[g].roots);
    ReadsKnown(groups, relations, g);
    TreesOf(groups, g);
    if t.Node? {
      forall i | 0 <= i < |t.children|
        ensures t.children[i] in AllTrees(groups)
      {
        ChildInside(groups[g].roots, t, i);
      }
    }
  }

  lemma GroupFits<V>(groups: seq<Group>, plans: seq<GroupPlan>, relations: set<Sig>, h: nat, base: map<Sig, V>)
    requires WellFormed(groups, relations) && AllPlanned(groups, plans, relations) && h < |groups|
    requires base.Keys == relations + Derived(groups)
    ensures Fits(AllTrees(groups), base, groups[h], plans[h])
  {
    TreesFit(groups, relations, base);
    GroupNamed(groups, relations, h);
    PlannedAt(groups, plans, relations, h);
    TreesOf(groups, h);
    OpsOfWiden(plans[h].plan, AllSubtrees(groups[h].roots), AllTrees(groups));
    forall i: nat | i < |groups[h].roots|
      ensures groups[h].roots[i] in AllTrees(groups) && Relations(groups[h].roots[i]) <= base.Keys
    {
      InSubtrees(groups[h].roots, i, groups[h].roots[i]);
      TreeFits(groups, relations, groups[h].roots[i]);
    }
    assert Named(groups[h].heads) <= Derived(groups);
  }

  /** Values a group changes: those of what it derives. */
  ghost predicate ChangesOnly<V>(base: map<Sig, V>, base': map<Sig, V>, changed: set<Sig>) {
    base.Keys == base'.Keys && forall s :: s in base && s !in changed ==> base[s] == base'[s]
  }

  lemma SlicedChanges<V(!new)>(compute: Semantics<V>, base: map<Sig, V>, group: Group, s: Sig)
    requires Covers(base, group) && s in base && s !in group.slices
    ensures Sliced(compute, base, group, |group.roots|)[s] == base[s]
  {
    SlicedStays(compute, base, group, 0, |group.roots|, s);
  }

  /** Collections computed outside a scope are correct whatever its relations hold. */
  lemma OutsideStays<V(!new)>(compute: Semantics<V>, groups: seq<Group>, plans: seq<GroupPlan>, relations: set<Sig>,
                              h: nat,
                              base: map<Sig, V>, base': map<Sig, V>, env: map<Sig, V>, t: Tree)
    requires WellFormed(groups, relations) && AllPlanned(groups, plans, relations) && h < |groups|
    requires Universe(AllTrees(groups), base) && ChangesOnly(base, base', Named(groups[h].heads))
    requires Correct(compute, base, AllTrees(groups), env) && t in AllTrees(groups) && t.sig in env
    requires t.sig in AvailableTo(relations, plans[..h])
    ensures Relations(t) <= base'.Keys && env[t.sig] == Denote(compute, base', t)
  {
    SigAvailable(groups, plans, relations, h, t.sig);
    OutsideFresh(groups, plans, relations, h, t);
    DenoteReads(compute, base, base', t);
  }

  /** A round: what was built outside, and the values the iterated relations have by then. */
  ghost predicate IsRound<V>(groups: seq<Group>, plans: seq<GroupPlan>, relations: set<Sig>, h: nat, base: map<Sig, V>,
                             env: map<Sig, V>, round: map<Sig, V>)
    requires h < |groups| == |plans|
  {
    && base.Keys == relations + Derived(groups) && env.Keys <= AvailableTo(relations, plans[..h])
    && plans[h].enterScope - Named(plans[h].heads) <= env.Keys && round.Keys == Variables(plans[h])
  }

  /** What a scope starts from: no slice is brought in. */
  ghost function RoundEnv<V>(env: map<Sig, V>, round: map<Sig, V>, slices: set<Sig>): map<Sig, V> {
    (env - slices) + round
  }

  /** The values in a round: the iterated relations', and those the slices take over them. */
  ghost function RoundBase<V(!new)>(compute: Semantics<V>, base: map<Sig, V>, round: map<Sig, V>,
                                    group: Group): map<Sig, V>
    requires Covers(base + round, group)
  {
    Sliced(compute, base + round, group, |group.roots|)
  }

  lemma RoundChanges<V(!new)>(compute: Semantics<V>, base: map<Sig, V>, round: map<Sig, V>, group: Group)
    requires Covers(base, group) && round.Keys == Named(group.heads) - group.slices
    requires group.slices <= Named(group.heads)
    ensures Covers(base + round, group) && ChangesOnly(base, RoundBase(compute, base, round, group), Named(group.heads))
    ensures forall s :: s in round ==> RoundBase(compute, base, round, group)[s] == round[s]
  {
    assert (base + round).Keys == base.Keys;
    forall s | s in base && s !in group.slices
      ensures RoundBase(compute, base, round, group)[s] == (base + round)[s]
    {
      SlicedChanges(compute, base + round, group, s);
    }
  }

  /** A scope starts from correct collections. */
  lemma RoundStarts<V(!new)>(compute: Semantics<V>, groups: seq<Group>, plans: seq<GroupPlan>, relations: set<Sig>,
                             h: nat,
                             base: map<Sig, V>, base': map<Sig, V>, env: map<Sig, V>, round: map<Sig, V>)
    requires WellFormed(groups, relations) && AllPlanned(groups, plans, relations) && h < |groups| == |plans|
    requires IsRound(groups, plans, relations, h, base, env, round) && Universe(AllTrees(groups), base)
    requires Universe(AllTrees(groups), base')
    requires Correct(compute, base, AllTrees(groups), env) && ChangesOnly(base, base', Named(groups[h].heads))
    requires plans[h].heads == groups[h].heads && forall s :: s in round ==> s in base' && base'[s] == round[s]
    ensures Correct(compute, base', AllTrees(groups), RoundEnv(env, round, plans[h].slices))
  {
    var start := RoundEnv(env, round, plans[h].slices);
    forall t | t in AllTrees(groups) && t.sig in start
      ensures start[t.sig] == Denote(compute, base', t)
    {
      assert t.sig !in base' && t.sig !in round;
      OutsideStays(compute, groups, plans, relations, h, base, base', env, t);
    }
    forall r | r in base' && r in start
      ensures start[r] == base'[r]
    {
      if r !in round {
        assert r !in Named(groups[h].heads);
      }
    }
  }

  ghost predicate SlicesPublishable(groups: seq<Group>, h: nat, sharing: bool)
    requires h < |groups|
  {
    |groups[h].heads| == |groups[h].roots| && GroupPublishable(groups, h, sharing)
  }

  /** The scope runs, and its `i`-th rule's root ends with the value of the rule's tree. */
  ghost predicate RootComputes<V(!new)>(compute: Semantics<V>, group: Group, p: GroupPlan, base: map<Sig, V>,
                                        start: map<Sig, V>, i: nat)
    requires Covers(base, group) && i < |group.roots|
  {
    && |p.heads| == |p.roots| && ReadsFrom(p, start.Keys, 0)
    && group.roots[i].sig in ExecuteScope(compute, p, start, 0)
    && ExecuteScope(compute, p, start, 0)[group.roots[i].sig] == Denote(compute, base, group.roots[i])
  }

  lemma RoundSettled<V(!new)>(compute: Semantics<V>, groups: seq<Group>, relations: set<Sig>, h: nat, base: map<Sig, V>)
    requires WellFormed(groups, relations) && h < |groups| && groups[h].recursive && Covers(base, groups[h])
    ensures Settled(compute, Sliced(compute, base, groups[h], |groups[h].roots|), groups[h])
  {
    forall i: nat | i < |groups[h].roots| && groups[h].heads[i] in groups[h].slices
      ensures Sliced(compute, base, groups[h], |groups[h].roots|)[groups[h].heads[i]]
        == Denote(compute, Sliced(compute, base, groups[h], |groups[h].roots|), groups[h].roots[i])
    {
      SlicedIs(compute, base, groups[h], i);
    }
  }

  lemma RoundRuns<V(!new)>(compute: Semantics<V>, group: Group, p: GroupPlan, available: set<Sig>, ts: set<Tree>,
                           base: map<Sig, V>,
                           start: map<Sig, V>, i: nat)
    requires Planned(group, p, available) && group.recursive && Apart(group) && Fits(ts, base, group, p)
    requires Settled(compute, base, group)
    requires Correct(compute, base, ts, start) && SlicesPublished(p) && i < |group.roots|
    requires p.enterScope - Named(p.heads) <= start.Keys && Variables(p) <= start.Keys
    ensures RootComputes(compute, group, p, base, start, i)
  {
    ScopeReadsAll(p, start.Keys);
    ScopeIsCorrect(compute, base, ts, group, p, start, 0);
    InSubtrees(group.roots, i, group.roots[i]);
    RootBuilt(group, p, available, start.Keys, i);
    ScopeHolds(compute, p, start, 0, group.roots[i].sig);
  }

  /** A rule's root is brought into the scope or built there. */
  lemma RootBuilt(group: Group, p: GroupPlan, available: set<Sig>, start: set<Sig>, i: nat)
    requires Planned(group, p, available) && group.recursive && Apart(group) && i < |group.roots|
    requires p.enterScope - Named(p.heads) <= start
    ensures group.roots[i].sig in start || BuiltFrom(p, 0, group.roots[i].sig)
  {
    InSubtrees(group.roots, i, group.roots[i]);
    assert p.roots[i] == group.roots[i].sig;
  }

  /** In every round of a recursive group, whatever its relations hold by then, building the group's operators in order
      and publishing its slices gives every rule's root the value of the rule's tree, over the relations' values and
      with every slice holding the value of its own rule's tree - though collections computed before the group are
      reused. */
  lemma RoundComputes<V(!new)>(compute: Semantics<V>, groups: seq<Group>, plans: seq<GroupPlan>, relations: set<Sig>,
                               sharing: bool, h: nat,
                               base: map<Sig, V>, env: map<Sig, V>, round: map<Sig, V>, i: nat)
    requires WellFormed(groups, relations) && AllPlanned(groups, plans, relations) && AllScoped(groups, plans, sharing)
    requires h < |groups| == |plans| && groups[h].recursive && SlicesPublishable(groups, h, sharing)
    requires IsRound(groups, plans, relations, h, base, env, round) && Universe(AllTrees(groups), base)
    requires Correct(compute, base, AllTrees(groups), env)
    requires i < |groups[h].roots|
    ensures Covers(base + round, groups[h])
    ensures RootComputes(compute, groups[h], plans[h], RoundBase(compute, base, round, groups[h]),
                                                            RoundEnv(env, round, plans[h].slices), i)
  {
    var group, p := groups[h], plans[h];
    GroupFits(groups, plans, relations, h, base);
    GroupNamed(groups, relations, h);
    RoundChanges(compute, base, round, group);
    var base', start := RoundBase(compute, base, round, group), RoundEnv(env, round, p.slices);
    GroupFits(groups, plans, relations, h, base');
    RoundStarts(compute, groups, plans, relations, h, base, base', env, round);
    GroupExact(groups, plans, relations, sharing, h);
    RoundSettled(compute, groups, relations, h, base + round);
    PlannedAt(groups, plans, relations, h);
    RoundRuns(compute, group, p, AvailableTo(relations, plans[..h]), AllTrees(groups), base', start, i);
  }
}

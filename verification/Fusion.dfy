/** Counting readers, and running a row program inside the join only it reads. */
module Fusion {
  import opened Schedules

  /* ------------------------------------------------------------------ */
  /* How often a collection is read                                       */
  /* ------------------------------------------------------------------ */

  function CountIn(sigs: seq<Sig>, s: Sig): nat {
    if sigs == [] then 0 else CountIn(sigs[..|sigs| - 1], s) + if sigs[|sigs| - 1] == s then 1 else 0
  }

  function ReadsIn(plan: seq<Op>, s: Sig): nat {
    if plan == [] then 0 else ReadsIn(plan[..|plan| - 1], s) + CountIn(plan[|plan| - 1].inputs, s)
  }

  /** The places in one group that read a collection: operators, heads that gather it, and the scope it is carried
      into. */
  function GroupReads(p: GroupPlan, s: Sig): nat {
    ReadsIn(p.plan, s) + CountIn(p.roots, s) + if s in p.enterScope then 1 else 0
  }

  function TotalReads(plans: seq<GroupPlan>, s: Sig): nat {
    if plans == [] then 0 else TotalReads(plans[..|plans| - 1], s) + GroupReads(plans[|plans| - 1], s)
  }

  type Counts = map<Sig, nat>

  function Counted(counts: Counts, s: Sig): nat {
    if s in counts then counts[s] else 0
  }

  function Increment(counts: Counts, s: Sig): (r: Counts)
    ensures forall t :: Counted(r, t) == Counted(counts, t) + if s == t then 1 else 0
  {
    counts[s := Counted(counts, s) + 1]
  }

  method CountAll(counts: Counts, sigs: seq<Sig>) returns (r: Counts)
    ensures forall s :: Counted(r, s) == Counted(counts, s) + CountIn(sigs, s)
  {
    r := counts;
    for k := 0 to |sigs|
      invariant forall s :: Counted(r, s) == Counted(counts, s) + CountIn(sigs[..k], s)
    {
      assert sigs[..k + 1][..k] == sigs[..k];
      r := Increment(r, sigs[k]);
    }
    assert sigs[..|sigs|] == sigs;
  }

  method CountScope(counts: Counts, scope: set<Sig>) returns (r: Counts)
    ensures forall s :: Counted(r, s) == Counted(counts, s) + if s in scope then 1 else 0
  {
    r := counts;
    var left := scope;
    while left != {}
      invariant left <= scope
      invariant forall s :: Counted(r, s) == Counted(counts, s) + if s in scope && s !in left then 1 else 0
    {
      var s :| s in left;
      r := Increment(r, s);
      left := left - {s};
    }
  }

  method CountGroup(counts: Counts, p: GroupPlan) returns (r: Counts)
    ensures forall s :: Counted(r, s) == Counted(counts, s) + GroupReads(p, s)
  {
    r := counts;
    for k := 0 to |p.plan|
      invariant forall s :: Counted(r, s) == Counted(counts, s) + ReadsIn(p.plan[..k], s)
    {
      assert p.plan[..k + 1][..k] == p.plan[..k];
      r := CountAll(r, p.plan[k].inputs);
    }
    assert p.plan[..|p.plan|] == p.plan;
    r := CountAll(r, p.roots);
    r := CountScope(r, p.enterScope);
  }

  /** Tallies readers over all groups. */
  method CountConsumers(plans: seq<GroupPlan>) returns (consumers: Counts)
    ensures forall s :: Counted(consumers, s) == TotalReads(plans, s)
  {
    consumers := map[];
    for g := 0 to |plans|
      invariant forall s :: Counted(consumers, s) == TotalReads(plans[..g], s)
    {
      assert plans[..g + 1][..g] == plans[..g];
      consumers := CountGroup(consumers, plans[g]);
    }
    assert plans[..|plans|] == plans;
  }

  /* ------------------------------------------------------------------ */
  /* One reader means no other                                            */
  /* ------------------------------------------------------------------ */

  lemma {:induction false} CountInPositive(sigs: seq<Sig>, s: Sig)
    ensures CountIn(sigs, s) > 0 <==> s in sigs
  {
    if sigs != [] {
      CountInPositive(sigs[..|sigs| - 1], s);
      assert sigs == sigs[..|sigs| - 1] + [sigs[|sigs| - 1]];
    }
  }

  /** Every operator that reads the collection counts; two different ones count twice. */
  lemma {:induction false} PlanReads(plan: seq<Op>, s: Sig, j: nat, k: nat)
    requires j <= k < |plan| && s in plan[j].inputs && s in plan[k].inputs
    ensures ReadsIn(plan, s) >= if j < k then 2 else 1
  {
    var n := |plan| - 1;
    CountInPositive(plan[n].inputs, s);
    if k < n {
      PlanReads(plan[..n], s, j, k);
    } else if j < n {
      PlanReads(plan[..n], s, j, j);
    }
  }

  lemma {:induction false} GroupsRead(plans: seq<GroupPlan>, s: Sig, g: nat, h: nat)
    requires g <= h < |plans| && GroupReads(plans[g], s) > 0 && GroupReads(plans[h], s) > 0
    ensures TotalReads(plans, s) >= if g < h then 2 else GroupReads(plans[g], s)
  {
    var n := |plans| - 1;
    if h < n {
      GroupsRead(plans[..n], s, g, h);
    } else if g < n {
      GroupsRead(plans[..n], s, g, g);
    }
  }

  /** Some operator, head or entering scope other than one operator of one group reads the collection. */
  ghost predicate ReadElsewhere(plans: seq<GroupPlan>, g: nat, k: nat, s: Sig) {
    || (exists h, j :: 0 <= h < |plans| && 0 <= j < |plans[h].plan| && (h != g || j != k) && s in plans[h].plan[j].inputs)
    || (exists h :: 0 <= h < |plans| && (s in plans[h].roots || s in plans[h].enterScope))
  }

  /** A collection read once, by one operator, is read by nothing else. */
  lemma OnlyReader(plans: seq<GroupPlan>, g: nat, k: nat, s: Sig)
    requires g < |plans| && k < |plans[g].plan| && s in plans[g].plan[k].inputs && TotalReads(plans, s) == 1
    ensures !ReadElsewhere(plans, g, k, s)
  {
    PlanReads(plans[g].plan, s, k, k);
    GroupsRead(plans, s, g, g);
    forall h: nat, j: nat | h < |plans| && j < |plans[h].plan| && (h != g || j != k)
      ensures s !in plans[h].plan[j].inputs
    {
      if s in plans[h].plan[j].inputs {
        PlanReads(plans[h].plan, s, j, j);
        if h == g {
          PlanReads(plans[g].plan, s, if j < k then j else k, if j < k then k else j);
        } else {
          GroupsRead(plans, s, if g < h then g else h, if g < h then h else g);
        }
      }
    }
    forall h: nat | h < |plans|
      ensures s !in plans[h].roots && s !in plans[h].enterScope
    {
      CountInPositive(plans[h].roots, s);
      if s in plans[h].roots || s in plans[h].enterScope {
        if h != g {
          GroupsRead(plans, s, if g < h then g else h, if g < h then h else g);
        }
      }
    }
  }

  /* ------------------------------------------------------------------ */
  /* Assembly                                                             */
  /* ------------------------------------------------------------------ */

  /** Builds an operator's collection. Every collection it reads has to be there: a missing one is a panic. */
  method Build(op: Op, built: set<Sig>) returns (built': set<Sig>)
    requires Readable(op, built)
    ensures built' == built + {op.sig}
  {
    built' := built + {op.sig};
  }

  /** Builds a join and the row program over it as one: the join's own collection never exists. */
  method BuildFused(join: Op, program: Op, built: set<Sig>) returns (built': set<Sig>)
    requires Readable(join, built) && program.inputs == [join.sig]
    ensures built' == built + {program.sig}
  {
    built' := built + {program.sig};
  }

  /** The operator is the only reader of the collection. */
  ghost predicate SoleReader(plans: seq<GroupPlan>, s: Sig, h: nat, j: nat) {
    h < |plans| && j < |plans[h].plan| && s in plans[h].plan[j].inputs && TotalReads(plans, s) == 1
  }

  /** Operators already dealt with: those of earlier groups, the first `k` of this one, and the row programs fused
      ahead. */
  ghost predicate Handled(g: nat, k: nat, fused: set<nat>, h: nat, j: nat) {
    h < g || (h == g && (j < k || j in fused))
  }

  /** Whatever should be there is, except collections whose only reader was already dealt with. */
  ghost predicate Kept(plans: seq<GroupPlan>, g: nat, k: nat, fused: set<nat>, available: set<Sig>, built: set<Sig>) {
    forall s :: s in available && s !in built ==> exists h: nat, j: nat :: SoleReader(plans, s, h, j) && Handled(g, k, fused, h, j)
  }

  /** What an operator not yet dealt with reads was kept. */
  lemma ReaderFinds(plans: seq<GroupPlan>, g: nat, k: nat, fused: set<nat>, available: set<Sig>, built: set<Sig>)
    requires Kept(plans, g, k, fused, available, built) && g < |plans| && k < |plans[g].plan| && k !in fused
    requires Readable(plans[g].plan[k], available)
    ensures Readable(plans[g].plan[k], built)
  {
    forall i | 0 <= i < |plans[g].plan[k].inputs|
      ensures plans[g].plan[k].inputs[i] in built
    {
      var s := plans[g].plan[k].inputs[i];
      if s !in built {
        var h: nat, j: nat :| SoleReader(plans, s, h, j) && Handled(g, k, fused, h, j);
        OnlyReader(plans, h, j, s);
        assert ReadElsewhere(plans, h, j, s);
      }
    }
  }

  /** What a head collects or a scope brings in was kept. */
  lemma HeadFinds(plans: seq<GroupPlan>, g: nat, k: nat, fused: set<nat>, available: set<Sig>, built: set<Sig>, h: nat,
                  s: Sig)
    requires Kept(plans, g, k, fused, available, built) && h < |plans| && s in available
    requires s in plans[h].roots || s in plans[h].enterScope
    ensures s in built
  {
    if s !in built {
      var h': nat, j: nat :| SoleReader(plans, s, h', j) && Handled(g, k, fused, h', j);
      OnlyReader(plans, h', j, s);
      assert ReadElsewhere(plans, h', j, s);
    }
  }

  /** Whether the join at `k` can take in the row program right after it. */
  predicate Fuses(plan: seq<Op>, k: nat, consumers: Counts, fusable: Op -> bool)
    requires k < |plan|
  {
    && plan[k].kind == JoinToRow && Counted(consumers, plan[k].sig) == 1
    && k + 1 < |plan| && plan[k + 1].kind == Compute && plan[k + 1].inputs == [plan[k].sig] && fusable(plan[k])
  }

  /** A join to rows read nowhere but by the row program right after it, which it can run itself. */
  ghost predicate Absorbs(plans: seq<GroupPlan>, g: nat, k: nat, fusable: Op -> bool)
    requires g < |plans| && k < |plans[g].plan|
  {
    var plan := plans[g].plan;
    && plan[k].kind == JoinToRow && fusable(plan[k]) && TotalReads(plans, plan[k].sig) == 1
    && k + 1 < |plan| && plan[k + 1].kind == Compute && plan[k + 1].inputs == [plan[k].sig]
  }

  /** Every one of the first `k` operators leaves a collection, except the joins that run the program after them. */
  ghost predicate Leaves(plans: seq<GroupPlan>, g: nat, k: nat, fusable: Op -> bool, s: Sig)
    requires g < |plans| && k <= |plans[g].plan|
  {
    exists j :: 0 <= j < k && plans[g].plan[j].sig == s && !Absorbs(plans, g, j, fusable)
  }

  /** The collections there are after `k` operators: those there were, those left, and the one built ahead. */
  ghost predicate LeftBehind(plans: seq<GroupPlan>, g: nat, k: nat, fusable: Op -> bool, fused: set<nat>,
                             before: set<Sig>, built: set<Sig>)
    requires g < |plans| && k <= |plans[g].plan|
  {
    forall s :: s in built <==>
      s in before || Leaves(plans, g, k, fusable, s) || (k in fused && k < |plans[g].plan| && plans[g].plan[k].sig == s)
  }

  /** What was fused ahead is a row program. */
  ghost predicate FusedAhead(plans: seq<GroupPlan>, g: nat, k: nat, fused: set<nat>)
    requires g < |plans|
  {
    k in fused ==> k < |plans[g].plan| && plans[g].plan[k].kind == Compute
  }

  lemma LeavesNext(plans: seq<GroupPlan>, g: nat, k: nat, fusable: Op -> bool, s: Sig)
    requires g < |plans| && k < |plans[g].plan|
    ensures Leaves(plans, g, k + 1, fusable, s) <==>
      Leaves(plans, g, k, fusable, s) || (plans[g].plan[k].sig == s && !Absorbs(plans, g, k, fusable))
  {
  }

  /** An operator that was fused ahead, or that is built, leaves its collection. */
  lemma LeftNext(plans: seq<GroupPlan>, g: nat, k: nat, fusable: Op -> bool, fused: set<nat>, before: set<Sig>,
                 built: set<Sig>, built': set<Sig>)
    requires g < |plans| && k < |plans[g].plan| && FusedAhead(plans, g, k, fused) && k + 1 !in fused
    requires LeftBehind(plans, g, k, fusable, fused, before, built) && built' == built + {plans[g].plan[k].sig}
    requires !Absorbs(plans, g, k, fusable)
    ensures LeftBehind(plans, g, k + 1, fusable, fused, before, built')
  {
    forall s {
      LeavesNext(plans, g, k, fusable, s);
    }
  }

  /** A join that runs the program after it leaves only that one's collection. */
  lemma LeftFused(plans: seq<GroupPlan>, g: nat, k: nat, fusable: Op -> bool, fused: set<nat>, before: set<Sig>,
                  built: set<Sig>, built': set<Sig>)
    requires g < |plans| && k + 1 < |plans[g].plan| && k !in fused && Absorbs(plans, g, k, fusable)
    requires LeftBehind(plans, g, k, fusable, fused, before, built) && built' == built + {plans[g].plan[k + 1].sig}
    ensures LeftBehind(plans, g, k + 1, fusable, fused + {k + 1}, before, built')
  {
    forall s {
      LeavesNext(plans, g, k, fusable, s);
    }
  }

  /** The group after `k` operators. */
  ghost predicate Assembling(plans: seq<GroupPlan>, g: nat, k: nat, fusable: Op -> bool, fused: set<nat>,
                             available: set<Sig>, before: set<Sig>, built: set<Sig>)
    requires g < |plans| && k <= |plans[g].plan|
  {
    && (forall j :: j in fused ==> j <= k) && FusedAhead(plans, g, k, fused)
    && LeftBehind(plans, g, k, fusable, fused, before, built)
    && Kept(plans, g, k, fused, available + Outputs(plans[g].plan[..k]), built)
  }

  /** Deals with one operator: nothing if its program was fused ahead; else it is built, with the program it runs. */
  method AssembleNext(plans: seq<GroupPlan>, g: nat, k: nat, consumers: Counts, fusable: Op -> bool, fused: set<nat>,
                      built: set<Sig>, ghost available: set<Sig>, ghost before: set<Sig>)
    returns (built': set<Sig>, fused': set<nat>)
    requires g < |plans| && k < |plans[g].plan| && Runs(plans[g].plan, available)
    requires forall s :: Counted(consumers, s) == TotalReads(plans, s)
    requires Assembling(plans, g, k, fusable, fused, available, before, built)
    ensures Assembling(plans, g, k + 1, fusable, fused', available, before, built')
  {
    var plan := plans[g].plan;
    RunsPrefix(plan, k, available);
    OutputsNext(plan, k);
    built', fused' := built, fused;
    if k !in fused {
      ReaderFinds(plans, g, k, fused, available + Outputs(plan[..k]), built);
      if Fuses(plan, k, consumers, fusable) {
        built' := BuildFused(plan[k], plan[k + 1], built);
        KeptFused(plans, g, k, fused, available, built, built');
        LeftFused(plans, g, k, fusable, fused, before, built, built');
        fused' := fused + {k + 1};
        return;
      }
      built' := Build(plan[k], built);
    }
    KeptNext(plans, g, k, fused, available, built, built');
    LeftNext(plans, g, k, fusable, fused, before, built, built');
  }

  /** Assembles one group outside any scope. Every operator finds its inputs, and every one leaves its collection,
      except exactly the joins that run the row program only they feed. */
  method AssembleGroup(plans: seq<GroupPlan>, g: nat, consumers: Counts, fusable: Op -> bool, built: set<Sig>,
                       ghost available: set<Sig>)
    returns (built': set<Sig>)
    requires g < |plans| && !plans[g].recursive && Runs(plans[g].plan, available)
    requires forall s :: Counted(consumers, s) == TotalReads(plans, s)
    requires Kept(plans, g, 0, {}, available, built)
    ensures Kept(plans, g + 1, 0, {}, available + Outputs(plans[g].plan), built') && built <= built'
    ensures forall s :: s in built' <==> s in built || Leaves(plans, g, |plans[g].plan|, fusable, s)
  {
    var plan := plans[g].plan;
    var fused: set<nat> := {};
    built' := built;
    NothingAssembled(plans, g, fusable, available, built);
    for k := 0 to |plan|
      invariant Assembling(plans, g, k, fusable, fused, available, built, built')
    {
      built', fused := AssembleNext(plans, g, k, consumers, fusable, fused, built', available, built);
    }
    assert plan[..|plan|] == plan;
    KeptDone(plans, g, fused, available + Outputs(plan), built');
  }

  lemma NothingAssembled(plans: seq<GroupPlan>, g: nat, fusable: Op -> bool, available: set<Sig>, built: set<Sig>)
    requires g < |plans| && Kept(plans, g, 0, {}, available, built)
    ensures Assembling(plans, g, 0, fusable, {}, available, built, built)
  {
    assert available + Outputs(plans[g].plan[..0]) == available;
  }

  lemma {:induction false} RunsPrefix(plan: seq<Op>, k: nat, available: set<Sig>)
    requires Runs(plan, available) && k < |plan|
    ensures Readable(plan[k], available + Outputs(plan[..k]))
  {
    if k < |plan| - 1 {
      RunsPrefix(plan[..|plan| - 1], k, available);
      assert plan[..|plan| - 1][..k] == plan[..k];
    }
  }

  lemma OutputsNext(plan: seq<Op>, k: nat)
    requires k < |plan|
    ensures Outputs(plan[..k + 1]) == Outputs(plan[..k]) + {plan[k].sig}
  {
    assert plan[..k + 1] == plan[..k] + [plan[k]];
    OutputsConcat(plan[..k], [plan[k]]);
    assert Outputs([plan[k]]) == {plan[k].sig} by {
      assert [plan[k]][0].sig in Outputs([plan[k]]);
    }
  }

  lemma KeptNext(plans: seq<GroupPlan>, g: nat, k: nat, fused: set<nat>, available: set<Sig>, before: set<Sig>,
                 built: set<Sig>)
    requires g < |plans| && k < |plans[g].plan|
    requires Kept(plans, g, k, fused, available + Outputs(plans[g].plan[..k]), before)
    requires before + {plans[g].plan[k].sig} <= built
    requires Outputs(plans[g].plan[..k + 1]) == Outputs(plans[g].plan[..k]) + {plans[g].plan[k].sig}
    ensures Kept(plans, g, k + 1, fused, available + Outputs(plans[g].plan[..k + 1]), built)
  {
    forall s | s in available + Outputs(plans[g].plan[..k + 1]) && s !in built
      ensures exists h: nat, j: nat :: SoleReader(plans, s, h, j) && Handled(g, k + 1, fused, h, j)
    {
      var h: nat, j: nat :| SoleReader(plans, s, h, j) && Handled(g, k, fused, h, j);
      assert Handled(g, k + 1, fused, h, j);
    }
  }

  lemma KeptFused(plans: seq<GroupPlan>, g: nat, k: nat, fused: set<nat>, available: set<Sig>, before: set<Sig>,
                  built: set<Sig>)
    requires g < |plans| && k + 1 < |plans[g].plan|
    requires Kept(plans, g, k, fused, available + Outputs(plans[g].plan[..k]), before) && before <= built
    requires Outputs(plans[g].plan[..k + 1]) == Outputs(plans[g].plan[..k]) + {plans[g].plan[k].sig}
    requires plans[g].plan[k + 1].inputs == [plans[g].plan[k].sig] && TotalReads(plans, plans[g].plan[k].sig) == 1
    ensures Kept(plans, g, k + 1, fused + {k + 1}, available + Outputs(plans[g].plan[..k + 1]), built)
  {
    var join := plans[g].plan[k].sig;
    assert join in plans[g].plan[k + 1].inputs;
    forall s | s in available + Outputs(plans[g].plan[..k + 1]) && s !in built
      ensures exists h: nat, j: nat :: SoleReader(plans, s, h, j) && Handled(g, k + 1, fused + {k + 1}, h, j)
    {
      if s == join {
        assert SoleReader(plans, s, g, k + 1) && Handled(g, k + 1, fused + {k + 1}, g, k + 1);
      } else {
        var h: nat, j: nat :| SoleReader(plans, s, h, j) && Handled(g, k, fused, h, j);
        assert Handled(g, k + 1, fused + {k + 1}, h, j);
      }
    }
  }

  lemma KeptDone(plans: seq<GroupPlan>, g: nat, fused: set<nat>, available: set<Sig>, built: set<Sig>)
    requires g < |plans| && Kept(plans, g, |plans[g].plan|, fused, available, built)
    ensures Kept(plans, g + 1, 0, {}, available, built)
  {
    forall s | s in available && s !in built
      ensures exists h: nat, j: nat :: SoleReader(plans, s, h, j) && Handled(g + 1, 0, {}, h, j)
    {
      var h: nat, j: nat :| SoleReader(plans, s, h, j) && Handled(g, |plans[g].plan|, fused, h, j);
      assert Handled(g + 1, 0, {}, h, j);
    }
  }

  /** The relations a group derives are built by it. */
  lemma KeptHeads(plans: seq<GroupPlan>, g: nat, available: set<Sig>, built: set<Sig>, heads: set<Sig>)
    requires Kept(plans, g, 0, {}, available, built)
    ensures Kept(plans, g, 0, {}, available + heads, built + heads)
  {
  }

  lemma ScopeFinds(plans: seq<GroupPlan>, g: nat, available: set<Sig>, built: set<Sig>)
    requires g < |plans| && Kept(plans, g, 0, {}, available, built)
    requires plans[g].enterScope <= available + Named(plans[g].heads)
    ensures plans[g].enterScope - Named(plans[g].heads) <= built
  {
    forall s | s in plans[g].enterScope - Named(plans[g].heads)
      ensures s in built
    {
      HeadFinds(plans, g, 0, {}, available, built, g, s);
    }
  }

  lemma KeptLater(plans: seq<GroupPlan>, g: nat, available: set<Sig>, built: set<Sig>)
    requires Kept(plans, g, 0, {}, available, built)
    ensures Kept(plans, g + 1, 0, {}, available, built)
  {
    forall s | s in available && s !in built
      ensures exists h: nat, j: nat :: SoleReader(plans, s, h, j) && Handled(g + 1, 0, {}, h, j)
    {
      var h: nat, j: nat :| SoleReader(plans, s, h, j) && Handled(g, 0, {}, h, j);
      assert Handled(g + 1, 0, {}, h, j);
    }
  }
}

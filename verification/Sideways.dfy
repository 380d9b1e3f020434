/** Sideways information passing: a rule reduced, forward and backward, to semijoin slices and a smaller final rule. */
module Sideways {
  import opened Wrappers
  import opened Datalog
  import opened Catalogs
  import opened Rules
  import opened CoreAtoms
  import opened Bodies
  import opened Slices

  /* ------------------------------------------------------------------ */
  /* The state of the reduction                                           */
  /* ------------------------------------------------------------------ */

  /** The current atoms of a rule, and which subsumed atoms and negations no slice enforces yet. */
  datatype Reduction = Reduction(atoms: seq<Atom>, nonCore: seq<bool>, negation: seq<bool>)

  ghost predicate Core(rule: Rule, k: nat)
    requires k < |Positives(rule.body)|
  {
    IsCore(VariableSets(Positives(rule.body)), k)
  }

  /** Core atoms are as they were, or read a slice with their variables; other atoms are as they were. */
  ghost predicate Tracks(rule: Rule, r: Reduction, used: set<string>) {
    var atoms := Positives(rule.body);
    && |r.atoms| == |r.nonCore| == |atoms| && |r.negation| == |Negatives(rule.body)|
    && (forall k :: 0 <= k < |atoms| ==> Variables(r.atoms[k]) == Variables(atoms[k]))
    && (forall k :: 0 <= k < |atoms| ==> r.atoms[k] == atoms[k] || (Core(rule, k) && r.atoms[k].relation in used))
    && (forall k :: 0 <= k < |atoms| && r.nonCore[k] ==> !Core(rule, k))
  }

  ghost predicate CoresHold(rule: Rule, r: Reduction, db: Database, s: Valuation)
    requires |r.atoms| == |Positives(rule.body)|
  {
    forall k :: 0 <= k < |r.atoms| && Core(rule, k) ==> AtomHolds(db, r.atoms[k], s)
  }

  /** What the slices took over holds: the core atoms themselves, the consumed subsumed atoms and negations. */
  ghost predicate TakenHold(rule: Rule, r: Reduction, db: Database, s: Valuation)
    requires |r.nonCore| == |Positives(rule.body)| && |r.negation| == |Negatives(rule.body)|
  {
    && (forall k :: 0 <= k < |r.nonCore| && !r.nonCore[k] ==> AtomHolds(db, Positives(rule.body)[k], s))
    && (forall n :: 0 <= n < |r.negation| && !r.negation[n] ==> !AtomHolds(db, Negatives(rule.body)[n], s))
  }

  /** The relations the rule reads are untouched. */
  ghost predicate Untouched(rule: Rule, db: Database, db': Database) {
    forall l :: l in rule.body && (l.Positive? || l.Negative?) ==> Rows(db', l.atom.relation) == Rows(db, l.atom.relation)
  }

  /** On the staged database the current core atoms keep every solution, and imply what the slices took over. */
  ghost predicate ReducesOn(rule: Rule, r: Reduction, db: Database, db': Database)
    requires |r.atoms| == |r.nonCore| == |Positives(rule.body)| && |r.negation| == |Negatives(rule.body)|
  {
    && Untouched(rule, db, db')
    && (forall s :: BodySolution(RelationalPart(rule), db, s) ==> CoresHold(rule, r, db', s))
    && (forall s :: CoresHold(rule, r, db', s) ==> TakenHold(rule, r, db, s))
  }

  ghost predicate Reduces(rule: Rule, slices: seq<Rule>, r: Reduction)
    requires |r.atoms| == |r.nonCore| == |Positives(rule.body)| && |r.negation| == |Negatives(rule.body)|
  {
    forall functions, dbs :: StagedAll(functions, slices, dbs) ==> ReducesOn(rule, r, dbs[0], dbs[|slices|])
  }

  /* ------------------------------------------------------------------ */
  /* One slice                                                            */
  /* ------------------------------------------------------------------ */

  /** The atom with only the given variables, and wildcards for its others. */
  function Masked(atom: Atom, xs: set<Var>): Atom {
    Atom(atom.relation, seq(|atom.args|, i requires 0 <= i < |atom.args| =>
      if atom.args[i].Variable? && atom.args[i].name !in xs then Wildcard else atom.args[i]))
  }

  /** Masking only forgets: whatever the atom holds on, its masked form does. */
  lemma MaskedHolds(db: Database, atom: Atom, xs: set<Var>, s: Valuation)
    requires AtomHolds(db, atom, s)
    ensures AtomHolds(db, Masked(atom, xs), s)
  {
    var row :| row in Rows(db, atom.relation) && Matches(atom, s, row);
    assert Matches(Masked(atom, xs), s, row);
  }

  /** A literal of a slice for core atom `k`: the atom itself, a literal of the rule its variables bind, or a masked
      current atom. */
  ghost predicate SliceLiteral(rule: Rule, r: Reduction, k: nat, l: Literal)
    requires k < |r.atoms| == |Positives(rule.body)|
  {
    var xs := Variables(r.atoms[k]);
    match l
    case Positive(atom) => atom == r.atoms[k] || (l in rule.body && Variables(atom) <= xs) || exists j :: 0 <= j < |r.atoms| && Core(rule, j) && atom == Masked(r.atoms[j], xs)
    case Negative(atom) => l in rule.body && Variables(atom) <= xs
    case Compare(c) => l in rule.body && ComparisonVariables(c) <= xs
    case Call(_) => false
  }

  /** The slice for core atom `k`, and the state after it. */
  ghost predicate IsSlice(rule: Rule, r: Reduction, k: nat, slice: Rule, r': Reduction)
    requires k < |r.atoms| == |Positives(rule.body)|
  {
    var xs := OrderedVariables(Positives(rule.body)[k]);
    && Core(rule, k) && slice.head == HeadOf(xs)
    && Positive(r.atoms[k]) in slice.body && (forall l :: l in slice.body ==> SliceLiteral(rule, r, k, l))
    && r'.atoms == r.atoms[k := SliceAtom(slice.name, xs)]
    && |r'.nonCore| == |r.nonCore| && |r'.negation| == |r.negation|
    && (forall i :: 0 <= i < |r.nonCore| ==> r'.nonCore[i] == r.nonCore[i] || (!r'.nonCore[i] && i < |Positives(rule.body)| && TakenBy(rule, slice, k, Positive(Positives(rule.body)[i]))))
    && (forall n :: 0 <= n < |r.negation| ==> r'.negation[n] == r.negation[n] || (!r'.negation[n] && n < |Negatives(rule.body)| && TakenBy(rule, slice, k, Negative(Negatives(rule.body)[n]))))
    && HoldsComparisons(rule, slice, k)
  }

  /** The slice holds every comparison its core atom binds. */
  ghost predicate HoldsComparisons(rule: Rule, slice: Rule, k: nat)
    requires k < |Positives(rule.body)|
  {
    forall c :: c in RelationalPart(rule).comparisons && ComparisonVariables(c) <= Variables(Positives(rule.body)[k]) ==> Compare(c) in slice.body
  }

  /** The slice enforces the literal, which its core atom binds. */
  ghost predicate TakenBy(rule: Rule, slice: Rule, k: nat, l: Literal)
    requires k < |Positives(rule.body)|
  {
    l in slice.body && LiteralVariables(l) <= Variables(Positives(rule.body)[k])
  }

  lemma SliceWithoutCalls(rule: Rule, r: Reduction, k: nat, slice: Rule, r': Reduction)
    requires k < |r.atoms| == |Positives(rule.body)| && IsSlice(rule, r, k, slice, r')
    ensures Calls(slice.body) == [] && Outputs(Calls(slice.body)) == {} && ComputedComparisons(slice) == []
  {
    NoCalls(slice.body);
    NoneComputed(slice.body, {});
  }

  /** A slice without calls keeps the projection of each of its solutions. */
  lemma PlainSlice(functions: Functions, rule: Rule, r: Reduction, k: nat, slice: Rule, r': Reduction, s: Valuation)
    requires k < |r.atoms| == |Positives(rule.body)| && IsSlice(rule, r, k, slice, r')
    ensures EvaluateSolution(functions, slice, s) == Kept(Image(s, OrderedVariables(Positives(rule.body)[k])))
  {
    SliceWithoutCalls(rule, r, k, slice, r');
    HeadOfRow(OrderedVariables(Positives(rule.body)[k]), s);
  }

  /** A solution of the rule solves the slice. */
  lemma SolutionSolvesSlice(rule: Rule, r: Reduction, used: set<string>, k: nat, slice: Rule, r': Reduction,
                            db: Database, db1: Database, s: Valuation)
    requires Tracks(rule, r, used) && k < |r.atoms| && IsSlice(rule, r, k, slice, r') && ReducesOn(rule, r, db, db1)
    requires WellShaped(rule) && BodySolution(RelationalPart(rule), db, s)
    ensures BodySolution(RelationalPart(slice), db1, s)
  {
    SolutionByLiterals(rule, db, s);
    SliceWithoutCalls(rule, r, k, slice, r');
    forall l | l in slice.body
      ensures LiteralHolds(db1, {}, l, s)
    {
      SolutionHoldsInSlice(rule, r, used, k, db, db1, s, l);
    }
    SolutionByLiterals(slice, db1, s);
  }

  lemma SolutionHoldsInSlice(rule: Rule, r: Reduction, used: set<string>, k: nat, db: Database, db1: Database,
                             s: Valuation, l: Literal)
    requires Tracks(rule, r, used) && k < |r.atoms| && Core(rule, k) && SliceLiteral(rule, r, k, l)
    requires ReducesOn(rule, r, db, db1)
    requires WellShaped(rule) && BodySolution(RelationalPart(rule), db, s)
    requires BodyHolds(db, Outputs(Calls(rule.body)), rule.body, s)
    ensures LiteralHolds(db1, {}, l, s)
  {
    assert CoresHold(rule, r, db1, s);
    if l in rule.body && !l.Call? {
      assert LiteralHolds(db, Outputs(Calls(rule.body)), l, s);
      if l.Compare? {
        CoreUnbound(rule, k);
      }
    } else if l.Positive? && l.atom != r.atoms[k] {
      var j :| 0 <= j < |r.atoms| && Core(rule, j) && l.atom == Masked(r.atoms[j], Variables(r.atoms[k]));
      MaskedHolds(db1, r.atoms[j], Variables(r.atoms[k]), s);
    }
  }

  lemma CoreUnbound(rule: Rule, k: nat)
    requires WellShaped(rule) && k < |Positives(rule.body)|
    ensures Variables(Positives(rule.body)[k]) !! Outputs(Calls(rule.body))
  {
    RelationalUnbound(rule);
  }

  /** Behind the atom reading the slice stands a solution of the slice that agrees on the atom's variables. */
  lemma SliceBehind(functions: Functions, rule: Rule, r: Reduction, k: nat, slice: Rule, r': Reduction, db1: Database,
                    db2: Database, s: Valuation)
    returns (t: Valuation)
    requires k < |r.atoms| == |Positives(rule.body)| && IsSlice(rule, r, k, slice, r')
    requires Staged(functions, slice, db1, db2)
    requires AtomHolds(db2, r'.atoms[k], s)
    ensures BodyHolds(db1, {}, slice.body, t) && AgreeOn(s, t, Variables(Positives(rule.body)[k]))
  {
    var xs := OrderedVariables(Positives(rule.body)[k]);
    SliceHolds(functions, slice, xs, db1, db2, s);
    t :| BodySolution(RelationalPart(slice), db1, t) && EvaluateSolution(functions, slice, t) == Kept(Image(s, xs));
    PlainSlice(functions, rule, r, k, slice, r', t);
    forall x | x in Variables(Positives(rule.body)[k])
      ensures At(s, x) == At(t, x)
    {
      var i :| 0 <= i < |xs| && xs[i] == x;
      assert Image(s, xs)[i] == Image(t, xs)[i];
    }
    SliceWithoutCalls(rule, r, k, slice, r');
    SolutionByLiterals(slice, db1, t);
  }

  /** The slice's name is new: nothing read so far has it. */
  ghost predicate Fresh(rule: Rule, used: set<string>, name: string) {
    name !in used && forall l :: l in rule.body && (l.Positive? || l.Negative?) ==> l.atom.relation != name
  }

  lemma StagedUntouched(functions: Functions, rule: Rule, slice: Rule, used: set<string>, db: Database, db1: Database,
                        db2: Database)
    requires Untouched(rule, db, db1) && Staged(functions, slice, db1, db2) && Fresh(rule, used, slice.name)
    ensures Untouched(rule, db, db2)
  {
  }

  /** A current atom other than the reduced one holds after staging when it held before. */
  lemma OthersHold(functions: Functions, rule: Rule, r: Reduction, used: set<string>, k: nat, slice: Rule,
                   r': Reduction, db1: Database, db2: Database, s: Valuation, j: nat)
    requires Tracks(rule, r, used) && k < |r.atoms| && IsSlice(rule, r, k, slice, r')
    requires Staged(functions, slice, db1, db2) && Fresh(rule, used, slice.name)
    requires j < |r.atoms|
    ensures AtomHolds(db2, r.atoms[j], s) <==> AtomHolds(db1, r.atoms[j], s)
  {
    assert Positive(Positives(rule.body)[j]) in rule.body;
    AtomElsewhere(functions, slice, db1, db2, r.atoms[j], s);
  }

  lemma SliceKeepsSolutions(functions: Functions, rule: Rule, r: Reduction, used: set<string>, k: nat, slice: Rule,
                            r': Reduction,
                            db: Database, db1: Database, db2: Database, s: Valuation)
    requires WellShaped(rule) && Tracks(rule, r, used) && k < |r.atoms| && IsSlice(rule, r, k, slice, r')
    requires Fresh(rule, used, slice.name)
    requires ReducesOn(rule, r, db, db1) && Staged(functions, slice, db1, db2)
    requires BodySolution(RelationalPart(rule), db, s)
    ensures CoresHold(rule, r', db2, s)
  {
    assert CoresHold(rule, r, db1, s);
    SolutionSolvesSlice(rule, r, used, k, slice, r', db, db1, s);
    PlainSlice(functions, rule, r, k, slice, r', s);
    SliceHolds(functions, slice, OrderedVariables(Positives(rule.body)[k]), db1, db2, s);
    forall j | 0 <= j < |r'.atoms| && Core(rule, j)
      ensures AtomHolds(db2, r'.atoms[j], s)
    {
      if j != k {
        OthersHold(functions, rule, r, used, k, slice, r', db1, db2, s, j);
      }
    }
  }

  lemma SliceImpliesTaken(functions: Functions, rule: Rule, r: Reduction, used: set<string>, k: nat, slice: Rule,
                          r': Reduction,
                          db: Database, db1: Database, db2: Database, s: Valuation)
    requires Tracks(rule, r, used) && k < |r.atoms| && IsSlice(rule, r, k, slice, r') && Fresh(rule, used, slice.name)
    requires ReducesOn(rule, r, db, db1) && Staged(functions, slice, db1, db2)
    requires CoresHold(rule, r', db2, s)
    ensures TakenHold(rule, r', db, s)
  {
    var t := SliceBehind(functions, rule, r, k, slice, r', db1, db2, s);
    assert LiteralHolds(db1, {}, Positive(r.atoms[k]), t);
    AtomHoldsAgrees(db1, r.atoms[k], s, t);
    forall j | 0 <= j < |r.atoms| && Core(rule, j)
      ensures AtomHolds(db1, r.atoms[j], s)
    {
      if j != k {
        assert r'.atoms[j] == r.atoms[j];
        OthersHold(functions, rule, r, used, k, slice, r', db1, db2, s, j);
      }
    }
    assert CoresHold(rule, r, db1, s) && TakenHold(rule, r, db, s);
    forall l | l in rule.body && TakenBy(rule, slice, k, l)
      ensures LiteralHolds(db, {}, l, s)
    {
      assert LiteralHolds(db1, {}, l, t);
      LiteralAgrees(db1, {}, l, s, t);
    }
    forall i | 0 <= i < |r'.nonCore| && !r'.nonCore[i]
      ensures AtomHolds(db, Positives(rule.body)[i], s)
    {
      var l := Positive(Positives(rule.body)[i]);
      assert l in rule.body;
      if r.nonCore[i] {
        assert TakenBy(rule, slice, k, l) && LiteralHolds(db, {}, l, s);
      }
    }
    forall n | 0 <= n < |r'.negation| && !r'.negation[n]
      ensures !AtomHolds(db, Negatives(rule.body)[n], s)
    {
      var l := Negative(Negatives(rule.body)[n]);
      assert l in rule.body;
      if r.negation[n] {
        assert TakenBy(rule, slice, k, l) && LiteralHolds(db, {}, l, s);
      }
    }
  }

  /** Every slice preserves the reduction. */
  lemma ReducesStep(rule: Rule, slices: seq<Rule>, r: Reduction, used: set<string>, k: nat, slice: Rule, r': Reduction)
    requires WellShaped(rule) && Tracks(rule, r, used) && Reduces(rule, slices, r)
    requires k < |r.atoms| && IsSlice(rule, r, k, slice, r') && Fresh(rule, used, slice.name)
    ensures Reduces(rule, slices + [slice], r') && Tracks(rule, r', used + {slice.name})
  {
    var n, slices' := |slices|, slices + [slice];
    SliceAtomVariables(slice.name, OrderedVariables(Positives(rule.body)[k]));
    forall functions, dbs | StagedAll(functions, slices', dbs)
      ensures ReducesOn(rule, r', dbs[0], dbs[n + 1])
    {
      StagedLast(functions, slices, slice, dbs);
      assert ReducesOn(rule, r, dbs[..n + 1][0], dbs[..n + 1][n]);
      ReducesOnStep(functions, rule, r, used, k, slice, r', dbs[0], dbs[n], dbs[n + 1]);
    }
  }

  lemma ReducesOnStep(functions: Functions, rule: Rule, r: Reduction, used: set<string>, k: nat, slice: Rule,
                      r': Reduction,
                      db: Database, db1: Database, db2: Database)
    requires WellShaped(rule) && Tracks(rule, r, used) && k < |r.atoms| && IsSlice(rule, r, k, slice, r')
    requires Fresh(rule, used, slice.name)
    requires ReducesOn(rule, r, db, db1) && Staged(functions, slice, db1, db2)
    ensures ReducesOn(rule, r', db, db2)
  {
    StagedUntouched(functions, rule, slice, used, db, db1, db2);
    forall s | BodySolution(RelationalPart(rule), db, s)
      ensures CoresHold(rule, r', db2, s)
    {
      SliceKeepsSolutions(functions, rule, r, used, k, slice, r', db, db1, db2, s);
    }
    forall s | CoresHold(rule, r', db2, s)
      ensures TakenHold(rule, r', db, s)
    {
      SliceImpliesTaken(functions, rule, r, used, k, slice, r', db, db1, db2, s);
    }
  }

  /* ------------------------------------------------------------------ */
  /* What a slice semijoins                                               */
  /* ------------------------------------------------------------------ */

  /** The two atoms share a variable. */
  ghost predicate Shares(rule: Rule, i: nat, j: nat)
    requires i < |Positives(rule.body)| && j < |Positives(rule.body)|
  {
    Variables(Positives(rule.body)[i]) * Variables(Positives(rule.body)[j]) != {}
  }

  /** The row has the atom's constants, and the valuation's values of those of its variables that are in the set. */
  predicate RowAgrees(atom: Atom, row: Row, xs: set<Var>, s: Valuation) {
    |row| == |atom.args| && forall p :: 0 <= p < |row| ==> CellAgrees(atom.args[p], row[p], xs, s)
  }

  predicate CellAgrees(arg: Arg, cell: Val, xs: set<Var>, s: Valuation) {
    match arg
    case Variable(x) => x in xs ==> cell == At(s, x)
    case Constant(value) => cell == value
    case Wildcard => true
  }

  ghost predicate SomeRowAgrees(db: Database, atom: Atom, xs: set<Var>, s: Valuation) {
    exists row :: row in Rows(db, atom.relation) && RowAgrees(atom, row, xs, s)
  }

  /** Whatever the first atom holds on, some row of the second one's relation agrees with on the shared variables. */
  ghost predicate SemijoinedWith(db: Database, a: Atom, b: Atom, xs: set<Var>) {
    forall s :: AtomHolds(db, a, s) ==> SomeRowAgrees(db, b, xs, s)
  }

  lemma MaskedAgrees(db: Database, atom: Atom, xs: set<Var>, s: Valuation)
    requires AtomHolds(db, Masked(atom, xs), s)
    ensures SomeRowAgrees(db, atom, xs, s)
  {
    var row :| row in Rows(db, atom.relation) && Matches(Masked(atom, xs), s, row);
    forall p | 0 <= p < |row|
      ensures CellAgrees(atom.args[p], row[p], xs, s)
    {
      assert MatchesArg(Masked(atom, xs).args[p], s, row[p]);
    }
    assert RowAgrees(atom, row, xs, s);
  }

  lemma AgreesElsewhere(db: Database, db': Database, atom: Atom, xs: set<Var>, s: Valuation, t: Valuation)
    requires Rows(db', atom.relation) == Rows(db, atom.relation) && AgreeOn(s, t, xs) && SomeRowAgrees(db, atom, xs, t)
    ensures SomeRowAgrees(db', atom, xs, s)
  {
    var row :| row in Rows(db, atom.relation) && RowAgrees(atom, row, xs, t);
    forall p | 0 <= p < |row|
      ensures CellAgrees(atom.args[p], row[p], xs, s)
    {
      assert CellAgrees(atom.args[p], row[p], xs, t);
    }
    assert RowAgrees(atom, row, xs, s);
  }

  /** An atom without repeated variables that some row agrees with, holds on a valuation that agrees. */
  lemma AgreesHolds(db: Database, atom: Atom, xs: set<Var>, s: Valuation) returns (t: Valuation)
    requires SomeRowAgrees(db, atom, xs, s)
    requires forall p, q :: 0 <= p < q < |atom.args| && atom.args[p].Variable? ==> atom.args[p] != atom.args[q]
    ensures AtomHolds(db, atom, t) && AgreeOn(s, t, xs)
  {
    var row :| row in Rows(db, atom.relation) && RowAgrees(atom, row, xs, s);
    var cells := map x | x in Variables(atom) :: row[ColumnOf(atom, x)];
    t := Combine(cells, s, Variables(atom));
    forall x | x in xs
      ensures At(s, x) == At(t, x)
    {
      if x in Variables(atom) {
        assert CellAgrees(atom.args[ColumnOf(atom, x)], row[ColumnOf(atom, x)], xs, s);
      }
    }
    forall p | 0 <= p < |row|
      ensures MatchesArg(atom.args[p], t, row[p])
    {
      assert CellAgrees(atom.args[p], row[p], xs, s);
      if atom.args[p].Variable? {
        assert ColumnOf(atom, atom.args[p].name) == p;
      }
    }
    assert Matches(atom, t, row);
  }

  ghost function ColumnOf(atom: Atom, x: Var): (p: nat)
    requires x in Variables(atom)
    ensures p < |atom.args| && atom.args[p] == Variable(x)
  {
    assert Variable(x) in atom.args;
    var p :| 0 <= p < |atom.args| && atom.args[p] == Variable(x);
    p
  }

  /** The slice holds every earlier core atom that shares a variable with its own, masked to the shared ones. */
  ghost predicate HoldsSemijoins(rule: Rule, r: Reduction, k: nat, prior: seq<nat>, slice: Rule)
    requires k < |r.atoms| == |Positives(rule.body)|
  {
    forall j :: j in prior && j < |r.atoms| && Shares(rule, j, k) ==>
      Positive(Masked(r.atoms[j], Variables(Positives(rule.body)[k]))) in slice.body
  }

  /** No earlier core atom shares a variable with this one, and it has nothing to take over. */
  ghost predicate NothingToReduce(rule: Rule, r: Reduction, k: nat, prior: seq<nat>)
    requires k < |Positives(rule.body)| == |r.nonCore| && |r.negation| == |Negatives(rule.body)|
  {
    var xs := Variables(Positives(rule.body)[k]);
    && (forall j :: j in prior && j < |Positives(rule.body)| ==> !Shares(rule, j, k))
    && (forall i :: 0 <= i < |r.nonCore| && r.nonCore[i] ==> !(Variables(Positives(rule.body)[i]) <= xs))
    && (forall n :: 0 <= n < |r.negation| && r.negation[n] ==> !(Variables(Negatives(rule.body)[n]) <= xs))
    && (forall c :: c in RelationalPart(rule).comparisons ==> !(ComparisonVariables(c) <= xs))
  }

  /** In a pass, every visited core atom is semijoined with the ones visited before it that share a variable. */
  ghost predicate JoinedOn(rule: Rule, visited: seq<nat>, r: Reduction, db: Database)
    requires |r.atoms| == |Positives(rule.body)|
  {
    forall p, q :: 0 <= p < q < |visited| ==> PairJoined(rule, visited[p], visited[q], r, r, db)
  }

  /** The rows of the second atom, as reduced now, agree with rows the first one has by the given state. */
  ghost predicate PairJoined(rule: Rule, i: nat, j: nat, before: Reduction, now: Reduction, db: Database)
    requires |before.atoms| == |now.atoms| == |Positives(rule.body)|
  {
    i < |now.atoms| && j < |now.atoms| && Shares(rule, i, j) ==>
      SemijoinedWith(db, now.atoms[j], before.atoms[i], Variables(Positives(rule.body)[j]))
  }

  ghost predicate Joined(rule: Rule, slices: seq<Rule>, visited: seq<nat>, r: Reduction)
    requires |r.atoms| == |Positives(rule.body)|
  {
    forall functions, dbs :: StagedAll(functions, slices, dbs) ==> JoinedOn(rule, visited, r, dbs[|slices|])
  }

  /** No atom holds on more than it did in an earlier state. */
  ghost predicate ShrunkOn(first: Reduction, r: Reduction, db: Database) {
    |first.atoms| == |r.atoms| && forall k, s :: 0 <= k < |r.atoms| && AtomHolds(db, r.atoms[k], s) ==> AtomHolds(db, first.atoms[k], s)
  }

  ghost predicate Shrunk(slices: seq<Rule>, first: Reduction, r: Reduction) {
    forall functions, dbs :: StagedAll(functions, slices, dbs) ==> ShrunkOn(first, r, dbs[|slices|])
  }

  /** Staging a new slice does not change what earlier atoms hold on. */
  lemma NewSliceKeeps(functions: Functions, rule: Rule, r: Reduction, used: set<string>, slice: Rule, db1: Database,
                      db2: Database, j: nat)
    requires Tracks(rule, r, used) && Staged(functions, slice, db1, db2) && Fresh(rule, used, slice.name)
    requires j < |r.atoms|
    ensures Rows(db2, r.atoms[j].relation) == Rows(db1, r.atoms[j].relation)
    ensures forall s :: AtomHolds(db2, r.atoms[j], s) <==> AtomHolds(db1, r.atoms[j], s)
  {
    assert Positive(Positives(rule.body)[j]) in rule.body;
    forall s
      ensures AtomHolds(db2, r.atoms[j], s) <==> AtomHolds(db1, r.atoms[j], s)
    {
      AtomElsewhere(functions, slice, db1, db2, r.atoms[j], s);
    }
  }

  lemma PairKept(functions: Functions, rule: Rule, before: Reduction, now: Reduction, used: set<string>, slice: Rule,
                 db1: Database, db2: Database, i: nat, j: nat)
    requires Tracks(rule, before, used) && Tracks(rule, now, used) && Staged(functions, slice, db1, db2)
    requires Fresh(rule, used, slice.name) && PairJoined(rule, i, j, before, now, db1)
    ensures PairJoined(rule, i, j, before, now, db2)
  {
    if i < |now.atoms| && j < |now.atoms| && Shares(rule, i, j) {
      var xs := Variables(Positives(rule.body)[j]);
      NewSliceKeeps(functions, rule, before, used, slice, db1, db2, i);
      NewSliceKeeps(functions, rule, now, used, slice, db1, db2, j);
      forall s | AtomHolds(db2, now.atoms[j], s)
        ensures SomeRowAgrees(db2, before.atoms[i], xs, s)
      {
        AgreesElsewhere(db1, db2, before.atoms[i], xs, s, s);
      }
    }
  }

  /** What the reduced atom holds on, it held on before. */
  lemma SliceShrinks(functions: Functions, rule: Rule, r: Reduction, used: set<string>, k: nat, slice: Rule,
                     r': Reduction, db1: Database, db2: Database, s: Valuation) returns (t: Valuation)
    requires Tracks(rule, r, used) && k < |r.atoms| && IsSlice(rule, r, k, slice, r')
    requires Staged(functions, slice, db1, db2) && AtomHolds(db2, r'.atoms[k], s)
    ensures BodyHolds(db1, {}, slice.body, t) && AgreeOn(s, t, Variables(Positives(rule.body)[k]))
    ensures AtomHolds(db1, r.atoms[k], s)
  {
    t := SliceBehind(functions, rule, r, k, slice, r', db1, db2, s);
    assert LiteralHolds(db1, {}, Positive(r.atoms[k]), t);
    AtomHoldsAgrees(db1, r.atoms[k], s, t);
  }

  /** The reduced atom is semijoined with an earlier one. */
  lemma SliceSemijoins(functions: Functions, rule: Rule, r: Reduction, used: set<string>, k: nat, slice: Rule,
                       r': Reduction, prior: seq<nat>, db1: Database, db2: Database, j: nat)
    requires Tracks(rule, r, used) && k < |r.atoms| && IsSlice(rule, r, k, slice, r')
    requires HoldsSemijoins(rule, r, k, prior, slice)
    requires Staged(functions, slice, db1, db2) && Fresh(rule, used, slice.name) && j in prior && j != k
    ensures |r'.atoms| == |r.atoms| && PairJoined(rule, j, k, r', r', db2)
  {
    if j < |r.atoms| && Shares(rule, j, k) {
      var xs := Variables(Positives(rule.body)[k]);
      NewSliceKeeps(functions, rule, r, used, slice, db1, db2, j);
      forall s | AtomHolds(db2, r'.atoms[k], s)
        ensures SomeRowAgrees(db2, r'.atoms[j], xs, s)
      {
        var t := SliceShrinks(functions, rule, r, used, k, slice, r', db1, db2, s);
        assert LiteralHolds(db1, {}, Positive(Masked(r.atoms[j], xs)), t);
        MaskedAgrees(db1, r.atoms[j], xs, t);
        AgreesElsewhere(db1, db2, r.atoms[j], xs, s, t);
      }
    }
  }

  /* ------------------------------------------------------------------ */
  /* The passes                                                           */
  /* ------------------------------------------------------------------ */

  /** Literals every one of which a slice for core atom `k` may hold. */
  ghost predicate SliceLiterals(rule: Rule, r: Reduction, k: nat, body: seq<Literal>)
    requires k < |r.atoms| == |Positives(rule.body)|
  {
    forall i :: 0 <= i < |body| ==> SliceLiteral(rule, r, k, body[i])
  }

  function PositiveLiterals(atoms: seq<Atom>, ids: seq<nat>): (r: seq<Literal>)
    requires forall k :: 0 <= k < |ids| ==> ids[k] < |atoms|
    ensures |r| == |ids| && forall k :: 0 <= k < |ids| ==> r[k] == Positive(atoms[ids[k]])
  {
    seq(|ids|, k requires 0 <= k < |ids| => Positive(atoms[ids[k]]))
  }

  function NegativeLiterals(atoms: seq<Atom>, ids: seq<nat>): (r: seq<Literal>)
    requires forall k :: 0 <= k < |ids| ==> ids[k] < |atoms|
    ensures |r| == |ids| && forall k :: 0 <= k < |ids| ==> r[k] == Negative(atoms[ids[k]])
  {
    seq(|ids|, k requires 0 <= k < |ids| => Negative(atoms[ids[k]]))
  }

  function ContainedComparisons(cs: seq<Comparison<Var>>, xs: set<Var>): (r: seq<Literal>)
    ensures forall l :: l in r <==> l.Compare? && l.comparison in cs && ComparisonVariables(l.comparison) <= xs
  {
    if cs == [] then
      []
    else
      var front, last := ContainedComparisons(cs[..|cs| - 1], xs), cs[|cs| - 1];
      assert cs == cs[..|cs| - 1] + [last];
      if ComparisonVariables(last) <= xs then front + [Compare(last)] else front
  }

  /** The subsumed atoms and negations just consumed, and the comparisons, that the core atom's variables bind. */
  function Stitched(rule: Rule, k: nat, subatoms: seq<nat>, negated: seq<nat>): seq<Literal>
    requires k < |Positives(rule.body)|
    requires forall i :: 0 <= i < |subatoms| ==> subatoms[i] < |Positives(rule.body)|
    requires forall i :: 0 <= i < |negated| ==> negated[i] < |Negatives(rule.body)|
  {
    PositiveLiterals(Positives(rule.body), subatoms) + NegativeLiterals(Negatives(rule.body), negated)
      + ContainedComparisons(RelationalPart(rule).comparisons, Variables(Positives(rule.body)[k]))
  }

  lemma StitchedLiteral(rule: Rule, r: Reduction, k: nat, subatoms: seq<nat>, negated: seq<nat>, l: Literal)
    requires k < |r.atoms| == |Positives(rule.body)| && Variables(r.atoms[k]) == Variables(Positives(rule.body)[k])
    requires forall i :: 0 <= i < |subatoms| ==>
      subatoms[i] < |Positives(rule.body)| && Variables(Positives(rule.body)[subatoms[i]]) <= Variables(r.atoms[k])
    requires forall i :: 0 <= i < |negated| ==>
      negated[i] < |Negatives(rule.body)| && Variables(Negatives(rule.body)[negated[i]]) <= Variables(r.atoms[k])
    requires l in Stitched(rule, k, subatoms, negated)
    ensures SliceLiteral(rule, r, k, l)
  {
    if l in PositiveLiterals(Positives(rule.body), subatoms) {
      var i :| 0 <= i < |subatoms| && l == Positive(Positives(rule.body)[subatoms[i]]);
    } else if l in NegativeLiterals(Negatives(rule.body), negated) {
      var i :| 0 <= i < |negated| && l == Negative(Negatives(rule.body)[negated[i]]);
    } else {
      var i: nat :| i < |RelationalPart(rule).comparisons| && RelationalPart(rule).comparisons[i] == l.comparison;
      RelationalMember(rule, i);
    }
  }

  /** The earlier core atoms that share a variable, masked to the shared ones. */
  method Semijoins(rule: Rule, k: nat, prior: seq<nat>, atoms: seq<Atom>, ghost r: Reduction)
    returns (body: seq<Literal>)
    requires r.atoms == atoms && k < |atoms| == |Positives(rule.body)|
    requires Variables(atoms[k]) == Variables(Positives(rule.body)[k])
    requires forall j :: j in prior ==> j < |atoms| && Core(rule, j)
    ensures SliceLiterals(rule, r, k, body) && SemijoinsOf(rule, r, k, prior, |prior|, body)
  {
    var xs := Variables(Positives(rule.body)[k]);
    body := [];
    for i := 0 to |prior|
      invariant SliceLiterals(rule, r, k, body) && SemijoinsOf(rule, r, k, prior, i, body)
    {
      var j := prior[i];
      assert j in prior;
      if Variables(Positives(rule.body)[j]) * xs != {} {
        assert SliceLiteral(rule, r, k, Positive(Masked(atoms[j], xs)));
        SemijoinsMore(rule, r, k, prior, i, body);
        body := body + [Positive(Masked(atoms[j], xs))];
      }
    }
  }

  /** The semijoins with the first `n` earlier atoms. */
  ghost predicate SemijoinsOf(rule: Rule, r: Reduction, k: nat, prior: seq<nat>, n: nat, body: seq<Literal>)
    requires k < |r.atoms| == |Positives(rule.body)| && n <= |prior|
  {
    forall i :: 0 <= i < n && prior[i] < |r.atoms| && Shares(rule, prior[i], k) ==>
      Positive(Masked(r.atoms[prior[i]], Variables(Positives(rule.body)[k]))) in body
  }

  lemma SemijoinsMore(rule: Rule, r: Reduction, k: nat, prior: seq<nat>, n: nat, body: seq<Literal>)
    requires k < |r.atoms| == |Positives(rule.body)| && n < |prior| && prior[n] < |r.atoms|
    requires SemijoinsOf(rule, r, k, prior, n, body)
    ensures SemijoinsOf(rule, r, k, prior, n + 1, body + [Positive(Masked(r.atoms[prior[n]], Variables(Positives(rule.body)[k])))])
  {
    var more := body + [Positive(Masked(r.atoms[prior[n]], Variables(Positives(rule.body)[k])))];
    assert more[|body|] == Positive(Masked(r.atoms[prior[n]], Variables(Positives(rule.body)[k])));
  }

  lemma SemijoinsHeld(rule: Rule, r: Reduction, k: nat, prior: seq<nat>, semijoins: seq<Literal>, slice: Rule)
    requires k < |r.atoms| == |Positives(rule.body)| && SemijoinsOf(rule, r, k, prior, |prior|, semijoins)
    requires forall l :: l in semijoins ==> l in slice.body
    ensures HoldsSemijoins(rule, r, k, prior, slice)
    ensures semijoins == [] ==> forall j :: j in prior && j < |r.atoms| ==> !Shares(rule, j, k)
  {
    forall j | j in prior && j < |r.atoms| && Shares(rule, j, k)
      ensures Positive(Masked(r.atoms[j], Variables(Positives(rule.body)[k]))) in semijoins
    {
      var i :| 0 <= i < |prior| && prior[i] == j;
    }
  }

  ghost function StateOf(atoms: array<Atom>, nonCore: array<bool>, negation: array<bool>): Reduction
    reads atoms, nonCore, negation
  {
    Reduction(atoms[..], nonCore[..], negation[..])
  }

  /** What reducing core atom `k` does to the state: one slice, which semijoins it with the earlier atoms that share a
      variable - or nothing, if there are none and it takes over nothing. Either way its subsumed atoms are consumed. */
  ghost predicate ReducedBy(rule: Rule, k: nat, prior: seq<nat>, name: string, r: Reduction, slice: Option<Rule>,
                            r': Reduction)
  {
    && k < |r.atoms| == |Positives(rule.body)| == |r.nonCore| == |r'.nonCore| && |r.negation| == |Negatives(rule.body)|
    && (match slice
        case None => r' == r && NothingToReduce(rule, r, k, prior)
        case Some(rule') => rule'.name == name && IsSlice(rule, r, k, rule', r') && HoldsSemijoins(rule, r, k, prior, rule'))
    && (forall i :: 0 <= i < |r.nonCore| ==>
          r'.nonCore[i] == (r.nonCore[i] && !(Variables(Positives(rule.body)[i]) <= Variables(Positives(rule.body)[k]))))
  }

  /** The active atoms the variables bind were taken, and only they were deactivated. */
  ghost predicate Took(atoms: seq<Atom>, xs: set<Var>, before: seq<bool>, after: seq<bool>, taken: seq<nat>) {
    && |before| == |after| == |atoms|
    && (forall k :: 0 <= k < |taken| ==> taken[k] < |atoms| && Variables(atoms[taken[k]]) <= xs)
    && (forall i: nat :: i < |atoms| && before[i] && Variables(atoms[i]) <= xs ==> i in taken)
    && (forall i: nat :: i < |atoms| ==> after[i] == (before[i] && !(Variables(atoms[i]) <= xs)))
  }

  lemma PositiveTaken(atoms: seq<Atom>, taken: seq<nat>, i: nat)
    requires i in taken && forall k :: 0 <= k < |taken| ==> taken[k] < |atoms|
    ensures i < |atoms| && Positive(atoms[i]) in PositiveLiterals(atoms, taken)
  {
    var k :| 0 <= k < |taken| && taken[k] == i;
    assert PositiveLiterals(atoms, taken)[k] == Positive(atoms[i]);
  }

  lemma NegativeTaken(atoms: seq<Atom>, taken: seq<nat>, i: nat)
    requires i in taken && forall k :: 0 <= k < |taken| ==> taken[k] < |atoms|
    ensures i < |atoms| && Negative(atoms[i]) in NegativeLiterals(atoms, taken)
  {
    var k :| 0 <= k < |taken| && taken[k] == i;
    assert NegativeLiterals(atoms, taken)[k] == Negative(atoms[i]);
  }

  lemma SliceBuilt(rule: Rule, r: Reduction, k: nat, slice: Rule, r': Reduction, semijoins: seq<Literal>,
                   subatoms: seq<nat>, negated: seq<nat>)
    requires k < |r.atoms| == |Positives(rule.body)| && Core(rule, k)
    requires Variables(r.atoms[k]) == Variables(Positives(rule.body)[k])
    requires Took(Positives(rule.body), Variables(Positives(rule.body)[k]), r.nonCore, r'.nonCore, subatoms)
    requires Took(Negatives(rule.body), Variables(Positives(rule.body)[k]), r.negation, r'.negation, negated)
    requires slice.head == HeadOf(OrderedVariables(Positives(rule.body)[k]))
    requires slice.body == [Positive(r.atoms[k])] + Stitched(rule, k, subatoms, negated) + semijoins
    requires SliceLiterals(rule, r, k, semijoins)
    requires r'.atoms == r.atoms[k := SliceAtom(slice.name, OrderedVariables(Positives(rule.body)[k]))]
    ensures IsSlice(rule, r, k, slice, r')
  {
    assert slice.body[0] == Positive(r.atoms[k]);
    forall l | l in slice.body
      ensures SliceLiteral(rule, r, k, l)
    {
      if l in Stitched(rule, k, subatoms, negated) {
        StitchedLiteral(rule, r, k, subatoms, negated, l);
      } else if l in semijoins {
        var i :| 0 <= i < |semijoins| && semijoins[i] == l;
      } else {
        assert l == Positive(r.atoms[k]);
      }
    }
    forall i: nat | i < |r.nonCore| && r'.nonCore[i] != r.nonCore[i]
      ensures TakenBy(rule, slice, k, Positive(Positives(rule.body)[i]))
    {
      PositiveTaken(Positives(rule.body), subatoms, i);
      assert Positive(Positives(rule.body)[i]) in Stitched(rule, k, subatoms, negated);
    }
    forall n: nat | n < |r.negation| && r'.negation[n] != r.negation[n]
      ensures TakenBy(rule, slice, k, Negative(Negatives(rule.body)[n]))
    {
      NegativeTaken(Negatives(rule.body), negated, n);
      assert Negative(Negatives(rule.body)[n]) in Stitched(rule, k, subatoms, negated);
    }
    assert HoldsComparisons(rule, slice, k) by {
      forall c | c in RelationalPart(rule).comparisons && ComparisonVariables(c) <= Variables(Positives(rule.body)[k])
        ensures Compare(c) in slice.body
      {
        assert Compare(c) in ContainedComparisons(RelationalPart(rule).comparisons, Variables(Positives(rule.body)[k]));
        assert Compare(c) in Stitched(rule, k, subatoms, negated);
      }
    }
  }

  /** Reduces one core atom: the slice that semijoins it, unless that would hold nothing but the atom itself. */
  method ReduceAtom(rule: Rule, k: nat, prior: seq<nat>, name: string, atoms: array<Atom>, nonCore: array<bool>,
                    negation: array<bool>, ghost used: set<string>)
    returns (slice: Option<Rule>)
    requires nonCore != negation && Tracks(rule, StateOf(atoms, nonCore, negation), used) && k < atoms.Length
    requires Core(rule, k)
    requires forall j :: j in prior ==> j < atoms.Length && Core(rule, j)
    modifies atoms, nonCore, negation
    ensures ReducedBy(rule, k, prior, name, old(StateOf(atoms, nonCore, negation)), slice, StateOf(atoms, nonCore, negation))
  {
    ghost var r := StateOf(atoms, nonCore, negation);
    var subatoms, negated := Consume(rule, k, nonCore, negation);
    var semijoins := Semijoins(rule, k, prior, atoms[..], r);
    var body := [Positive(atoms[k])] + Stitched(rule, k, subatoms, negated) + semijoins;
    if |body| == 1 {
      NothingTaken(rule, k, subatoms, negated, r, nonCore[..], negation[..]);
      SemijoinsHeld(rule, r, k, prior, semijoins, Rule(name, [], semijoins));
      return None;
    }
    slice := Some(Rule(name, HeadOf(OrderedVariables(Positives(rule.body)[k])), body));
    atoms[k] := SliceAtom(name, OrderedVariables(Positives(rule.body)[k]));
    SliceBuilt(rule, r, k, slice.value, StateOf(atoms, nonCore, negation), semijoins, subatoms, negated);
    SemijoinsHeld(rule, r, k, prior, semijoins, slice.value);
  }

  lemma NothingTaken(rule: Rule, k: nat, subatoms: seq<nat>, negated: seq<nat>, r: Reduction, nonCore: seq<bool>,
                     negation: seq<bool>)
    requires k < |Positives(rule.body)|
    requires Took(Positives(rule.body), Variables(Positives(rule.body)[k]), r.nonCore, nonCore, subatoms)
    requires Took(Negatives(rule.body), Variables(Positives(rule.body)[k]), r.negation, negation, negated)
    requires Stitched(rule, k, subatoms, negated) == []
    ensures nonCore == r.nonCore && negation == r.negation
    ensures forall i :: 0 <= i < |r.nonCore| && r.nonCore[i] ==>
      !(Variables(Positives(rule.body)[i]) <= Variables(Positives(rule.body)[k]))
    ensures forall n :: 0 <= n < |r.negation| && r.negation[n] ==>
      !(Variables(Negatives(rule.body)[n]) <= Variables(Positives(rule.body)[k]))
    ensures forall c :: c in RelationalPart(rule).comparisons ==>
      !(ComparisonVariables(c) <= Variables(Positives(rule.body)[k]))
  {
    assert subatoms == [] && negated == [];
    forall c | c in RelationalPart(rule).comparisons
      ensures !(ComparisonVariables(c) <= Variables(Positives(rule.body)[k]))
    {
      assert Compare(c) !in ContainedComparisons(RelationalPart(rule).comparisons, Variables(Positives(rule.body)[k]));
    }
  }

  method Consume(rule: Rule, k: nat, nonCore: array<bool>, negation: array<bool>)
    returns (subatoms: seq<nat>, negated: seq<nat>)
    requires nonCore != negation && k < nonCore.Length == |Positives(rule.body)|
    requires negation.Length == |Negatives(rule.body)|
    modifies nonCore, negation
    ensures Took(Positives(rule.body), Variables(Positives(rule.body)[k]), old(nonCore[..]), nonCore[..], subatoms)
    ensures Took(Negatives(rule.body), Variables(Positives(rule.body)[k]), old(negation[..]), negation[..], negated)
  {
    var xs := Variables(Positives(rule.body)[k]);
    subatoms := TakeContained(Positives(rule.body), xs, nonCore);
    negated := TakeContained(Negatives(rule.body), xs, negation);
    assert forall i :: 0 <= i < |subatoms| ==> subatoms[i] in subatoms;
    assert forall i :: 0 <= i < |negated| ==> negated[i] in negated;
  }

  function UsedNames(names: nat -> string, m: nat): set<string> {
    set i | 0 <= i < m :: names(i)
  }

  /** A slice is a well-shaped rule that computes nothing: it has no calls, and its head lists variables. */
  ghost predicate SliceShaped(slice: Rule) {
    WellShaped(slice) && Calls(slice.body) == [] && ComputedComparisons(slice) == [] && exists xs :: slice.head == HeadOf(xs)
  }

  lemma SliceNegatives(rule: Rule, r: Reduction, k: nat, slice: Rule)
    requires k < |r.atoms| == |Positives(rule.body)| && forall l :: l in slice.body ==> SliceLiteral(rule, r, k, l)
    ensures forall i :: 0 <= i < |Negatives(slice.body)| ==>
      Variables(Negatives(slice.body)[i]) <= Variables(r.atoms[k])
  {
    forall i | 0 <= i < |Negatives(slice.body)|
      ensures Variables(Negatives(slice.body)[i]) <= Variables(r.atoms[k])
    {
      assert SliceLiteral(rule, r, k, Negative(Negatives(slice.body)[i]));
    }
  }

  lemma SliceComparisons(rule: Rule, r: Reduction, k: nat, slice: Rule)
    requires k < |r.atoms| == |Positives(rule.body)| && forall l :: l in slice.body ==> SliceLiteral(rule, r, k, l)
    ensures forall i :: 0 <= i < |RelationalPart(slice).comparisons| ==>
      ComparisonVariables(RelationalPart(slice).comparisons[i]) <= Variables(r.atoms[k])
  {
    forall i: nat | i < |RelationalPart(slice).comparisons|
      ensures ComparisonVariables(RelationalPart(slice).comparisons[i]) <= Variables(r.atoms[k])
    {
      RelationalMember(slice, i);
      assert SliceLiteral(rule, r, k, Compare(RelationalPart(slice).comparisons[i]));
    }
  }

  /** A rule that computes nothing is well shaped if its atoms bind whatever it reads. */
  lemma PlainShaped(slice: Rule, xs: set<Var>)
    requires Positives(slice.body) != [] && xs <= Relational(Positives(slice.body)) && Calls(slice.body) == []
    requires ComputedComparisons(slice) == []
    requires forall i :: 0 <= i < |Negatives(slice.body)| ==> Variables(Negatives(slice.body)[i]) <= xs
    requires forall i :: 0 <= i < |RelationalPart(slice).comparisons| ==>
      ComparisonVariables(RelationalPart(slice).comparisons[i]) <= xs
    requires forall i :: 0 <= i < |slice.head| ==> ArithmeticVariables(HeadExpression(slice.head[i])) <= xs
    ensures WellShaped(slice)
  {
  }

  /** What a slice's literals and head read, its core atom binds. */
  lemma SliceIsShaped(rule: Rule, r: Reduction, used: set<string>, k: nat, slice: Rule, r': Reduction)
    requires Tracks(rule, r, used) && k < |r.atoms| && IsSlice(rule, r, k, slice, r')
    ensures SliceShaped(slice)
  {
    SliceWithoutCalls(rule, r, k, slice, r');
    SliceNegatives(rule, r, k, slice);
    SliceComparisons(rule, r, k, slice);
    PlainHead(OrderedVariables(Positives(rule.body)[k]), Variables(r.atoms[k]));
    assert r.atoms[k] in Positives(slice.body);
    PlainShaped(slice, Variables(r.atoms[k]));
  }

  lemma PlainHead(names: seq<Var>, xs: set<Var>)
    requires forall x :: x in names ==> x in xs
    ensures forall i :: 0 <= i < |HeadOf(names)| ==> ArithmeticVariables(HeadExpression(HeadOf(names)[i])) <= xs
  {
    forall i | 0 <= i < |HeadOf(names)|
      ensures ArithmeticVariables(HeadExpression(HeadOf(names)[i])) <= xs
    {
      assert HeadExpression(HeadOf(names)[i]) == Arithmetic(Label(names[i]), []);
    }
  }

  ghost predicate AllShaped(slices: seq<Rule>) {
    forall i :: 0 <= i < |slices| ==> SliceShaped(slices[i])
  }

  lemma AllShapedAppend(slices: seq<Rule>, slice: Rule)
    requires AllShaped(slices) && SliceShaped(slice)
    ensures AllShaped(slices + [slice])
  {
  }

  /** Slices and current atoms read relations of the rule and earlier slices. */
  ghost predicate ReadsKnown(rule: Rule, slices: seq<Rule>, atoms: seq<Atom>) {
    SlicesKnown(rule, slices) && forall k :: 0 <= k < |atoms| ==> Known(rule, slices, atoms[k])
  }

  lemma SliceReadsKnown(rule: Rule, slices: seq<Rule>, r: Reduction, k: nat, slice: Rule)
    requires k < |r.atoms| == |Positives(rule.body)| && ReadsKnown(rule, slices, r.atoms)
    requires forall l :: l in slice.body ==> SliceLiteral(rule, r, k, l)
    ensures BodyKnown(rule, slices, slice.body)
  {
    forall l | l in slice.body && (l.Positive? || l.Negative?)
      ensures Known(rule, slices, l.atom)
    {
      assert SliceLiteral(rule, r, k, l);
      if l in rule.body {
        assert ReadsAtom(rule.body, l.atom);
      } else if l.atom != r.atoms[k] {
        var j :| 0 <= j < |r.atoms| && Core(rule, j) && l.atom == Masked(r.atoms[j], Variables(r.atoms[k]));
        MaskedKnown(rule, slices, r.atoms[j], Variables(r.atoms[k]));
      }
    }
  }

  lemma MaskedKnown(rule: Rule, slices: seq<Rule>, atom: Atom, xs: set<Var>)
    requires Known(rule, slices, atom)
    ensures Known(rule, slices, Masked(atom, xs))
  {
    var masked := Masked(atom, xs);
    assert masked.relation == atom.relation && |masked.args| == |atom.args|;
    if ReadsAtom(rule.body, atom) {
      var l :| l in rule.body && (l.Positive? || l.Negative?) && l.atom.relation == atom.relation && |l.atom.args| == |atom.args|;
      assert ReadsAtom(rule.body, masked);
    }
  }

  lemma ReadsKnownStep(rule: Rule, slices: seq<Rule>, r: Reduction, k: nat, slice: Rule, r': Reduction)
    requires k < |r.atoms| == |Positives(rule.body)| && ReadsKnown(rule, slices, r.atoms)
    requires IsSlice(rule, r, k, slice, r')
    requires Unread(slice.name, rule.body)
    ensures ReadsKnown(rule, slices + [slice], r'.atoms)
  {
    SliceReadsKnown(rule, slices, r, k, slice);
    SlicesKnownStep(rule, slices, slice);
    forall j | 0 <= j < |r'.atoms|
      ensures Known(rule, slices + [slice], r'.atoms[j])
    {
      if j == k {
        KnownSlice(rule, slices, slice, OrderedVariables(Positives(rule.body)[k]));
      } else {
        KnownMore(rule, slices, slice, r.atoms[j]);
      }
    }
  }

  /** Negations and comparisons are the rule's own. */
  ghost predicate TestsOf(rule: Rule, body: seq<Literal>) {
    forall l :: l in body && (l.Negative? || l.Compare?) ==> l in rule.body
  }

  /** A body holds the negated atom, and every comparison of the rule over variables of that atom. */
  ghost predicate Carries(rule: Rule, body: seq<Literal>, atom: Atom) {
    && Negative(atom) in body
    && forall c :: Compare(c) in rule.body && ComparisonVariables(c) <= Variables(atom) ==> Compare(c) in body
  }

  ghost predicate CarriedBySlice(rule: Rule, slices: seq<Rule>, atom: Atom) {
    exists i :: 0 <= i < |slices| && Carries(rule, slices[i].body, atom)
  }

  /** Slices hold the rule's own negations and comparisons, and every negation taken went to a slice with all
      comparisons over its variables. */
  ghost predicate Placed(rule: Rule, slices: seq<Rule>, r: Reduction)
    requires |r.negation| == |Negatives(rule.body)|
  {
    && (forall i :: 0 <= i < |slices| ==> TestsOf(rule, slices[i].body))
    && forall n :: 0 <= n < |r.negation| && !r.negation[n] ==> CarriedBySlice(rule, slices, Negatives(rule.body)[n])
  }

  lemma CarriedMore(rule: Rule, slices: seq<Rule>, slice: Rule, atom: Atom)
    requires CarriedBySlice(rule, slices, atom) || Carries(rule, slice.body, atom)
    ensures CarriedBySlice(rule, slices + [slice], atom)
  {
    var more := slices + [slice];
    if CarriedBySlice(rule, slices, atom) {
      var i :| 0 <= i < |slices| && Carries(rule, slices[i].body, atom);
      assert more[i] == slices[i];
    } else {
      assert more[|slices|] == slice;
    }
  }

  /** A slice that takes a negation holds the comparisons over its variables, which its core atom binds too. */
  lemma TakenIsCarried(rule: Rule, slice: Rule, k: nat, atom: Atom)
    requires WellShaped(rule) && k < |Positives(rule.body)| && TakenBy(rule, slice, k, Negative(atom))
    requires HoldsComparisons(rule, slice, k)
    ensures Carries(rule, slice.body, atom)
  {
    forall c | Compare(c) in rule.body && ComparisonVariables(c) <= Variables(atom)
      ensures Compare(c) in slice.body
    {
      RelationalUnbound(rule);
      ComparisonsMembers(rule.body, Outputs(Calls(rule.body)), false);
      assert Variables(Positives(rule.body)[k]) <= Relational(Positives(rule.body));
      assert c in RelationalPart(rule).comparisons;
    }
  }

  lemma PlacedStep(rule: Rule, slices: seq<Rule>, r: Reduction, k: nat, slice: Rule, r': Reduction)
    requires WellShaped(rule) && |r.negation| == |r'.negation| == |Negatives(rule.body)| && Placed(rule, slices, r)
    requires k < |r.atoms| == |Positives(rule.body)| && IsSlice(rule, r, k, slice, r')
    ensures Placed(rule, slices + [slice], r')
  {
    forall l | l in slice.body && (l.Negative? || l.Compare?)
      ensures l in rule.body
    {
      assert SliceLiteral(rule, r, k, l);
    }
    forall n: nat | n < |r'.negation| && !r'.negation[n]
      ensures CarriedBySlice(rule, slices + [slice], Negatives(rule.body)[n])
    {
      if r.negation[n] {
        TakenIsCarried(rule, slice, k, Negatives(rule.body)[n]);
      }
      CarriedMore(rule, slices, slice, Negatives(rule.body)[n]);
    }
  }

  ghost predicate ReducedSoFar(rule: Rule, names: nat -> string, m: nat, slices: seq<Rule>, r: Reduction) {
    && Tracks(rule, r, UsedNames(names, m)) && Reduces(rule, slices, r) && AllShaped(slices)
    && ReadsKnown(rule, slices, r.atoms)
    && Placed(rule, slices, r)
  }

  /** Slice names are new: pairwise different, and no relation of the rule. */
  ghost predicate NamesFresh(rule: Rule, names: nat -> string) {
    && (forall i: nat, j: nat :: i < j ==> names(i) != names(j))
    && (forall i: nat :: Fresh(rule, {}, names(i)))
  }

  /** The slices, and the new one if there is one. */
  function More(slices: seq<Rule>, slice: Option<Rule>): seq<Rule> {
    if slice.Some? then slices + [slice.value] else slices
  }

  lemma ReducedSoFarStep(rule: Rule, names: nat -> string, m: nat, slices: seq<Rule>, k: nat, prior: seq<nat>,
                         r: Reduction, slice: Option<Rule>, r': Reduction)
    requires WellShaped(rule) && NamesFresh(rule, names) && ReducedSoFar(rule, names, m, slices, r)
    requires ReducedBy(rule, k, prior, names(m), r, slice, r')
    ensures ReducedSoFar(rule, names, m + 1, More(slices, slice), r')
  {
    if slice.Some? {
      ReducedSoFarSome(rule, names, m, slices, k, r, slice.value, r');
    } else {
      TracksMore(rule, r, UsedNames(names, m), UsedNames(names, m + 1));
    }
  }

  lemma TracksMore(rule: Rule, r: Reduction, used: set<string>, more: set<string>)
    requires Tracks(rule, r, used) && used <= more
    ensures Tracks(rule, r, more)
  {
  }

  lemma NameIsFresh(rule: Rule, names: nat -> string, m: nat)
    requires NamesFresh(rule, names)
    ensures Fresh(rule, UsedNames(names, m), names(m)) && UsedNames(names, m + 1) == UsedNames(names, m) + {names(m)}
  {
    assert Fresh(rule, {}, names(m)) && names(m) !in UsedNames(names, m);
  }

  lemma ReducedSoFarSome(rule: Rule, names: nat -> string, m: nat, slices: seq<Rule>, k: nat, r: Reduction, slice: Rule,
                         r': Reduction)
    requires WellShaped(rule) && NamesFresh(rule, names) && ReducedSoFar(rule, names, m, slices, r)
    requires k < |r.atoms| && IsSlice(rule, r, k, slice, r') && slice.name == names(m)
    ensures ReducedSoFar(rule, names, m + 1, slices + [slice], r')
  {
    NameIsFresh(rule, names, m);
    ReducesStep(rule, slices, r, UsedNames(names, m), k, slice, r');
    SliceIsShaped(rule, r, UsedNames(names, m), k, slice, r');
    AllShapedAppend(slices, slice);
    ReadsKnownStep(rule, slices, r, k, slice, r');
    PlacedStep(rule, slices, r, k, slice, r');
  }

  /** No active subsumed atom is bound by a visited core atom. */
  ghost predicate Visited(rule: Rule, visited: seq<nat>, nonCore: seq<bool>) {
    forall i, k :: 0 <= i < |nonCore| && i < |Positives(rule.body)| && nonCore[i] && k in visited && k < |Positives(rule.body)|
      ==> !(Variables(Positives(rule.body)[i]) <= Variables(Positives(rule.body)[k]))
  }

  ghost predicate CoreIds(rule: Rule, ids: seq<nat>) {
    forall k :: k in ids ==> k < |Positives(rule.body)| && Core(rule, k)
  }

  lemma VisitedStep(rule: Rule, visited: seq<nat>, k: nat, name: string, r: Reduction, slice: Option<Rule>,
                    r': Reduction)
    requires Visited(rule, visited, r.nonCore) && ReducedBy(rule, k, visited, name, r, slice, r')
    ensures Visited(rule, visited + [k], r'.nonCore)
  {
  }

  /** No core atom is visited twice. */
  ghost predicate Distinct(ids: seq<nat>) {
    forall i, j :: 0 <= i < j < |ids| ==> ids[i] != ids[j]
  }

  /** A pass by where it began: the state then, and the core atoms the pass before it visited. */
  datatype Start = Start(r: Reduction, visited: seq<nat>)

  /** Both of a pass's states are semijoined in their order, and nothing grew since it began. */
  ghost predicate Semijoining(rule: Rule, used: set<string>, slices: seq<Rule>, visited: seq<nat>, r: Reduction,
                              start: Start)
    requires |r.atoms| == |Positives(rule.body)|
  {
    && Tracks(rule, start.r, used) && Joined(rule, slices, start.visited, start.r)
    && Joined(rule, slices, visited, r) && Shrunk(slices, start.r, r)
  }

  /** The state after some names and visits: every slice so far preserves the rule, the visited consumed theirs, and
      each is semijoined with those visited before it. */
  ghost predicate Passing(rule: Rule, names: nat -> string, m: nat, slices: seq<Rule>, visited: seq<nat>,
                          r: Reduction, start: Start)
  {
    && ReducedSoFar(rule, names, m, slices, r) && Visited(rule, visited, r.nonCore)
    && Semijoining(rule, UsedNames(names, m), slices, visited, r, start)
  }

  /** One more slice. */
  lemma JoinedStep(functions: Functions, rule: Rule, used: set<string>, visited: seq<nat>, k: nat, r: Reduction,
                   slice: Rule, r': Reduction, db1: Database, db2: Database)
    requires Tracks(rule, r, used) && k < |r.atoms| && IsSlice(rule, r, k, slice, r')
    requires HoldsSemijoins(rule, r, k, visited, slice)
    requires Staged(functions, slice, db1, db2) && Fresh(rule, used, slice.name) && k !in visited
    requires JoinedOn(rule, visited, r, db1)
    ensures |r'.atoms| == |Positives(rule.body)| && JoinedOn(rule, visited + [k], r', db2)
  {
    var more := visited + [k];
    forall p: nat, q: nat | p < q < |more|
      ensures PairJoined(rule, more[p], more[q], r', r', db2)
    {
      if q < |visited| {
        assert more[p] == visited[p] && more[q] == visited[q] && visited[p] in visited && visited[q] in visited;
        PairKept(functions, rule, r, r, used, slice, db1, db2, visited[p], visited[q]);
        SamePair(rule, r, k, slice, r', visited[p], visited[q], db2);
      } else {
        assert more[p] == visited[p] && visited[p] in visited;
        SliceSemijoins(functions, rule, r, used, k, slice, r', visited, db1, db2, visited[p]);
      }
    }
  }

  lemma SamePair(rule: Rule, r: Reduction, k: nat, slice: Rule, r': Reduction, i: nat, j: nat, db: Database)
    requires k < |r.atoms| == |Positives(rule.body)| && IsSlice(rule, r, k, slice, r') && i != k && j != k
    requires PairJoined(rule, i, j, r, r, db)
    ensures PairJoined(rule, i, j, r', r', db)
  {
  }

  lemma StartKept(functions: Functions, rule: Rule, used: set<string>, visited: seq<nat>, r: Reduction, slice: Rule,
                  db1: Database, db2: Database)
    requires Tracks(rule, r, used) && Staged(functions, slice, db1, db2) && Fresh(rule, used, slice.name)
    requires JoinedOn(rule, visited, r, db1)
    ensures JoinedOn(rule, visited, r, db2)
  {
    forall p: nat, q: nat | p < q < |visited|
      ensures PairJoined(rule, visited[p], visited[q], r, r, db2)
    {
      PairKept(functions, rule, r, r, used, slice, db1, db2, visited[p], visited[q]);
    }
  }

  lemma ShrunkStep(functions: Functions, rule: Rule, used: set<string>, k: nat, first: Reduction, r: Reduction,
                   slice: Rule, r': Reduction, db1: Database, db2: Database)
    requires Tracks(rule, first, used) && Tracks(rule, r, used) && k < |r.atoms| && IsSlice(rule, r, k, slice, r')
    requires Staged(functions, slice, db1, db2) && Fresh(rule, used, slice.name) && ShrunkOn(first, r, db1)
    ensures ShrunkOn(first, r', db2)
  {
    forall j: nat, s | j < |r'.atoms| && AtomHolds(db2, r'.atoms[j], s)
      ensures AtomHolds(db2, first.atoms[j], s)
    {
      NewSliceKeeps(functions, rule, first, used, slice, db1, db2, j);
      NewSliceKeeps(functions, rule, r, used, slice, db1, db2, j);
      if j == k {
        var t := SliceShrinks(functions, rule, r, used, k, slice, r', db1, db2, s);
      }
    }
  }

  lemma StartMoreOn(functions: Functions, rule: Rule, used: set<string>, slices: seq<Rule>, slice: Rule, start: Start,
                    dbs: seq<Database>)
    requires Tracks(rule, start.r, used) && Fresh(rule, used, slice.name)
    requires Joined(rule, slices, start.visited, start.r) && StagedAll(functions, slices + [slice], dbs)
    ensures JoinedOn(rule, start.visited, start.r, dbs[|slices + [slice]|])
  {
    var n := |slices|;
    StagedLast(functions, slices, slice, dbs);
    assert dbs[..n + 1][n] == dbs[n];
    StartKept(functions, rule, used, start.visited, start.r, slice, dbs[n], dbs[n + 1]);
  }

  lemma StartMore(rule: Rule, used: set<string>, slices: seq<Rule>, slice: Rule, start: Start, more: seq<Rule>)
    requires Tracks(rule, start.r, used) && Fresh(rule, used, slice.name) && more == slices + [slice]
    requires Joined(rule, slices, start.visited, start.r)
    ensures Joined(rule, more, start.visited, start.r)
  {
    forall functions, dbs | StagedAll(functions, more, dbs)
      ensures JoinedOn(rule, start.visited, start.r, dbs[|more|])
    {
      StartMoreOn(functions, rule, used, slices, slice, start, dbs);
    }
  }

  lemma JoinedMoreOn(functions: Functions, rule: Rule, used: set<string>, slices: seq<Rule>, visited: seq<nat>, k: nat,
                     r: Reduction, slice: Rule, r': Reduction, dbs: seq<Database>)
    requires Tracks(rule, r, used) && k !in visited && k < |r.atoms| && Fresh(rule, used, slice.name)
    requires IsSlice(rule, r, k, slice, r') && HoldsSemijoins(rule, r, k, visited, slice)
    requires Joined(rule, slices, visited, r) && StagedAll(functions, slices + [slice], dbs)
    ensures |r'.atoms| == |Positives(rule.body)| && JoinedOn(rule, visited + [k], r', dbs[|slices + [slice]|])
  {
    var n := |slices|;
    StagedLast(functions, slices, slice, dbs);
    assert dbs[..n + 1][n] == dbs[n];
    JoinedStep(functions, rule, used, visited, k, r, slice, r', dbs[n], dbs[n + 1]);
  }

  lemma JoinedMore(rule: Rule, used: set<string>, slices: seq<Rule>, visited: seq<nat>, k: nat, r: Reduction,
                   slice: Rule, r': Reduction, more: seq<Rule>, after: seq<nat>)
    requires Tracks(rule, r, used) && k !in visited && k < |r.atoms| && Fresh(rule, used, slice.name)
    requires IsSlice(rule, r, k, slice, r') && HoldsSemijoins(rule, r, k, visited, slice)
    requires Joined(rule, slices, visited, r) && |r'.atoms| == |r.atoms|
    requires more == slices + [slice] && after == visited + [k]
    ensures Joined(rule, more, after, r')
  {
    forall functions, dbs | StagedAll(functions, more, dbs)
      ensures JoinedOn(rule, after, r', dbs[|more|])
    {
      JoinedMoreOn(functions, rule, used, slices, visited, k, r, slice, r', dbs);
    }
  }

  lemma ShrunkMoreOn(functions: Functions, rule: Rule, used: set<string>, slices: seq<Rule>, k: nat, first: Reduction,
                     r: Reduction, slice: Rule, r': Reduction, dbs: seq<Database>)
    requires Tracks(rule, first, used) && Tracks(rule, r, used) && k < |r.atoms| && IsSlice(rule, r, k, slice, r')
    requires Fresh(rule, used, slice.name) && Shrunk(slices, first, r)
    requires StagedAll(functions, slices + [slice], dbs)
    ensures ShrunkOn(first, r', dbs[|slices + [slice]|])
  {
    var n := |slices|;
    StagedLast(functions, slices, slice, dbs);
    assert dbs[..n + 1][n] == dbs[n];
    ShrunkStep(functions, rule, used, k, first, r, slice, r', dbs[n], dbs[n + 1]);
  }

  lemma ShrunkMore(rule: Rule, used: set<string>, slices: seq<Rule>, k: nat, first: Reduction, r: Reduction,
                   slice: Rule, r': Reduction, more: seq<Rule>)
    requires Tracks(rule, first, used) && Tracks(rule, r, used) && k < |r.atoms| && IsSlice(rule, r, k, slice, r')
    requires Fresh(rule, used, slice.name) && Shrunk(slices, first, r) && more == slices + [slice]
    ensures Shrunk(more, first, r')
  {
    forall functions, dbs | StagedAll(functions, more, dbs)
      ensures ShrunkOn(first, r', dbs[|more|])
    {
      ShrunkMoreOn(functions, rule, used, slices, k, first, r, slice, r', dbs);
    }
  }

  lemma SemijoiningSome(rule: Rule, names: nat -> string, m: nat, slices: seq<Rule>, visited: seq<nat>, k: nat,
                        r: Reduction, slice: Rule, r': Reduction, start: Start)
    requires NamesFresh(rule, names) && Tracks(rule, r, UsedNames(names, m)) && k !in visited && k < |r.atoms|
    requires Semijoining(rule, UsedNames(names, m), slices, visited, r, start)
    requires IsSlice(rule, r, k, slice, r') && HoldsSemijoins(rule, r, k, visited, slice) && slice.name == names(m)
    ensures |r'.atoms| == |Positives(rule.body)|
    ensures Semijoining(rule, UsedNames(names, m + 1), slices + [slice], visited + [k], r', start)
  {
    var used := UsedNames(names, m);
    NameIsFresh(rule, names, m);
    TracksMore(rule, start.r, used, UsedNames(names, m + 1));
    StartMore(rule, used, slices, slice, start, slices + [slice]);
    JoinedMore(rule, used, slices, visited, k, r, slice, r', slices + [slice], visited + [k]);
    ShrunkMore(rule, used, slices, k, start.r, r, slice, r', slices + [slice]);
  }

  /** An atom left as it is shares no variable with those before it. */
  lemma SemijoiningNone(rule: Rule, names: nat -> string, m: nat, slices: seq<Rule>, visited: seq<nat>, k: nat,
                        r: Reduction, start: Start)
    requires Tracks(rule, r, UsedNames(names, m)) && k < |r.atoms| && CoreIds(rule, visited)
    requires Semijoining(rule, UsedNames(names, m), slices, visited, r, start) && NothingToReduce(rule, r, k, visited)
    ensures Semijoining(rule, UsedNames(names, m + 1), slices, visited + [k], r, start)
  {
    var more := visited + [k];
    TracksMore(rule, start.r, UsedNames(names, m), UsedNames(names, m + 1));
    forall functions, dbs | StagedAll(functions, slices, dbs)
      ensures JoinedOn(rule, more, r, dbs[|slices|])
    {
      var db := dbs[|slices|];
      assert JoinedOn(rule, visited, r, db);
      forall p: nat, q: nat | p < q < |more|
        ensures PairJoined(rule, more[p], more[q], r, r, db)
      {
        assert more[p] == visited[p] && visited[p] in visited;
        if q < |visited| {
          assert more[q] == visited[q];
        }
      }
    }
  }

  lemma SemijoiningStep(rule: Rule, names: nat -> string, m: nat, slices: seq<Rule>, visited: seq<nat>, k: nat,
                        r: Reduction, slice: Option<Rule>, r': Reduction, start: Start)
    requires NamesFresh(rule, names) && Tracks(rule, r, UsedNames(names, m)) && k !in visited && CoreIds(rule, visited)
    requires Semijoining(rule, UsedNames(names, m), slices, visited, r, start)
    requires ReducedBy(rule, k, visited, names(m), r, slice, r')
    ensures |r'.atoms| == |Positives(rule.body)|
    ensures Semijoining(rule, UsedNames(names, m + 1), More(slices, slice), visited + [k], r', start)
  {
    if slice.Some? {
      SemijoiningSome(rule, names, m, slices, visited, k, r, slice.value, r', start);
    } else {
      SemijoiningNone(rule, names, m, slices, visited, k, r, start);
    }
  }

  method ReduceNext(rule: Rule, k: nat, prior: seq<nat>, names: nat -> string, m: nat, ghost slices: seq<Rule>,
                    atoms: array<Atom>, nonCore: array<bool>, negation: array<bool>, ghost start: Start)
    returns (slice: Option<Rule>)
    requires nonCore != negation && WellShaped(rule) && NamesFresh(rule, names)
    requires CoreIds(rule, prior) && k < |Positives(rule.body)| && Core(rule, k) && k !in prior
    requires Passing(rule, names, m, slices, prior, StateOf(atoms, nonCore, negation), start)
    modifies atoms, nonCore, negation
    ensures Passing(rule, names, m + 1, More(slices, slice), prior + [k], StateOf(atoms, nonCore, negation), start)
  {
    ghost var before := StateOf(atoms, nonCore, negation);
    slice := ReduceAtom(rule, k, prior, names(m), atoms, nonCore, negation, UsedNames(names, m));
    ghost var after := StateOf(atoms, nonCore, negation);
    PassingStep(rule, names, m, slices, prior, k, before, slice, after, start);
  }

  lemma PassingStep(rule: Rule, names: nat -> string, m: nat, slices: seq<Rule>, prior: seq<nat>, k: nat,
                    before: Reduction, slice: Option<Rule>, after: Reduction, start: Start)
    requires WellShaped(rule) && NamesFresh(rule, names) && CoreIds(rule, prior) && k !in prior
    requires Passing(rule, names, m, slices, prior, before, start)
    requires ReducedBy(rule, k, prior, names(m), before, slice, after)
    ensures Passing(rule, names, m + 1, More(slices, slice), prior + [k], after, start)
  {
    ReducedSoFarStep(rule, names, m, slices, k, prior, before, slice, after);
    VisitedStep(rule, prior, k, names(m), before, slice, after);
    SemijoiningStep(rule, names, m, slices, prior, k, before, slice, after, start);
  }

  method ReduceAt(rule: Rule, coreIds: seq<nat>, i: nat, names: nat -> string, offset: nat, ghost done: seq<Rule>,
                  slices: seq<Rule>, atoms: array<Atom>, nonCore: array<bool>, negation: array<bool>, ghost start: Start)
    returns (more: seq<Rule>)
    requires nonCore != negation && WellShaped(rule) && NamesFresh(rule, names) && CoreIds(rule, coreIds)
    requires Distinct(coreIds) && i < |coreIds|
    requires Passing(rule, names, offset + i, done + slices, coreIds[..i], StateOf(atoms, nonCore, negation), start)
    modifies atoms, nonCore, negation
    ensures Passing(rule, names, offset + i + 1, done + more, coreIds[..i + 1], StateOf(atoms, nonCore, negation), start)
  {
    IdsPrefix(rule, coreIds, i);
    var slice := ReduceNext(rule, coreIds[i], coreIds[..i], names, offset + i, done + slices, atoms, nonCore,
                            negation, start);
    MoreAfter(done, slices, slice);
    more := More(slices, slice);
  }

  /** One pass over the core atoms, in the given order. Every subsumed atom some core atom of the pass binds is
      consumed; and of any two core atoms of the pass that share a variable, every row of the later one's relation
      agrees with a row the earlier one's has by then. */
  method Reducer(rule: Rule, coreIds: seq<nat>, names: nat -> string, offset: nat, ghost done: seq<Rule>,
                 atoms: array<Atom>, nonCore: array<bool>, negation: array<bool>, ghost start: Start)
    returns (slices: seq<Rule>)
    requires nonCore != negation && WellShaped(rule) && NamesFresh(rule, names) && CoreIds(rule, coreIds)
    requires Distinct(coreIds) && Passing(rule, names, offset, done, [], StateOf(atoms, nonCore, negation), start)
    modifies atoms, nonCore, negation
    ensures Passing(rule, names, offset + |coreIds|, done + slices, coreIds, StateOf(atoms, nonCore, negation), start)
  {
    slices := [];
    assert done + slices == done && coreIds[..0] == [];
    for i := 0 to |coreIds|
      invariant Passing(rule, names, offset + i, done + slices, coreIds[..i], StateOf(atoms, nonCore, negation), start)
    {
      slices := ReduceAt(rule, coreIds, i, names, offset, done, slices, atoms, nonCore, negation, start);
    }
    assert coreIds[..|coreIds|] == coreIds;
  }

  /** A pass begins. */
  lemma PassBegins(rule: Rule, names: nat -> string, m: nat, slices: seq<Rule>, r: Reduction, visited: seq<nat>)
    requires ReducedSoFar(rule, names, m, slices, r) && Joined(rule, slices, visited, r)
    ensures Passing(rule, names, m, slices, [], r, Start(r, visited))
  {
  }

  lemma MoreAfter(done: seq<Rule>, slices: seq<Rule>, slice: Option<Rule>)
    ensures More(done + slices, slice) == done + More(slices, slice)
  {
  }

  lemma IdsPrefix(rule: Rule, ids: seq<nat>, i: nat)
    requires CoreIds(rule, ids) && i < |ids|
    ensures CoreIds(rule, ids[..i]) && ids[i] < |Positives(rule.body)| && Core(rule, ids[i])
    ensures ids[..i + 1] == ids[..i] + [ids[i]] && (Distinct(ids) ==> ids[i] !in ids[..i])
  {
    assert ids[i] in ids && forall j :: j in ids[..i] ==> j in ids;
  }

  /* ------------------------------------------------------------------ */
  /* The final rule                                                       */
  /* ------------------------------------------------------------------ */

  /** The current core atoms, in order. */
  function CoreLiterals(atoms: seq<Atom>, core: seq<bool>): (r: seq<Literal>)
    requires |atoms| == |core|
    ensures forall l :: l in r <==> exists k :: 0 <= k < |atoms| && core[k] && l == Positive(atoms[k])
  {
    if atoms == [] then
      []
    else
      var n := |atoms| - 1;
      var front := CoreLiterals(atoms[..n], core[..n]);
      if core[n] then front + [Positive(atoms[n])] else front
  }

  function ActiveNegations(atoms: seq<Atom>, active: seq<bool>): (r: seq<Literal>)
    requires |atoms| == |active|
    ensures forall l :: l in r <==> exists k :: 0 <= k < |atoms| && active[k] && l == Negative(atoms[k])
  {
    if atoms == [] then
      []
    else
      var n := |atoms| - 1;
      var front := ActiveNegations(atoms[..n], active[..n]);
      if active[n] then front + [Negative(atoms[n])] else front
  }

  /** The calls and the comparisons that read their results, as written. */
  function RowLiterals(body: seq<Literal>, outputs: set<Var>): (r: seq<Literal>)
    ensures forall l :: l in r ==> l.Call? || (l.Compare? && ComparisonVariables(l.comparison) * outputs != {})
    ensures Calls(r) == Calls(body) && Comparisons(r, outputs, true) == Comparisons(body, outputs, true)
  {
    if body == [] then
      []
    else
      var front, last := RowLiterals(body[..|body| - 1], outputs), body[|body| - 1];
      assert (front + [last])[..|front|] == front;
      if last.Call? || (last.Compare? && ComparisonVariables(last.comparison) * outputs != {}) then front + [last] else front
  }

  lemma {:induction false} RowLiteralsInside(body: seq<Literal>, outputs: set<Var>)
    ensures forall l :: l in RowLiterals(body, outputs) ==> l in body
  {
    if body != [] {
      RowLiteralsInside(body[..|body| - 1], outputs);
    }
  }

  function CompareLiterals(cs: seq<Comparison<Var>>): (r: seq<Literal>)
    ensures |r| == |cs| && forall i :: 0 <= i < |r| ==> r[i] == Compare(cs[i])
  {
    seq(|cs|, i requires 0 <= i < |cs| => Compare(cs[i]))
  }

  /** The current core atoms, the negations no slice took, and every comparison and call: no subsumed atom is left. */
  function RelationalLiterals(rule: Rule, r: Reduction): seq<Literal>
    requires |r.atoms| == |Positives(rule.body)| && |r.negation| == |Negatives(rule.body)|
  {
    CoreLiterals(r.atoms, CoreBitmap(rule)) + ActiveNegations(Negatives(rule.body), r.negation) + CompareLiterals(RelationalPart(rule).comparisons)
  }

  function CoreBitmap(rule: Rule): (core: seq<bool>)
    ensures |core| == |Positives(rule.body)|
  {
    seq(|Positives(rule.body)|, k requires 0 <= k < |Positives(rule.body)| => IsCore(VariableSets(Positives(rule.body)), k))
  }

  function FinalRule(rule: Rule, r: Reduction): Rule
    requires |r.atoms| == |Positives(rule.body)| && |r.negation| == |Negatives(rule.body)|
  {
    Rule(rule.name, rule.head, RelationalLiterals(rule, r) + RowLiterals(rule.body, Outputs(Calls(rule.body))))
  }

  lemma RelationalOnly(rule: Rule, r: Reduction, l: Literal)
    requires |r.atoms| == |Positives(rule.body)| && |r.negation| == |Negatives(rule.body)|
    requires l in RelationalLiterals(rule, r)
    ensures !l.Call? && (l.Compare? ==> ComparisonVariables(l.comparison) * Outputs(Calls(rule.body)) == {})
  {
    if l in CompareLiterals(RelationalPart(rule).comparisons) {
      var i: nat :| i < |RelationalPart(rule).comparisons| && l == Compare(RelationalPart(rule).comparisons[i]);
      RelationalMember(rule, i);
    }
  }

  lemma FinalCalls(rule: Rule, r: Reduction)
    requires |r.atoms| == |Positives(rule.body)| && |r.negation| == |Negatives(rule.body)|
    ensures Calls(FinalRule(rule, r).body) == Calls(rule.body)
    ensures ComputedComparisons(FinalRule(rule, r)) == ComputedComparisons(rule)
  {
    var outputs, front, back := Outputs(Calls(rule.body)), RelationalLiterals(rule, r), RowLiterals(rule.body, Outputs(Calls(rule.body)));
    forall l | l in front
      ensures !l.Call? && (l.Compare? ==> ComparisonVariables(l.comparison) * outputs == {})
    {
      RelationalOnly(rule, r, l);
    }
    NoCalls(front);
    CallsConcat(front, back);
    NoneComputed(front, outputs);
    ComparisonsConcat(front, back, outputs, true);
  }

  /** Once every subsumed atom is consumed, the final rule over the staged slices has exactly the rule's solutions. */
  lemma FinalSolutions(rule: Rule, r: Reduction, used: set<string>, db: Database, db': Database, s: Valuation)
    requires WellShaped(rule) && Tracks(rule, r, used) && ReducesOn(rule, r, db, db')
    requires forall i :: 0 <= i < |r.nonCore| ==> !r.nonCore[i]
    ensures BodySolution(RelationalPart(FinalRule(rule, r)), db', s) <==> BodySolution(RelationalPart(rule), db, s)
  {
    var final, outputs := FinalRule(rule, r), Outputs(Calls(rule.body));
    FinalCalls(rule, r);
    if BodySolution(RelationalPart(final), db', s) {
      SolutionByLiterals(final, db', s);
      assert forall l :: l in final.body ==> LiteralHolds(db', outputs, l, s);
      FinalImpliesRule(rule, r, db, db', s);
    }
    if BodySolution(RelationalPart(rule), db, s) {
      RuleImpliesFinal(rule, r, db, db', s);
      SolutionByLiterals(final, db', s);
    }
  }

  lemma FinalImpliesRule(rule: Rule, r: Reduction, db: Database, db': Database, s: Valuation)
    requires |r.atoms| == |r.nonCore| == |Positives(rule.body)| && |r.negation| == |Negatives(rule.body)|
    requires ReducesOn(rule, r, db, db')
    requires forall i :: 0 <= i < |r.nonCore| ==> !r.nonCore[i]
    requires forall l :: l in FinalRule(rule, r).body ==> LiteralHolds(db', Outputs(Calls(rule.body)), l, s)
    ensures BodySolution(RelationalPart(rule), db, s)
  {
    var cat, front := RelationalPart(rule), RelationalLiterals(rule, r);
    assert forall l :: l in front ==> l in FinalRule(rule, r).body;
    forall k | 0 <= k < |r.atoms| && Core(rule, k)
      ensures AtomHolds(db', r.atoms[k], s)
    {
      assert CoreBitmap(rule)[k] && Positive(r.atoms[k]) in CoreLiterals(r.atoms, CoreBitmap(rule));
      assert Positive(r.atoms[k]) in front;
    }
    assert CoresHold(rule, r, db', s);
    forall n | 0 <= n < |cat.negatives|
      ensures !AtomHolds(db, cat.negatives[n], s)
    {
      var l := Negative(cat.negatives[n]);
      assert l in rule.body;
      if r.negation[n] {
        assert l in ActiveNegations(Negatives(rule.body), r.negation) && l in front;
        assert LiteralHolds(db', Outputs(Calls(rule.body)), l, s);
      }
    }
    forall i: nat | i < |cat.comparisons|
      ensures ComparisonHolds(cat.comparisons[i], s)
    {
      RelationalMember(rule, i);
      assert CompareLiterals(cat.comparisons)[i] in CompareLiterals(cat.comparisons);
      assert Compare(cat.comparisons[i]) in front;
      assert LiteralHolds(db', Outputs(Calls(rule.body)), Compare(cat.comparisons[i]), s);
    }
  }

  lemma RuleImpliesFinal(rule: Rule, r: Reduction, db: Database, db': Database, s: Valuation)
    requires |r.atoms| == |r.nonCore| == |Positives(rule.body)| && |r.negation| == |Negatives(rule.body)|
    requires ReducesOn(rule, r, db, db')
    requires BodySolution(RelationalPart(rule), db, s)
    ensures BodyHolds(db', Outputs(Calls(rule.body)), FinalRule(rule, r).body, s)
  {
    var cat, outputs := RelationalPart(rule), Outputs(Calls(rule.body));
    assert CoresHold(rule, r, db', s);
    forall l | l in FinalRule(rule, r).body
      ensures LiteralHolds(db', outputs, l, s)
    {
      if l in CoreLiterals(r.atoms, CoreBitmap(rule)) {
        var k :| 0 <= k < |r.atoms| && CoreBitmap(rule)[k] && l == Positive(r.atoms[k]);
        assert Core(rule, k);
      } else if l in ActiveNegations(Negatives(rule.body), r.negation) {
        var n :| 0 <= n < |r.negation| && l == Negative(Negatives(rule.body)[n]);
        assert l in rule.body && !AtomHolds(db, cat.negatives[n], s);
      } else if l in CompareLiterals(cat.comparisons) {
        var i :| 0 <= i < |cat.comparisons| && l == Compare(cat.comparisons[i]);
      } else {
        assert l in RowLiterals(rule.body, outputs);
      }
    }
  }

  /** The current core atoms bind what the rule's atoms do. */
  lemma FinalBinds(rule: Rule, r: Reduction, used: set<string>)
    requires Tracks(rule, r, used)
    ensures Relational(Positives(rule.body)) <= Relational(Positives(FinalRule(rule, r).body))
    ensures Positives(rule.body) != [] ==> Positives(FinalRule(rule, r).body) != []
    ensures Relational(Positives(FinalRule(rule, r).body)) <= Relational(Positives(rule.body))
  {
    forall i: nat | i < |r.atoms|
      ensures Positives(FinalRule(rule, r).body) != []
      ensures Variables(Positives(rule.body)[i]) <= Relational(Positives(FinalRule(rule, r).body))
    {
      CoreBinds(rule, r, used, i);
    }
    forall x | x in Relational(Positives(FinalRule(rule, r).body))
      ensures x in Relational(Positives(rule.body))
    {
      var i :| 0 <= i < |Positives(FinalRule(rule, r).body)| && x in Variables(Positives(FinalRule(rule, r).body)[i]);
      FinalAtom(rule, r, used, Positives(FinalRule(rule, r).body)[i]);
    }
  }

  lemma CoreBinds(rule: Rule, r: Reduction, used: set<string>, i: nat)
    requires Tracks(rule, r, used) && i < |r.atoms|
    ensures Positives(FinalRule(rule, r).body) != []
    ensures Variables(Positives(rule.body)[i]) <= Relational(Positives(FinalRule(rule, r).body))
  {
    var c := SubsumedByCore(VariableSets(Positives(rule.body)), i);
    assert CoreBitmap(rule)[c] && Positive(r.atoms[c]) in CoreLiterals(r.atoms, CoreBitmap(rule));
    assert Positive(r.atoms[c]) in FinalRule(rule, r).body;
    assert r.atoms[c] in Positives(FinalRule(rule, r).body);
  }

  lemma FinalAtom(rule: Rule, r: Reduction, used: set<string>, atom: Atom)
    requires Tracks(rule, r, used) && atom in Positives(FinalRule(rule, r).body)
    ensures Variables(atom) <= Relational(Positives(rule.body)) && exists k :: 0 <= k < |r.atoms| && r.atoms[k] == atom
  {
    var j :| 0 <= j < |Positives(FinalRule(rule, r).body)| && Positives(FinalRule(rule, r).body)[j] == atom;
    assert Positive(atom) in FinalRule(rule, r).body;
    FinalPositive(rule, r, atom);
    var k :| 0 <= k < |r.atoms| && r.atoms[k] == atom;
    assert Variables(Positives(rule.body)[k]) <= Relational(Positives(rule.body));
  }

  lemma FinalPositive(rule: Rule, r: Reduction, atom: Atom)
    requires |r.atoms| == |Positives(rule.body)| && |r.negation| == |Negatives(rule.body)|
    requires Positive(atom) in FinalRule(rule, r).body
    ensures exists k :: 0 <= k < |r.atoms| && r.atoms[k] == atom
  {
    assert Positive(atom) in CoreLiterals(r.atoms, CoreBitmap(rule));
  }

  lemma FinalNegative(rule: Rule, r: Reduction, atom: Atom)
    requires |r.atoms| == |Positives(rule.body)| && |r.negation| == |Negatives(rule.body)|
    requires Negative(atom) in FinalRule(rule, r).body
    ensures exists n :: 0 <= n < |Negatives(rule.body)| && Negatives(rule.body)[n] == atom
  {
    assert Negative(atom) in ActiveNegations(Negatives(rule.body), r.negation);
  }

  lemma FinalComparison(rule: Rule, r: Reduction, c: Comparison<Var>)
    requires |r.atoms| == |Positives(rule.body)| && |r.negation| == |Negatives(rule.body)| && WellShaped(rule)
    requires Compare(c) in FinalRule(rule, r).body && ComparisonVariables(c) * Outputs(Calls(rule.body)) == {}
    ensures ComparisonVariables(c) <= Relational(Positives(rule.body)) + Outputs(Calls(rule.body))
  {
    assert Compare(c) in CompareLiterals(RelationalPart(rule).comparisons);
    var i :| 0 <= i < |RelationalPart(rule).comparisons| && RelationalPart(rule).comparisons[i] == c;
  }

  /** The final rule is well shaped. */
  lemma FinalIsWellShaped(rule: Rule, r: Reduction, used: set<string>)
    requires WellShaped(rule) && Tracks(rule, r, used)
    ensures WellShaped(FinalRule(rule, r))
  {
    var final := FinalRule(rule, r);
    var cat := RelationalPart(final);
    FinalCalls(rule, r);
    FinalBinds(rule, r, used);
    assert Relational(Positives(final.body)) == Relational(Positives(rule.body));
    forall i | 0 <= i < |cat.negatives|
      ensures Variables(cat.negatives[i]) <= Relational(Positives(rule.body))
    {
      assert Negative(cat.negatives[i]) in final.body;
      FinalNegative(rule, r, cat.negatives[i]);
    }
    forall i: nat | i < |cat.comparisons|
      ensures ComparisonVariables(cat.comparisons[i]) <= Relational(Positives(rule.body)) + Outputs(Calls(rule.body))
    {
      RelationalMember(final, i);
      FinalComparison(rule, r, cat.comparisons[i]);
    }
  }

  lemma FinalReadsKnown(rule: Rule, slices: seq<Rule>, r: Reduction)
    requires |r.atoms| == |Positives(rule.body)| && |r.negation| == |Negatives(rule.body)|
    requires ReadsKnown(rule, slices, r.atoms)
    ensures BodyKnown(rule, slices, FinalRule(rule, r).body)
  {
    forall l | l in FinalRule(rule, r).body && (l.Positive? || l.Negative?)
      ensures Known(rule, slices, l.atom)
    {
      if l.Positive? {
        FinalPositive(rule, r, l.atom);
      } else {
        FinalNegative(rule, r, l.atom);
        assert Negative(l.atom) in rule.body && ReadsAtom(rule.body, l.atom);
      }
    }
  }

  /** Whatever the functions and the database, once the slices are staged the final rule ends every row as the rule
      does; no slice faults. */
  ghost predicate Preserves(rule: Rule, slices: seq<Rule>, final: Rule) {
    forall functions, dbs :: StagedAll(functions, slices, dbs) ==> PreservesOn(functions, rule, slices, final, dbs)
  }

  lemma FinalYields(functions: Functions, rule: Rule, r: Reduction, used: set<string>, db: Database, db': Database,
                    outcome: Outcome<Row>)
    requires WellShaped(rule) && Tracks(rule, r, used) && ReducesOn(rule, r, db, db')
    requires forall i :: 0 <= i < |r.nonCore| ==> !r.nonCore[i]
    ensures Yields(functions, FinalRule(rule, r), db', outcome) <==> Yields(functions, rule, db, outcome)
  {
    var final := FinalRule(rule, r);
    FinalCalls(rule, r);
    if Yields(functions, final, db', outcome) {
      var s :| BodySolution(RelationalPart(final), db', s) && EvaluateSolution(functions, final, s) == outcome;
      FinalSolutions(rule, r, used, db, db', s);
    }
    if Yields(functions, rule, db, outcome) {
      var s :| BodySolution(RelationalPart(rule), db, s) && EvaluateSolution(functions, rule, s) == outcome;
      FinalSolutions(rule, r, used, db, db', s);
      assert EvaluateSolution(functions, final, s) == outcome;
    }
  }

  ghost predicate PreservesOn(functions: Functions, rule: Rule, slices: seq<Rule>, final: Rule, dbs: seq<Database>)
    requires |dbs| == |slices| + 1
  {
    && (forall outcome :: Yields(functions, final, dbs[|slices|], outcome) <==> Yields(functions, rule, dbs[0], outcome))
    && (forall i :: 0 <= i < |slices| ==> !Yields(functions, slices[i], dbs[i], Fault))
  }

  lemma FinalPreserves(rule: Rule, names: nat -> string, m: nat, slices: seq<Rule>, r: Reduction)
    requires WellShaped(rule) && ReducedSoFar(rule, names, m, slices, r)
    requires forall i :: 0 <= i < |r.nonCore| ==> !r.nonCore[i]
    ensures Preserves(rule, slices, FinalRule(rule, r))
  {
    forall functions, dbs | StagedAll(functions, slices, dbs)
      ensures PreservesOn(functions, rule, slices, FinalRule(rule, r), dbs)
    {
      assert ReducesOn(rule, r, dbs[0], dbs[|slices|]);
      forall outcome {
        FinalYields(functions, rule, r, UsedNames(names, m), dbs[0], dbs[|slices|], outcome);
      }
      forall i | 0 <= i < |slices|
        ensures !Yields(functions, slices[i], dbs[i], Fault)
      {
        NeverFaults(functions, slices[i]);
      }
    }
  }

  /** A slice has no call, compares nothing it computes, and projects variables: nothing in it faults. */
  lemma NeverFaults(functions: Functions, slice: Rule)
    requires SliceShaped(slice)
    ensures forall s :: EvaluateSolution(functions, slice, s) != Fault
  {
    var xs :| slice.head == HeadOf(xs);
    forall s
      ensures EvaluateSolution(functions, slice, s) != Fault
    {
      HeadOfRow(xs, s);
    }
  }

  /** Some core atom binds every subsumed atom, so a pass over all of them leaves none active. */
  lemma AllConsumed(rule: Rule, coreIds: seq<nat>, r: Reduction, used: set<string>)
    requires Tracks(rule, r, used) && Visited(rule, coreIds, r.nonCore)
    requires forall k: nat :: k < |Positives(rule.body)| && Core(rule, k) ==> k in coreIds
    ensures forall i :: 0 <= i < |r.nonCore| ==> !r.nonCore[i]
  {
    forall i: nat | i < |r.nonCore|
      ensures !r.nonCore[i]
    {
      var c := SubsumedByCore(VariableSets(Positives(rule.body)), i);
      assert c in coreIds;
    }
  }

  function Reversed(s: seq<nat>): (r: seq<nat>)
    ensures |r| == |s|
  {
    if s == [] then [] else [s[|s| - 1]] + Reversed(s[..|s| - 1])
  }

  lemma {:induction false} ReversedMembers(s: seq<nat>)
    ensures forall x :: x in Reversed(s) <==> x in s
  {
    if s != [] {
      ReversedMembers(s[..|s| - 1]);
      assert s == s[..|s| - 1] + [s[|s| - 1]];
    }
  }

  lemma {:induction false} ReversedAt(s: seq<nat>, p: nat)
    requires p < |s|
    ensures Reversed(s)[|s| - 1 - p] == s[p]
  {
    if p < |s| - 1 {
      ReversedAt(s[..|s| - 1], p);
    }
  }

  /** The core atoms, in order. */
  ghost predicate AllCores(rule: Rule, coreIds: seq<nat>) {
    && (forall k: nat :: k in coreIds <==> k < |Positives(rule.body)| && Core(rule, k))
    && forall i, j :: 0 <= i < j < |coreIds| ==> coreIds[i] < coreIds[j]
  }

  lemma ReversedDistinct(ids: seq<nat>)
    requires Distinct(ids)
    ensures Distinct(Reversed(ids))
  {
    forall i: nat, j: nat | i < j < |ids|
      ensures Reversed(ids)[i] != Reversed(ids)[j]
    {
      ReversedAt(ids, |ids| - 1 - i);
      ReversedAt(ids, |ids| - 1 - j);
    }
  }

  /** Of any two core atoms that share a variable: after the forward pass every row of the later one's relation agrees
      with a row of the earlier one's; and after both, every row of the earlier one's final relation agrees with a row
      of the later one's, and every row of the later one's with a row the earlier one had after the forward pass. */
  ghost predicate BothWaysOn(rule: Rule, forward: Reduction, last: Reduction, db: Database)
    requires |forward.atoms| == |last.atoms| == |Positives(rule.body)|
  {
    forall i: nat, j: nat :: i < j < |last.atoms| && Core(rule, i) && Core(rule, j) ==>
      BothJoined(rule, i, j, forward, last, db)
  }

  ghost predicate BothJoined(rule: Rule, i: nat, j: nat, forward: Reduction, last: Reduction, db: Database)
    requires i < j < |forward.atoms| == |last.atoms| == |Positives(rule.body)|
  {
    && PairJoined(rule, i, j, forward, forward, db)
    && PairJoined(rule, j, i, last, last, db) && PairJoined(rule, i, j, forward, last, db)
  }

  ghost predicate BothWays(rule: Rule, slices: seq<Rule>, forward: Reduction, last: Reduction) {
    && |forward.atoms| == |last.atoms| == |Positives(rule.body)|
    && forall functions, dbs :: StagedAll(functions, slices, dbs) ==> BothWaysOn(rule, forward, last, dbs[|slices|])
  }

  lemma PairBothWays(rule: Rule, coreIds: seq<nat>, forward: Reduction, last: Reduction, db: Database, i: nat, j: nat)
    requires |forward.atoms| == |last.atoms| == |Positives(rule.body)| && AllCores(rule, coreIds)
    requires JoinedOn(rule, coreIds, forward, db) && JoinedOn(rule, Reversed(coreIds), last, db)
    requires ShrunkOn(forward, last, db)
    requires i < j < |last.atoms| && Core(rule, i) && Core(rule, j)
    ensures BothJoined(rule, i, j, forward, last, db)
  {
    var p, q := PlacesOf(rule, coreIds, i, j);
    PlacesReversed(coreIds, p, q);
    JoinedAt(rule, coreIds, forward, db, p, q);
    JoinedAt(rule, Reversed(coreIds), last, db, |coreIds| - 1 - q, |coreIds| - 1 - p);
    PairShrunk(rule, forward, last, db, i, j);
  }

  lemma PlacesOf(rule: Rule, coreIds: seq<nat>, i: nat, j: nat) returns (p: nat, q: nat)
    requires AllCores(rule, coreIds) && i < j < |Positives(rule.body)| && Core(rule, i) && Core(rule, j)
    ensures p < q < |coreIds| && coreIds[p] == i && coreIds[q] == j
  {
    assert i in coreIds && j in coreIds;
    p :| p < |coreIds| && coreIds[p] == i;
    q :| q < |coreIds| && coreIds[q] == j;
  }

  lemma PlacesReversed(ids: seq<nat>, p: nat, q: nat)
    requires p < q < |ids|
    ensures Reversed(ids)[|ids| - 1 - q] == ids[q] && Reversed(ids)[|ids| - 1 - p] == ids[p]
  {
    ReversedAt(ids, p);
    ReversedAt(ids, q);
  }

  lemma JoinedAt(rule: Rule, visited: seq<nat>, r: Reduction, db: Database, p: nat, q: nat)
    requires |r.atoms| == |Positives(rule.body)| && JoinedOn(rule, visited, r, db) && p < q < |visited|
    ensures PairJoined(rule, visited[p], visited[q], r, r, db)
  {
  }

  lemma PairShrunk(rule: Rule, forward: Reduction, last: Reduction, db: Database, i: nat, j: nat)
    requires |forward.atoms| == |last.atoms| == |Positives(rule.body)| && i < j < |last.atoms|
    requires PairJoined(rule, i, j, forward, forward, db) && ShrunkOn(forward, last, db)
    ensures PairJoined(rule, i, j, forward, last, db)
  {
  }

  lemma PassesJoin(rule: Rule, slices: seq<Rule>, coreIds: seq<nat>, forward: Reduction, last: Reduction,
                   used: set<string>)
    requires |forward.atoms| == |last.atoms| == |Positives(rule.body)| && AllCores(rule, coreIds)
    requires Semijoining(rule, used, slices, Reversed(coreIds), last, Start(forward, coreIds))
    ensures BothWays(rule, slices, forward, last)
  {
    forall functions, dbs | StagedAll(functions, slices, dbs)
      ensures BothWaysOn(rule, forward, last, dbs[|slices|])
    {
      var db := dbs[|slices|];
      assert JoinedOn(rule, coreIds, forward, db) && JoinedOn(rule, Reversed(coreIds), last, db);
      assert ShrunkOn(forward, last, db);
      forall i: nat, j: nat | i < j < |last.atoms| && Core(rule, i) && Core(rule, j)
        ensures BothJoined(rule, i, j, forward, last, db)
      {
        PairBothWays(rule, coreIds, forward, last, db, i, j);
      }
    }
  }

  /** The forward pass, and the backward pass over its slices. */
  method BothPasses(rule: Rule, coreIds: seq<nat>, names: nat -> string, atoms: array<Atom>, nonCore: array<bool>,
                    negation: array<bool>)
    returns (slices: seq<Rule>, ghost forward: Reduction, ghost m: nat)
    requires nonCore != negation && WellShaped(rule) && NamesFresh(rule, names) && AllCores(rule, coreIds)
    requires ReducedSoFar(rule, names, 0, [], StateOf(atoms, nonCore, negation))
    modifies atoms, nonCore, negation
    ensures ReducedSoFar(rule, names, 2 * |coreIds|, slices, StateOf(atoms, nonCore, negation))
    ensures forall i :: 0 <= i < nonCore.Length ==> !nonCore[i]
    ensures m <= |slices| && ReducedSoFar(rule, names, |coreIds|, slices[..m], forward)
    ensures BothWays(rule, slices, forward, StateOf(atoms, nonCore, negation))
  {
    PassBegins(rule, names, 0, [], StateOf(atoms, nonCore, negation), []);
    var front := Reducer(rule, coreIds, names, 0, [], atoms, nonCore, negation,
                         Start(StateOf(atoms, nonCore, negation), []));
    forward := StateOf(atoms, nonCore, negation);
    assert [] + front == front;
    PassBegins(rule, names, |coreIds|, front, forward, coreIds);
    ReversedDistinct(coreIds);
    ReversedMembers(coreIds);
    var back := Reducer(rule, Reversed(coreIds), names, |coreIds|, front, atoms, nonCore, negation,
                        Start(forward, coreIds));
    slices, m := front + back, |front|;
    assert slices[..m] == front;
    // the closing assertion: no subsumed atom is still active
    AllConsumed(rule, Reversed(coreIds), StateOf(atoms, nonCore, negation), UsedNames(names, 2 * |coreIds|));
    PassesJoin(rule, slices, coreIds, forward, StateOf(atoms, nonCore, negation), UsedNames(names, 2 * |coreIds|));
  }

  /** The core atoms of the final rule are semijoined both ways. */
  ghost predicate SemijoinReduced(rule: Rule, names: nat -> string, slices: seq<Rule>, final: Rule) {
    exists forward, last, n, m :: ReducedBetween(rule, names, slices, final, forward, last, n, m)
  }

  /** The first `m` slices lead to the one state, all of them to the other, from which the final rule is made. */
  ghost predicate ReducedBetween(rule: Rule, names: nat -> string, slices: seq<Rule>, final: Rule, forward: Reduction,
                                 last: Reduction, n: nat, m: nat)
  {
    && m <= |slices| && ReducedSoFar(rule, names, n, slices[..m], forward) && ReducedSoFar(rule, names, 2 * n, slices, last)
    && BothWays(rule, slices, forward, last) && final == FinalRule(rule, last)
  }

  /** Where a rewrite puts the rule's negations: each in a slice, or in the final rule, together with all comparisons
      over its variables; and no rule of the rewrite has a negation or comparison of its own. */
  ghost predicate CarriesNegations(rule: Rule, slices: seq<Rule>, final: Rule) {
    && (forall i :: 0 <= i < |slices| ==> TestsOf(rule, slices[i].body)) && TestsOf(rule, final.body)
    && forall atom :: Negative(atom) in rule.body ==> CarriedBySlice(rule, slices, atom) || Carries(rule, final.body, atom)
  }

  lemma FinalCarries(rule: Rule, slices: seq<Rule>, r: Reduction)
    requires WellShaped(rule) && |r.atoms| == |Positives(rule.body)| && |r.negation| == |Negatives(rule.body)|
    requires Placed(rule, slices, r)
    ensures CarriesNegations(rule, slices, FinalRule(rule, r))
  {
    FinalTests(rule, r);
    forall atom | Negative(atom) in rule.body
      ensures CarriedBySlice(rule, slices, atom) || Carries(rule, FinalRule(rule, r).body, atom)
    {
      var n: nat :| n < |Negatives(rule.body)| && Negatives(rule.body)[n] == atom;
      if r.negation[n] {
        FinalCarriesActive(rule, r, n);
      }
    }
  }

  lemma FinalTests(rule: Rule, r: Reduction)
    requires |r.atoms| == |Positives(rule.body)| && |r.negation| == |Negatives(rule.body)|
    ensures TestsOf(rule, FinalRule(rule, r).body)
  {
    RowLiteralsInside(rule.body, Outputs(Calls(rule.body)));
    forall l | l in FinalRule(rule, r).body && (l.Negative? || l.Compare?)
      ensures l in rule.body
    {
      if l in CompareLiterals(RelationalPart(rule).comparisons) {
        var i: nat :| i < |RelationalPart(rule).comparisons| && l == Compare(RelationalPart(rule).comparisons[i]);
        RelationalMember(rule, i);
      } else if l in ActiveNegations(Negatives(rule.body), r.negation) {
        var n :| 0 <= n < |Negatives(rule.body)| && l == Negative(Negatives(rule.body)[n]);
      }
    }
  }

  lemma FinalCarriesActive(rule: Rule, r: Reduction, n: nat)
    requires WellShaped(rule) && |r.atoms| == |Positives(rule.body)| && n < |r.negation| == |Negatives(rule.body)|
    requires r.negation[n]
    ensures Carries(rule, FinalRule(rule, r).body, Negatives(rule.body)[n])
  {
    assert Negative(Negatives(rule.body)[n]) in ActiveNegations(Negatives(rule.body), r.negation);
    assert Negative(Negatives(rule.body)[n]) in RelationalLiterals(rule, r);
    RelationalUnbound(rule);
    ComparisonsMembers(rule.body, Outputs(Calls(rule.body)), false);
    forall c | Compare(c) in rule.body && ComparisonVariables(c) <= Variables(Negatives(rule.body)[n])
      ensures Compare(c) in FinalRule(rule, r).body
    {
      assert c in RelationalPart(rule).comparisons;
      var i: nat :| i < |RelationalPart(rule).comparisons| && RelationalPart(rule).comparisons[i] == c;
      assert CompareLiterals(RelationalPart(rule).comparisons)[i] == Compare(c);
      assert Compare(c) in RelationalLiterals(rule, r);
    }
  }

  /** What a rewrite promises. */
  ghost predicate Rewrites(rule: Rule, slices: seq<Rule>, final: Rule) {
    && Preserves(rule, slices, final) && AllShaped(slices) && WellShaped(final)
    && SlicesKnown(rule, slices) && BodyKnown(rule, slices, final.body) && CarriesNegations(rule, slices, final)
  }

  lemma FinalRewrites(rule: Rule, names: nat -> string, m: nat, slices: seq<Rule>, r: Reduction)
    requires WellShaped(rule) && ReducedSoFar(rule, names, m, slices, r)
    requires forall i :: 0 <= i < |r.nonCore| ==> !r.nonCore[i]
    ensures Rewrites(rule, slices, FinalRule(rule, r))
  {
    FinalPreserves(rule, names, m, slices, r);
    FinalIsWellShaped(rule, r, UsedNames(names, m));
    FinalReadsKnown(rule, slices, r);
    FinalCarries(rule, slices, r);
  }

  /** The state before any slice. */
  method Begin(rule: Rule, ghost names: nat -> string)
    returns (coreIds: seq<nat>, atoms: array<Atom>, nonCore: array<bool>, negation: array<bool>)
    ensures fresh(atoms) && fresh(nonCore) && fresh(negation) && nonCore != negation && AllCores(rule, coreIds)
    ensures ReducedSoFar(rule, names, 0, [], StateOf(atoms, nonCore, negation))
  {
    var n := |Positives(rule.body)|;
    var core := PopulateIsCoreAtomBitmap(VariableSets(Positives(rule.body)));
    atoms := new Atom[n](i requires 0 <= i < n => Positives(rule.body)[i]);
    nonCore := new bool[n](i requires 0 <= i < n => !core[i]);
    negation := new bool[|Negatives(rule.body)|](_ => true);
    Untaken(rule, names, StateOf(atoms, nonCore, negation));
    coreIds := Positions(n, (k: nat) => k < |core| && core[k]);
  }

  /** Reduces a rule forward and backward. Evaluating the slices in order and then the final rule ends every row as the
      rule itself does, though the final rule reads neither the subsumed atoms nor the negations the slices took, and
      its core atoms are semijoined both ways. */
  method Sideways(rule: Rule, names: nat -> string) returns (slices: seq<Rule>, final: Rule)
    requires WellShaped(rule) && NamesFresh(rule, names)
    ensures Preserves(rule, slices, final) && AllShaped(slices) && WellShaped(final)
    ensures SlicesKnown(rule, slices) && BodyKnown(rule, slices, final.body)
    ensures CarriesNegations(rule, slices, final) && SemijoinReduced(rule, names, slices, final)
  {
    var coreIds, atoms, nonCore, negation := Begin(rule, names);
    ghost var forward, m;
    slices, forward, m := BothPasses(rule, coreIds, names, atoms, nonCore, negation);
    final := FinalRule(rule, Reduction(atoms[..], nonCore[..], negation[..]));
    FinalRewrites(rule, names, 2 * |coreIds|, slices, StateOf(atoms, nonCore, negation));
    assert ReducedBetween(rule, names, slices, final, forward, StateOf(atoms, nonCore, negation), |coreIds|, m);
  }

  /** Before any slice, nothing is taken. */
  lemma Untaken(rule: Rule, names: nat -> string, r: Reduction)
    requires r.atoms == Positives(rule.body) && |r.nonCore| == |r.atoms| && |r.negation| == |Negatives(rule.body)|
    requires forall k :: 0 <= k < |r.atoms| ==> r.nonCore[k] == !Core(rule, k)
    requires forall k :: 0 <= k < |r.negation| ==> r.negation[k]
    ensures ReducedSoFar(rule, names, 0, [], r)
  {
    forall functions, dbs | StagedAll(functions, [], dbs)
      ensures ReducesOn(rule, r, dbs[0], dbs[0])
    {
    }
    forall k | 0 <= k < |r.atoms|
      ensures Known(rule, [], r.atoms[k])
    {
      assert Positive(r.atoms[k]) in rule.body && ReadsAtom(rule.body, r.atoms[k]);
    }
  }
}

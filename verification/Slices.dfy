/** Slices: auxiliary rules whose rows later rules read, and what staging their rows means. */
module Slices {
  import opened Datalog
  import opened Rules
  import opened Bodies

  function HeadOf(xs: seq<Var>): seq<HeadArg> {
    seq(|xs|, i requires 0 <= i < |xs| => HeadVariable(xs[i]))
  }

  /** The atom reading a slice whose head lists the variables. */
  function SliceAtom(name: string, xs: seq<Var>): Atom {
    Atom(name, seq(|xs|, i requires 0 <= i < |xs| => Variable(xs[i])))
  }

  lemma SliceAtomVariables(name: string, xs: seq<Var>)
    ensures forall x :: x in Variables(SliceAtom(name, xs)) <==> x in xs
  {
    var atom := SliceAtom(name, xs);
    forall x | x in xs
      ensures x in Variables(atom)
    {
      var i :| 0 <= i < |xs| && xs[i] == x;
      assert atom.args[i] == Variable(x);
    }
  }

  /** The database with one more relation: the rows a slice derives from it. */
  ghost predicate Staged(functions: Functions, slice: Rule, db: Database, db': Database) {
    && slice.name !in db && slice.name in db'
    && (forall name :: name != slice.name ==> (name in db' <==> name in db) && Rows(db', name) == Rows(db, name))
    && (forall row :: row in Rows(db', slice.name) <==> Yields(functions, slice, db, Kept(row)))
  }

  /** Slices staged one after another; a later one may read an earlier one. */
  ghost predicate StagedAll(functions: Functions, slices: seq<Rule>, dbs: seq<Database>) {
    |dbs| == |slices| + 1 && forall i :: 0 <= i < |slices| ==> Staged(functions, slices[i], dbs[i], dbs[i + 1])
  }

  lemma StagedLast(functions: Functions, slices: seq<Rule>, slice: Rule, dbs: seq<Database>)
    requires StagedAll(functions, slices + [slice], dbs)
    ensures StagedAll(functions, slices, dbs[..|slices| + 1])
    ensures Staged(functions, slice, dbs[|slices|], dbs[|slices| + 1])
    ensures dbs[..|slices| + 1] + [dbs[|slices| + 1]] == dbs
  {
    var all := slices + [slice];
    assert all[|slices|] == slice;
    forall i | 0 <= i < |slices|
      ensures Staged(functions, slices[i], dbs[i], dbs[i + 1])
    {
      assert all[i] == slices[i] && Staged(functions, all[i], dbs[i], dbs[i + 1]);
    }
  }

  /** Staging a slice leaves every other relation alone. */
  lemma AtomElsewhere(functions: Functions, slice: Rule, db: Database, db': Database, atom: Atom, s: Valuation)
    requires Staged(functions, slice, db, db') && atom.relation != slice.name
    ensures AtomHolds(db', atom, s) <==> AtomHolds(db, atom, s)
  {
    assert Rows(db', atom.relation) == Rows(db, atom.relation);
  }

  lemma LiteralElsewhere(functions: Functions, slice: Rule, db: Database, db': Database, outputs: set<Var>, l: Literal,
                         s: Valuation)
    requires Staged(functions, slice, db, db') && (l.Positive? || l.Negative? ==> l.atom.relation != slice.name)
    ensures LiteralHolds(db', outputs, l, s) <==> LiteralHolds(db, outputs, l, s)
  {
    if l.Positive? || l.Negative? {
      AtomElsewhere(functions, slice, db, db', l.atom, s);
    }
  }

  lemma MatchesSlice(name: string, xs: seq<Var>, s: Valuation, row: Row)
    ensures Matches(SliceAtom(name, xs), s, row) <==> row == Image(s, xs)
  {
    var atom := SliceAtom(name, xs);
    if Matches(atom, s, row) {
      assert forall i :: 0 <= i < |row| ==> MatchesArg(atom.args[i], s, row[i]);
    }
  }

  /** The atom reading a staged slice holds exactly when some solution of the slice shows the same cells. */
  lemma SliceHolds(functions: Functions, slice: Rule, xs: seq<Var>, db: Database, db': Database, s: Valuation)
    requires Staged(functions, slice, db, db')
    ensures AtomHolds(db', SliceAtom(slice.name, xs), s) <==> Yields(functions, slice, db, Kept(Image(s, xs)))
  {
    var atom := SliceAtom(slice.name, xs);
    if AtomHolds(db', atom, s) {
      var row :| row in Rows(db', slice.name) && Matches(atom, s, row);
      MatchesSlice(slice.name, xs, s, row);
    }
    if Yields(functions, slice, db, Kept(Image(s, xs))) {
      MatchesSlice(slice.name, xs, s, Image(s, xs));
      assert Image(s, xs) in Rows(db', slice.name);
    }
  }

  lemma {:induction false} HeadOfRow(xs: seq<Var>, s: Valuation)
    ensures HeadRow(HeadExpressions(HeadOf(xs)), s) == Kept(Image(s, xs))
  {
    var head := HeadExpressions(HeadOf(xs));
    if xs != [] {
      var front := xs[..|xs| - 1];
      HeadOfRow(front, s);
      assert head[..|head| - 1] == HeadExpressions(HeadOf(front));
      assert Image(s, xs) == Image(s, front) + [At(s, xs[|xs| - 1])];
    }
  }

  /* ------------------------------------------------------------------ */
  /* What slices read                                                     */
  /* ------------------------------------------------------------------ */

  ghost predicate Unread(name: string, body: seq<Literal>) {
    forall l :: l in body && (l.Positive? || l.Negative?) ==> l.atom.relation != name
  }

  /** The body reads a relation as wide as the atom reads it. */
  ghost predicate ReadsAtom(body: seq<Literal>, atom: Atom) {
    exists l :: l in body && (l.Positive? || l.Negative?) && l.atom.relation == atom.relation && |l.atom.args| == |atom.args|
  }

  /** The atom reads one of the slices, as wide as its head. */
  ghost predicate ReadsSlice(slices: seq<Rule>, atom: Atom) {
    exists j :: 0 <= j < |slices| && slices[j].name == atom.relation && |slices[j].head| == |atom.args|
  }

  ghost predicate Known(rule: Rule, slices: seq<Rule>, atom: Atom) {
    ReadsAtom(rule.body, atom) || ReadsSlice(slices, atom)
  }

  ghost predicate BodyKnown(rule: Rule, slices: seq<Rule>, body: seq<Literal>) {
    forall l :: l in body && (l.Positive? || l.Negative?) ==> Known(rule, slices, l.atom)
  }

  /** Every slice reads relations of the rule and earlier slices, and is new to the rule. */
  ghost predicate SlicesKnown(rule: Rule, slices: seq<Rule>) {
    forall i :: 0 <= i < |slices| ==> BodyKnown(rule, slices[..i], slices[i].body) && Unread(slices[i].name, rule.body)
  }

  lemma KnownMore(rule: Rule, slices: seq<Rule>, slice: Rule, atom: Atom)
    requires Known(rule, slices, atom)
    ensures Known(rule, slices + [slice], atom)
  {
    if ReadsSlice(slices, atom) {
      var j :| 0 <= j < |slices| && slices[j].name == atom.relation && |slices[j].head| == |atom.args|;
      assert (slices + [slice])[j] == slices[j];
    }
  }

  lemma KnownSlice(rule: Rule, slices: seq<Rule>, slice: Rule, xs: seq<Var>)
    requires |slice.head| == |xs|
    ensures Known(rule, slices + [slice], SliceAtom(slice.name, xs))
  {
    assert (slices + [slice])[|slices|] == slice;
  }

  lemma SlicesKnownStep(rule: Rule, slices: seq<Rule>, slice: Rule)
    requires SlicesKnown(rule, slices) && BodyKnown(rule, slices, slice.body) && Unread(slice.name, rule.body)
    ensures SlicesKnown(rule, slices + [slice])
  {
    var all := slices + [slice];
    forall i | 0 <= i < |all|
      ensures BodyKnown(rule, all[..i], all[i].body) && Unread(all[i].name, rule.body)
    {
      if i < |slices| {
        assert all[..i] == slices[..i] && all[i] == slices[i];
      } else {
        assert all[..i] == slices && all[i] == slice;
      }
    }
  }

  /** A row a rule derives is as wide as its head. */
  lemma RowWidth(functions: Functions, rule: Rule, db: Database, row: Row)
    requires Yields(functions, rule, db, Kept(row))
    ensures |row| == |rule.head|
  {
    var s :| BodySolution(RelationalPart(rule), db, s) && EvaluateSolution(functions, rule, s) == Kept(row);
  }

  lemma StagedFits(functions: Functions, slice: Rule, db: Database, db': Database, atom: Atom)
    requires Staged(functions, slice, db, db')
    ensures atom.relation == slice.name && |atom.args| == |slice.head| ==> Fits(db', atom)
    ensures atom.relation != slice.name && Fits(db, atom) ==> Fits(db', atom)
  {
    if atom.relation == slice.name {
      forall row | row in Rows(db', slice.name)
        ensures |row| == |slice.head|
      {
        RowWidth(functions, slice, db, row);
      }
    } else {
      assert Rows(db', atom.relation) == Rows(db, atom.relation);
    }
  }

  /** The first `n` slices are staged. */
  ghost predicate StagedTo(functions: Functions, slices: seq<Rule>, dbs: seq<Database>, n: nat)
    requires n <= |slices|
  {
    |dbs| == |slices| + 1 && forall i :: 0 <= i < n ==> Staged(functions, slices[i], dbs[i], dbs[i + 1])
  }

  /** All the rule's atoms fit the database. */
  ghost predicate BodyFits(body: seq<Literal>, db: Database) {
    forall l :: l in body && (l.Positive? || l.Negative?) ==> Fits(db, l.atom)
  }

  lemma {:induction false} RuleStaysFit(functions: Functions, rule: Rule, slices: seq<Rule>, dbs: seq<Database>, n: nat,
                                        atom: Atom)
    requires n <= |slices| && StagedTo(functions, slices, dbs, n) && SlicesKnown(rule, slices)
    requires BodyFits(rule.body, dbs[0])
    requires ReadsAtom(rule.body, atom)
    ensures Fits(dbs[n], atom)
  {
    var l :| l in rule.body && (l.Positive? || l.Negative?) && l.atom.relation == atom.relation && |l.atom.args| == |atom.args|;
    if n == 0 {
      assert Fits(dbs[0], l.atom);
    } else {
      RuleStaysFit(functions, rule, slices, dbs, n - 1, atom);
      assert Unread(slices[n - 1].name, rule.body);
      StagedFits(functions, slices[n - 1], dbs[n - 1], dbs[n], atom);
    }
  }

  lemma {:induction false} SliceStaysFit(functions: Functions, slices: seq<Rule>, dbs: seq<Database>, j: nat, n: nat,
                                         atom: Atom)
    requires j < n <= |slices| && StagedTo(functions, slices, dbs, n) && slices[j].name == atom.relation
    requires |slices[j].head| == |atom.args|
    ensures Fits(dbs[n], atom) && atom.relation in dbs[n]
  {
    if j < n - 1 {
      SliceStaysFit(functions, slices, dbs, j, n - 1, atom);
    }
    StagedFits(functions, slices[n - 1], dbs[n - 1], dbs[n], atom);
  }

  /** Whatever the slices up to one read, fits what has been staged by then. */
  lemma KnownFits(functions: Functions, rule: Rule, slices: seq<Rule>, dbs: seq<Database>, n: nat, atom: Atom)
    requires n <= |slices| && StagedTo(functions, slices, dbs, n) && SlicesKnown(rule, slices)
    requires BodyFits(rule.body, dbs[0])
    requires Known(rule, slices[..n], atom)
    ensures Fits(dbs[n], atom)
  {
    if ReadsAtom(rule.body, atom) {
      RuleStaysFit(functions, rule, slices, dbs, n, atom);
    } else {
      var j :| 0 <= j < n && slices[..n][j].name == atom.relation && |slices[..n][j].head| == |atom.args|;
      SliceStaysFit(functions, slices, dbs, j, n, atom);
    }
  }
}

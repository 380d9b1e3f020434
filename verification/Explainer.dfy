/** One-step provenance: a backtracking join over lazily built indexes, bound by the row to explain. */
module Explainer {
  import opened Wrappers
  import opened Datalog
  import opened Rules
  import opened RowPrograms
  import opened Bodies

  /** What a body atom was matched against when a row was derived. */
  datatype Parent = Parent(relation: string, row: Row)

  /** How a search ends: nothing found, the parents of a solution, or a fault. */
  datatype Verdict = Missing | Witnessed(parents: seq<Parent>) | Faulted

  type Bindings = map<Var, Val>

  /** The rows of every relation, in the order they are stored. */
  type States = map<string, seq<Row>>

  function RowsOf(states: States, relation: string): seq<Row> {
    if relation in states then states[relation] else []
  }

  ghost function DatabaseOf(states: States): Database {
    map relation | relation in states :: set row | row in states[relation]
  }

  /* ------------------------------------------------------------------ */
  /* Full scans                                                           */
  /* ------------------------------------------------------------------ */

  /** The bindings after matching a row's cells from `k` on, or `None` if one disagrees. */
  function ExtendFrom(bindings: Bindings, args: seq<Arg>, row: Row, k: nat): Option<Bindings>
    requires k <= |args| == |row|
    decreases |args| - k
  {
    if k == |args| then
      Some(bindings)
    else
      match args[k]
      case Constant(value) => if row[k] == value then ExtendFrom(bindings, args, row, k + 1) else None
      case Wildcard => ExtendFrom(bindings, args, row, k + 1)
      case Variable(x) =>
        if x !in bindings then ExtendFrom(bindings[x := row[k]], args, row, k + 1)
        else if bindings[x] == row[k] then ExtendFrom(bindings, args, row, k + 1)
        else None
  }

  function Extend(bindings: Bindings, atom: Atom, row: Row): Option<Bindings> {
    if |row| == |atom.args| then ExtendFrom(bindings, atom.args, row, 0) else None
  }

  /** The naive search: every row of every atom in order, until something is found or faults. */
  function Scan(states: States, atoms: seq<Atom>, depth: nat, bindings: Bindings, parents: seq<Parent>, from: nat,
                judge: (Bindings, seq<Parent>) -> Verdict): Verdict
    requires depth <= |atoms|
    decreases |atoms| - depth, if depth == |atoms| then 0 else |RowsOf(states, atoms[depth].relation)| - from
  {
    if depth == |atoms| then
      judge(bindings, parents)
    else
      var atom, rows := atoms[depth], RowsOf(states, atoms[depth].relation);
      if from >= |rows| then
        Missing
      else
        var next := Extend(bindings, atom, rows[from]);
        var found := if next.None? then Missing else Scan(states, atoms, depth + 1, next.value, parents + [Parent(atom.relation, rows[from])], 0, judge);
        if found.Missing? then Scan(states, atoms, depth, bindings, parents, from + 1, judge) else found
  }

  /* ------------------------------------------------------------------ */
  /* Indexes                                                              */
  /* ------------------------------------------------------------------ */

  function Projected(row: Row, columns: seq<nat>): (r: Row)
    requires forall k :: 0 <= k < |columns| ==> columns[k] < |row|
    ensures |r| == |columns|
  {
    seq(|columns|, k requires 0 <= k < |columns| => row[columns[k]])
  }

  /** The positions, among the first `n` rows, of those with the given cells, in order. */
  function Hits(rows: seq<Row>, columns: seq<nat>, probe: Row, n: nat): (r: seq<nat>)
    requires n <= |rows| && forall i, k :: 0 <= i < |rows| && 0 <= k < |columns| ==> columns[k] < |rows[i]|
    ensures forall i: nat :: i in r <==> i < n && Projected(rows[i], columns) == probe
    ensures forall a, b :: 0 <= a < b < |r| ==> r[a] < r[b]
  {
    if n == 0 then
      []
    else
      var front := Hits(rows, columns, probe, n - 1);
      assert forall a :: 0 <= a < |front| ==> front[a] in front;
      if Projected(rows[n - 1], columns) == probe then front + [n - 1] else front
  }

  type Index = map<Row, seq<nat>>

  /** Looking a probe up in the index finds exactly the rows a full scan finds. */
  ghost predicate IndexOk(rows: seq<Row>, columns: seq<nat>, index: Index, n: nat)
    requires n <= |rows| && forall i, k :: 0 <= i < |rows| && 0 <= k < |columns| ==> columns[k] < |rows[i]|
  {
    forall probe :: Hits(rows, columns, probe, n) == if probe in index then index[probe] else []
  }

  lemma IndexStep(rows: seq<Row>, columns: seq<nat>, index: Index, position: nat)
    requires position < |rows| && (forall i, k :: 0 <= i < |rows| && 0 <= k < |columns| ==> columns[k] < |rows[i]|)
    requires IndexOk(rows, columns, index, position)
    ensures IndexOk(rows, columns, Indexed(index, Projected(rows[position], columns), position), position + 1)
  {
  }

  /** The index with one more row under its probe. */
  function Indexed(index: Index, probe: Row, position: nat): Index {
    index[probe := (if probe in index then index[probe] else []) + [position]]
  }

  method BuildIndex(rows: seq<Row>, columns: seq<nat>) returns (index: Index)
    requires forall i, k :: 0 <= i < |rows| && 0 <= k < |columns| ==> columns[k] < |rows[i]|
    ensures IndexOk(rows, columns, index, |rows|)
  {
    index := map[];
    for position := 0 to |rows|
      invariant IndexOk(rows, columns, index, position)
    {
      IndexStep(rows, columns, index, position);
      index := Indexed(index, Projected(rows[position], columns), position);
    }
  }

  /** The columns an atom's lookup binds - its constants and its bound variables - and their cells. */
  function BoundColumns(args: seq<Arg>, bindings: Bindings): (r: seq<nat>)
    ensures forall k :: 0 <= k < |r| ==> r[k] < |args| && ArgBound(args[r[k]], bindings)
    ensures forall i: nat :: i < |args| && ArgBound(args[i], bindings) ==> i in r
  {
    if args == [] then
      []
    else
      var n := |args| - 1;
      var front := BoundColumns(args[..n], bindings);
      if ArgBound(args[n], bindings) then front + [n] else front
  }

  predicate ArgBound(arg: Arg, bindings: Bindings) {
    arg.Constant? || (arg.Variable? && arg.name in bindings)
  }

  function ArgCell(arg: Arg, bindings: Bindings): Val
    requires ArgBound(arg, bindings)
  {
    if arg.Constant? then arg.value else bindings[arg.name]
  }

  function Probe(args: seq<Arg>, bindings: Bindings): (r: Row)
    ensures |r| == |BoundColumns(args, bindings)|
  {
    var columns := BoundColumns(args, bindings);
    seq(|columns|, k requires 0 <= k < |columns| => ArgCell(args[columns[k]], bindings))
  }

  /** A row the lookup skips disagrees with a bound column, so it cannot extend the bindings. */
  lemma {:induction false} ExtendNeedsProbe(bindings: Bindings, before: Bindings, args: seq<Arg>, row: Row, k: nat,
                                            column: nat)
    requires k <= column < |args| == |row| && ArgBound(args[column], before)
    requires row[column] != ArgCell(args[column], before)
    requires forall x :: x in before ==> x in bindings && bindings[x] == before[x]
    ensures ExtendFrom(bindings, args, row, k).None?
    decreases |args| - k
  {
    if k < column {
      match args[k] {
        case Constant(_) => ExtendNeedsProbe(bindings, before, args, row, k + 1, column);
        case Wildcard => ExtendNeedsProbe(bindings, before, args, row, k + 1, column);
        case Variable(x) =>
          if x !in bindings {
            ExtendNeedsProbe(bindings[x := row[k]], before, args, row, k + 1, column);
          } else {
            ExtendNeedsProbe(bindings, before, args, row, k + 1, column);
          }
      }
    }
  }

  lemma SkippedMissing(bindings: Bindings, atom: Atom, row: Row)
    requires |row| == |atom.args| && Projected(row, BoundColumns(atom.args, bindings)) != Probe(atom.args, bindings)
    ensures Extend(bindings, atom, row).None?
  {
    var columns := BoundColumns(atom.args, bindings);
    var k :| 0 <= k < |columns| && Projected(row, columns)[k] != Probe(atom.args, bindings)[k];
    ExtendNeedsProbe(bindings, bindings, atom.args, row, 0, columns[k]);
  }

  /* ------------------------------------------------------------------ */
  /* What extending means                                                 */
  /* ------------------------------------------------------------------ */

  /** The valuation agrees with every binding. */
  ghost predicate Respects(s: Valuation, bindings: Bindings) {
    forall x :: x in bindings ==> At(s, x) == bindings[x]
  }

  /** Extending succeeds exactly on rows some agreeing valuation matches, and then binds just the atom's variables. */
  lemma {:induction false} ExtendFromMeans(bindings: Bindings, args: seq<Arg>, row: Row, k: nat)
    requires k <= |args| == |row|
    ensures var r := ExtendFrom(bindings, args, row, k);
      r.Some? ==>
        && (forall x :: x in r.value <==> x in bindings || Variable(x) in args[k..])
        && (forall s :: Respects(s, r.value) <==> Respects(s, bindings) && forall i :: k <= i < |args| ==> MatchesArg(args[i], s, row[i]))
    ensures ExtendFrom(bindings, args, row, k).None? ==>
      forall s :: Respects(s, bindings) ==> exists i :: k <= i < |args| && !MatchesArg(args[i], s, row[i])
    decreases |args| - k
  {
    if k < |args| {
      var next := match args[k]
        case Constant(_) => bindings
        case Wildcard => bindings
        case Variable(x) => if x in bindings then bindings else bindings[x := row[k]];
      ExtendFromMeans(next, args, row, k + 1);
      assert args[k..] == [args[k]] + args[k + 1..];
      forall s
        ensures Respects(s, next) <==> Respects(s, bindings) && (args[k].Variable? && args[k].name !in bindings ==> At(s, args[k].name) == row[k])
      {
      }
    }
  }

  /* ------------------------------------------------------------------ */
  /* Judging a candidate                                                  */
  /* ------------------------------------------------------------------ */

  /** Some stored row matches the atom under the bindings. */
  predicate MatchesAny(states: States, atom: Atom, bindings: Bindings) {
    exists i :: 0 <= i < |RowsOf(states, atom.relation)| && Matches(atom, bindings, RowsOf(states, atom.relation)[i])
  }

  predicate AnyMatches(states: States, atoms: seq<Atom>, bindings: Bindings) {
    exists n :: 0 <= n < |atoms| && MatchesAny(states, atoms[n], bindings)
  }

  /** What to explain, and with what. */
  datatype Question = Question(states: States, functions: Functions, rule: Rule, row: Row)

  /** The verdict on one way to match the positive atoms: negations, then comparisons, then the row-local part. */
  ghost function Judge(q: Question, bindings: Bindings, parents: seq<Parent>): Verdict {
    var cat := RelationalPart(q.rule);
    if AnyMatches(q.states, cat.negatives, bindings) then
      Missing
    else
      match RunComparisons(cat.comparisons, bindings)
      case Fault => Faulted
      case Dropped => Missing
      case Kept(_) =>
        match EvaluateSolution(q.functions, q.rule, bindings)
        case Fault => Faulted
        case Dropped => Missing
        case Kept(derived) => if derived == q.row then Witnessed(parents) else Missing
  }

  ghost function Judging(q: Question): (Bindings, seq<Parent>) -> Verdict {
    (bindings, parents) => Judge(q, bindings, parents)
  }

  /** The naive search from one row of one atom on. */
  ghost function Naive(q: Question, depth: nat, bindings: Bindings, parents: seq<Parent>, from: nat): Verdict
    requires depth <= |Positives(q.rule.body)|
  {
    Scan(q.states, Positives(q.rule.body), depth, bindings, parents, from, Judging(q))
  }

  /** The naive search of one row: what its solutions give. */
  ghost function NaiveRow(q: Question, depth: nat, bindings: Bindings, parents: seq<Parent>, from: nat): Verdict
    requires depth < |Positives(q.rule.body)| && from < |RowsOf(q.states, Positives(q.rule.body)[depth].relation)|
  {
    var atom := Positives(q.rule.body)[depth];
    var next := Extend(bindings, atom, RowsOf(q.states, atom.relation)[from]);
    if next.None? then Missing else Naive(q, depth + 1, next.value, parents + [Parent(atom.relation, RowsOf(q.states, atom.relation)[from])], 0)
  }

  /** What one row comes to, or the rows after it if it comes to nothing. */
  ghost function NaiveFrom(q: Question, depth: nat, bindings: Bindings, parents: seq<Parent>, from: nat): Verdict
    requires depth < |Positives(q.rule.body)| && from < |RowsOf(q.states, Positives(q.rule.body)[depth].relation)|
  {
    var found := NaiveRow(q, depth, bindings, parents, from);
    if found.Missing? then Naive(q, depth, bindings, parents, from + 1) else found
  }

  lemma NaiveStep(q: Question, depth: nat, bindings: Bindings, parents: seq<Parent>, from: nat)
    requires depth < |Positives(q.rule.body)| && from < |RowsOf(q.states, Positives(q.rule.body)[depth].relation)|
    ensures Naive(q, depth, bindings, parents, from) == NaiveFrom(q, depth, bindings, parents, from)
  {
  }

  /** Rows that cannot extend the bindings can be skipped. */
  lemma {:induction false} NaiveSkips(q: Question, depth: nat, bindings: Bindings, parents: seq<Parent>, from: nat,
                                      end: nat)
    requires depth < |Positives(q.rule.body)|
    requires from <= end <= |RowsOf(q.states, Positives(q.rule.body)[depth].relation)|
    requires forall i :: from <= i < end ==>
      Extend(bindings, Positives(q.rule.body)[depth], RowsOf(q.states, Positives(q.rule.body)[depth].relation)[i]).None?
    ensures Naive(q, depth, bindings, parents, from) == Naive(q, depth, bindings, parents, end)
    decreases end
  {
    if from < end {
      NaiveSkips(q, depth, bindings, parents, from, end - 1);
      NaiveStep(q, depth, bindings, parents, end - 1);
    }
  }

  /** Every stored row has the width its atom reads. */
  ghost predicate WidthsOk(states: States, atom: Atom) {
    forall i :: 0 <= i < |RowsOf(states, atom.relation)| ==> |RowsOf(states, atom.relation)[i]| == |atom.args|
  }

  ghost predicate ColumnsFit(states: States, relation: string, columns: seq<nat>) {
    forall i, k :: 0 <= i < |RowsOf(states, relation)| && 0 <= k < |columns| ==> columns[k] < |RowsOf(states, relation)[i]|
  }

  /* ------------------------------------------------------------------ */
  /* The explainer                                                        */
  /* ------------------------------------------------------------------ */

  class Search {
    const q: Question
    const program: Option<RowProgram>
    var indexes: map<(string, seq<nat>), Index>
    var bindings: Bindings
    var parents: seq<Parent>

    constructor (q: Question, program: Option<RowProgram>)
      ensures CacheOk() && this.q == q && this.program == program && bindings == map[] && parents == []
    {
      this.q, this.program := q, program;
      indexes, bindings, parents := map[], map[], [];
    }

    /** Every cached index answers as a full scan would. */
    ghost predicate CacheOk()
      reads this`indexes
    {
      forall key :: key in indexes ==>
        ColumnsFit(q.states, key.0, key.1) && IndexOk(RowsOf(q.states, key.0), key.1, indexes[key], |RowsOf(q.states, key.0)|)
    }

    /** The index of a relation on some columns, built on first use. */
    method IndexOf(relation: string, columns: seq<nat>) returns (index: Index)
      requires CacheOk() && ColumnsFit(q.states, relation, columns)
      modifies this`indexes
      ensures CacheOk() && IndexOk(RowsOf(q.states, relation), columns, index, |RowsOf(q.states, relation)|)
    {
      if (relation, columns) in indexes {
        return indexes[(relation, columns)];
      }
      index := BuildIndex(RowsOf(q.states, relation), columns);
      indexes := indexes[(relation, columns) := index];
    }

    /** Binds the row's free variables, checking the bound ones agree. */
    method BindRow(args: seq<Arg>, row: Row) returns (consistent: bool, newlyBound: seq<Var>)
      requires |args| == |row| && forall k :: 0 <= k < |args| && args[k].Constant? ==> row[k] == args[k].value
      modifies this`bindings
      ensures if consistent then ExtendFrom(old(bindings), args, row, 0) ==
        Some(bindings) else ExtendFrom(old(bindings), args, row, 0).None?
      ensures Bound(old(bindings), newlyBound, bindings)
    {
      consistent, newlyBound := true, [];
      for k := 0 to |args|
        invariant ExtendFrom(old(bindings), args, row, 0) == ExtendFrom(bindings, args, row, k)
        invariant Bound(old(bindings), newlyBound, bindings)
      {
        if args[k].Variable? {
          var x := args[k].name;
          if x in bindings {
            if bindings[x] != row[k] {
              return false, newlyBound;
            }
          } else {
            bindings := bindings[x := row[k]];
            newlyBound := newlyBound + [x];
          }
        }
      }
    }

    /** Forgets the variables one row bound. */
    method Unbind(newlyBound: seq<Var>, ghost before: Bindings)
      requires Bound(before, newlyBound, bindings)
      modifies this`bindings
      ensures bindings == before
    {
      for k := 0 to |newlyBound|
        invariant Bound(before, newlyBound[k..], bindings)
      {
        assert newlyBound[k..][0] == newlyBound[k] && newlyBound[k..][1..] == newlyBound[k + 1..];
        bindings := bindings - {newlyBound[k]};
      }
    }

    ghost predicate Ready() {
      ReadyFor(q, program)
    }

    /** Looks a negated atom up in its relation's index: true exactly when the bindings are forbidden. */
    method Forbidden(atom: Atom) returns (found: bool)
      requires CacheOk() && WidthsOk(q.states, atom) && Variables(atom) <= bindings.Keys
      modifies this`indexes
      ensures CacheOk() && found == MatchesAny(q.states, atom, bindings)
    {
      var columns, probe := BoundColumns(atom.args, bindings), Probe(atom.args, bindings);
      var index := IndexOf(atom.relation, columns);
      found := probe in index && index[probe] != [];
      HitsMatch(q.states, atom, bindings);
    }

    method AnyForbidden(atoms: seq<Atom>) returns (found: bool)
      requires CacheOk()
      requires forall n :: 0 <= n < |atoms| ==> Variables(atoms[n]) <= bindings.Keys && WidthsOk(q.states, atoms[n])
      modifies this`indexes
      ensures CacheOk() && found == AnyMatches(q.states, atoms, bindings)
    {
      for n := 0 to |atoms|
        invariant CacheOk() && forall i :: 0 <= i < n ==> !MatchesAny(q.states, atoms[i], bindings)
      {
        var matched := Forbidden(atoms[n]);
        if matched {
          return true;
        }
      }
      return false;
    }

    /** Judges the bindings a full match of the positive atoms left. */
    method OnSolution() returns (verdict: Verdict)
      requires CacheOk() && Ready() && BoundTo(q, |Positives(q.rule.body)|, bindings)
      modifies this`indexes
      ensures CacheOk() && verdict == Judge(q, bindings, parents)
    {
      NegativesBound();
      var forbidden := AnyForbidden(Negatives(q.rule.body));
      if forbidden {
        return Missing;
      }
      var compared := Compares(RelationalPart(q.rule).comparisons);
      if !compared.Kept? {
        return if compared.Fault? then Faulted else Missing;
      }
      var derived := Derive();
      match derived
      case Fault => verdict := Faulted;
      case Dropped => verdict := Missing;
      case Kept(row) => verdict := if row == q.row then Witnessed(parents) else Missing;
    }

    lemma NegativesBound()
      requires Ready() && BoundTo(q, |Positives(q.rule.body)|, bindings)
      ensures forall n :: 0 <= n < |Negatives(q.rule.body)| ==>
        Variables(Negatives(q.rule.body)[n]) <= bindings.Keys && WidthsOk(q.states, Negatives(q.rule.body)[n])
    {
      RelationalBound();
    }

    lemma RelationalBound()
      requires BoundTo(q, |Positives(q.rule.body)|, bindings)
      ensures Relational(Positives(q.rule.body)) <= bindings.Keys
    {
    }

    /** The comparisons in order, until one fails or faults. */
    method Compares(cs: seq<Comparison<Var>>) returns (r: Outcome<Valuation>)
      ensures r == RunComparisons(cs, bindings)
    {
      for k := 0 to |cs|
        invariant RunComparisons(cs[..k], bindings) == Kept(bindings)
      {
        assert cs[..k + 1][..k] == cs[..k];
        var outcome := RunComparison(cs[k], bindings);
        if !outcome.Kept? {
          StoppedComparisons(cs, k + 1, bindings);
          return outcome;
        }
      }
      assert cs[..|cs|] == cs;
      return Kept(bindings);
    }

    /** The head row the bindings derive. */
    method Derive() returns (r: Outcome<Row>)
      requires Ready() && BoundTo(q, |Positives(q.rule.body)|, bindings)
      ensures r == EvaluateSolution(q.functions, q.rule, bindings)
    {
      match program {
        case Some(p) =>
          assert Materialized(Stored(Image(bindings, p.inputVariables))) == Image(bindings, p.inputVariables);
          r := EvaluateAs(q.functions, p, Stored(Image(bindings, p.inputVariables)));
        case None =>
          NoProgram(q.functions, q.rule, bindings);
          r := Kept(Image(bindings, HeadVariables(q.rule.head)));
      }
    }

    /** Tries one row for one atom, and then the atoms after it. Unless something faults, the bindings and parents are
        left as they were. */
    method TryRow(depth: nat, position: nat) returns (verdict: Verdict)
      requires CacheOk() && Ready() && depth < |Positives(q.rule.body)| && BoundTo(q, depth, bindings)
      requires position < |RowsOf(q.states, Positives(q.rule.body)[depth].relation)|
      requires ConstantsMatch(Positives(q.rule.body)[depth].args, RowsOf(q.states, Positives(q.rule.body)[depth].relation)[position])
      modifies this`indexes, this`bindings, this`parents
      ensures CacheOk() && verdict == NaiveRow(q, depth, old(bindings), old(parents), position)
      ensures !verdict.Faulted? ==> bindings == old(bindings) && parents == old(parents)
      decreases |Positives(q.rule.body)| - depth, 0
    {
      var atom := Positives(q.rule.body)[depth];
      var row := RowsOf(q.states, atom.relation)[position];
      var consistent, newlyBound := BindRow(atom.args, row);
      verdict := Missing;
      if consistent {
        NextBound(q, depth, old(bindings), row, bindings);
        parents := parents + [Parent(atom.relation, row)];
        verdict := SearchFrom(depth + 1);
        if verdict.Faulted? {
          return;
        }
        parents := parents[..|parents| - 1];
      }
      Unbind(newlyBound, old(bindings));
    }

    /** The rows the atom's lookup hits. */
    method Candidates(depth: nat) returns (candidates: seq<nat>)
      requires CacheOk() && depth < |Positives(q.rule.body)| && WidthsOk(q.states, Positives(q.rule.body)[depth])
      modifies this`indexes
      ensures CacheOk() && AreHits(q, depth, bindings, candidates)
    {
      var atom := Positives(q.rule.body)[depth];
      var columns, probe := BoundColumns(atom.args, bindings), Probe(atom.args, bindings);
      var index := IndexOf(atom.relation, columns);
      candidates := if probe in index then index[probe] else [];
    }

    /** Enumerates the ways to match the atoms from `depth` on, in order, until one is witnessed or faults: exactly what
        the naive search over full scans finds. */
    method SearchFrom(depth: nat) returns (verdict: Verdict)
      requires CacheOk() && Ready() && depth <= |Positives(q.rule.body)| && BoundTo(q, depth, bindings)
      modifies this`indexes, this`bindings, this`parents
      ensures CacheOk() && verdict == Naive(q, depth, old(bindings), old(parents), 0)
      ensures !verdict.Faulted? ==> bindings == old(bindings) && parents == old(parents)
      decreases |Positives(q.rule.body)| - depth, 1
    {
      if depth == |Positives(q.rule.body)| {
        verdict := OnSolution();
        return;
      }
      var candidates := Candidates(depth);
      for c := 0 to |candidates|
        invariant CacheOk() && bindings == old(bindings) && parents == old(parents)
        invariant Naive(q, depth, bindings, parents, 0) == Naive(q, depth, bindings, parents, After(candidates, c))
      {
        CandidateHits(q, depth, bindings, parents, candidates, c);
        verdict := TryRow(depth, candidates[c]);
        if !verdict.Missing? {
          return;
        }
      }
      CandidatesDone(q, depth, bindings, parents, candidates);
      return Missing;
    }
  }

  /** What the explainer is given: a validated ordinary rule, its program, and rows as wide as it reads them. */
  ghost predicate ReadyFor(q: Question, program: Option<RowProgram>) {
    && WellShaped(q.rule) && (forall i :: 0 <= i < |q.rule.head| ==> !q.rule.head[i].HeadAggregate?)
    && (match program
        case None => !NeedsProgram(q.rule)
        case Some(p) => Compiled(p, q.rule) && forall i :: 0 <= i < |p.inputVariables| ==> p.inputVariables[i] in Relational(Positives(q.rule.body)))
    && (forall i :: 0 <= i < |Positives(q.rule.body)| ==> WidthsOk(q.states, Positives(q.rule.body)[i]))
    && (forall i :: 0 <= i < |Negatives(q.rule.body)| ==> WidthsOk(q.states, Negatives(q.rule.body)[i]))
  }

  /** The relational variables of the first `depth` atoms are bound. */
  ghost predicate BoundTo(q: Question, depth: nat, bindings: Bindings)
    requires depth <= |Positives(q.rule.body)|
  {
    forall i :: 0 <= i < depth ==> Variables(Positives(q.rule.body)[i]) <= bindings.Keys
  }

  lemma NextBound(q: Question, depth: nat, before: Bindings, row: Row, after: Bindings)
    requires depth < |Positives(q.rule.body)| && BoundTo(q, depth, before)
    requires |row| == |Positives(q.rule.body)[depth].args|
    requires ExtendFrom(before, Positives(q.rule.body)[depth].args, row, 0) == Some(after)
    ensures BoundTo(q, depth + 1, after)
  {
    ExtendFromMeans(before, Positives(q.rule.body)[depth].args, row, 0);
  }

  predicate ConstantsMatch(args: seq<Arg>, row: Row) {
    |args| == |row| && forall k :: 0 <= k < |args| && args[k].Constant? ==> row[k] == args[k].value
  }

  /** The first row after the first `c` candidates. */
  function After(candidates: seq<nat>, c: nat): nat
    requires c <= |candidates|
  {
    if c == 0 then 0 else candidates[c - 1] + 1
  }

  /** The candidates are the rows the atom's lookup hits. */
  ghost predicate AreHits(q: Question, depth: nat, bindings: Bindings, candidates: seq<nat>)
    requires depth < |Positives(q.rule.body)| && WidthsOk(q.states, Positives(q.rule.body)[depth])
  {
    var atom := Positives(q.rule.body)[depth];
    var rows := RowsOf(q.states, atom.relation);
    candidates == Hits(rows, BoundColumns(atom.args, bindings), Probe(atom.args, bindings), |rows|)
  }

  lemma HitConstants(atom: Atom, bindings: Bindings, row: Row)
    requires |row| == |atom.args| && Projected(row, BoundColumns(atom.args, bindings)) == Probe(atom.args, bindings)
    ensures ConstantsMatch(atom.args, row)
  {
    var columns := BoundColumns(atom.args, bindings);
    forall i: nat | i < |row| && atom.args[i].Constant?
      ensures row[i] == atom.args[i].value
    {
      assert i in columns;
      var k :| 0 <= k < |columns| && columns[k] == i;
      assert Projected(row, columns)[k] == Probe(atom.args, bindings)[k];
    }
  }

  /** A candidate's row decides, or the rows from the next candidate on do: between them no row extends the bindings. */
  lemma CandidateHits(q: Question, depth: nat, bindings: Bindings, parents: seq<Parent>, candidates: seq<nat>, c: nat)
    requires depth < |Positives(q.rule.body)| && WidthsOk(q.states, Positives(q.rule.body)[depth])
    requires AreHits(q, depth, bindings, candidates)
    requires c < |candidates|
    ensures candidates[c] < |RowsOf(q.states, Positives(q.rule.body)[depth].relation)|
    ensures ConstantsMatch(Positives(q.rule.body)[depth].args, RowsOf(q.states, Positives(q.rule.body)[depth].relation)[candidates[c]])
    ensures Naive(q, depth, bindings, parents, After(candidates, c)) ==
      var found := NaiveRow(q, depth, bindings, parents, candidates[c]);
      if found.Missing? then Naive(q, depth, bindings, parents, After(candidates, c + 1)) else found
  {
    CandidateOk(q, depth, bindings, candidates, c);
    CandidateNext(q, depth, bindings, parents, candidates, c);
    NaiveStep(q, depth, bindings, parents, candidates[c]);
    RowOrNext(q, depth, bindings, parents, candidates, c);
  }

  lemma RowOrNext(q: Question, depth: nat, bindings: Bindings, parents: seq<Parent>, candidates: seq<nat>, c: nat)
    requires depth < |Positives(q.rule.body)| && c < |candidates|
    requires candidates[c] < |RowsOf(q.states, Positives(q.rule.body)[depth].relation)|
    ensures NaiveFrom(q, depth, bindings, parents, candidates[c]) ==
      var found := NaiveRow(q, depth, bindings, parents, candidates[c]);
      if found.Missing? then Naive(q, depth, bindings, parents, After(candidates, c + 1)) else found
  {
  }

  lemma CandidateNext(q: Question, depth: nat, bindings: Bindings, parents: seq<Parent>, candidates: seq<nat>, c: nat)
    requires depth < |Positives(q.rule.body)| && WidthsOk(q.states, Positives(q.rule.body)[depth])
    requires AreHits(q, depth, bindings, candidates)
    requires c < |candidates|
    ensures candidates[c] < |RowsOf(q.states, Positives(q.rule.body)[depth].relation)|
    ensures Naive(q, depth, bindings, parents, After(candidates, c)) ==
      Naive(q, depth, bindings, parents, candidates[c])
  {
    CandidateOk(q, depth, bindings, candidates, c);
    NoneBetween(candidates, c);
    MissesSkipped(q, depth, bindings, parents, candidates, After(candidates, c), candidates[c]);
  }

  lemma CandidateOk(q: Question, depth: nat, bindings: Bindings, candidates: seq<nat>, c: nat)
    requires depth < |Positives(q.rule.body)| && WidthsOk(q.states, Positives(q.rule.body)[depth])
    requires AreHits(q, depth, bindings, candidates)
    requires c < |candidates|
    ensures candidates[c] < |RowsOf(q.states, Positives(q.rule.body)[depth].relation)|
    ensures ConstantsMatch(Positives(q.rule.body)[depth].args, RowsOf(q.states, Positives(q.rule.body)[depth].relation)[candidates[c]])
    ensures forall a, b :: 0 <= a < b < |candidates| ==> candidates[a] < candidates[b]
  {
    var atom := Positives(q.rule.body)[depth];
    assert candidates[c] in candidates;
    HitConstants(atom, bindings, RowsOf(q.states, atom.relation)[candidates[c]]);
  }

  lemma NoneBetween(candidates: seq<nat>, c: nat)
    requires c < |candidates| && forall a, b :: 0 <= a < b < |candidates| ==> candidates[a] < candidates[b]
    ensures After(candidates, c) <= candidates[c]
    ensures forall i: nat :: After(candidates, c) <= i < candidates[c] ==> i !in candidates
  {
    forall i: nat | i in candidates
      ensures i < After(candidates, c) || i >= candidates[c]
    {
      var k :| 0 <= k < |candidates| && candidates[k] == i;
    }
  }

  lemma MissesSkipped(q: Question, depth: nat, bindings: Bindings, parents: seq<Parent>, candidates: seq<nat>,
                      from: nat, end: nat)
    requires depth < |Positives(q.rule.body)| && WidthsOk(q.states, Positives(q.rule.body)[depth])
    requires AreHits(q, depth, bindings, candidates)
    requires from <= end <= |RowsOf(q.states, Positives(q.rule.body)[depth].relation)|
    requires forall i: nat :: from <= i < end ==> i !in candidates
    ensures Naive(q, depth, bindings, parents, from) == Naive(q, depth, bindings, parents, end)
  {
    var atom := Positives(q.rule.body)[depth];
    var rows := RowsOf(q.states, atom.relation);
    forall i: nat | from <= i < end
      ensures Extend(bindings, atom, rows[i]).None?
    {
      SkippedMissing(bindings, atom, rows[i]);
    }
    NaiveSkips(q, depth, bindings, parents, from, end);
  }

  lemma CandidatesDone(q: Question, depth: nat, bindings: Bindings, parents: seq<Parent>, candidates: seq<nat>)
    requires depth < |Positives(q.rule.body)| && WidthsOk(q.states, Positives(q.rule.body)[depth])
    requires AreHits(q, depth, bindings, candidates)
    ensures Naive(q, depth, bindings, parents, After(candidates, |candidates|)).Missing?
  {
    var rows := RowsOf(q.states, Positives(q.rule.body)[depth].relation);
    if candidates != [] {
      assert candidates[|candidates| - 1] in candidates;
    }
    MissesSkipped(q, depth, bindings, parents, candidates, After(candidates, |candidates|), |rows|);
  }

  lemma {:induction false} StoppedComparisons(cs: seq<Comparison<Var>>, k: nat, s: Valuation)
    requires k <= |cs| && !RunComparisons(cs[..k], s).Kept?
    ensures RunComparisons(cs, s) == RunComparisons(cs[..k], s)
  {
    if k == |cs| {
      assert cs[..k] == cs;
    } else {
      assert cs[..|cs| - 1][..k] == cs[..k];
      StoppedComparisons(cs[..|cs| - 1], k, s);
    }
  }

  /** With every variable bound, the rows an index hits are exactly the rows that match. */
  lemma HitsMatch(states: States, atom: Atom, bindings: Bindings)
    requires WidthsOk(states, atom) && Variables(atom) <= bindings.Keys
    ensures ColumnsFit(states, atom.relation, BoundColumns(atom.args, bindings))
    ensures var rows := RowsOf(states, atom.relation);
      MatchesAny(states, atom, bindings) <==> Hits(rows, BoundColumns(atom.args, bindings), Probe(atom.args, bindings), |rows|) != []
  {
    var rows, columns, probe := RowsOf(states, atom.relation), BoundColumns(atom.args, bindings), Probe(atom.args, bindings);
    var hits := Hits(rows, columns, probe, |rows|);
    forall i: nat | i < |rows|
      ensures Matches(atom, bindings, rows[i]) <==> i in hits
    {
      ProjectedMatches(atom, bindings, rows[i]);
    }
    if hits != [] {
      assert hits[0] in hits;
    }
  }

  lemma ProjectedMatches(atom: Atom, bindings: Bindings, row: Row)
    requires |row| == |atom.args| && Variables(atom) <= bindings.Keys
    ensures Matches(atom, bindings, row) <==>
      Projected(row, BoundColumns(atom.args, bindings)) == Probe(atom.args, bindings)
  {
    var columns := BoundColumns(atom.args, bindings);
    if Projected(row, columns) == Probe(atom.args, bindings) {
      forall i: nat | i < |row|
        ensures MatchesArg(atom.args[i], bindings, row[i])
      {
        if !atom.args[i].Wildcard? {
          assert ArgBound(atom.args[i], bindings) && i in columns;
          var k :| 0 <= k < |columns| && columns[k] == i;
          assert Projected(row, columns)[k] == Probe(atom.args, bindings)[k];
        }
      }
    }
  }

  /** The bindings are those before, and some new variables. */
  ghost predicate Bound(before: Bindings, newlyBound: seq<Var>, after: Bindings) {
    && (forall x :: x in before ==> x in after && after[x] == before[x])
    && (forall x :: x in after <==> x in before || x in newlyBound)
    && (forall k :: 0 <= k < |newlyBound| ==> newlyBound[k] !in before)
    && (forall j, k :: 0 <= j < k < |newlyBound| ==> newlyBound[j] != newlyBound[k])
  }

  /* ------------------------------------------------------------------ */
  /* What a search means                                                  */
  /* ------------------------------------------------------------------ */

  /** The positive atoms from `depth` on hold, each matched by the parent listed for it. */
  ghost predicate ParentsMatch(q: Question, depth: nat, s: Valuation, parents: seq<Parent>) {
    var atoms := Positives(q.rule.body);
    depth <= |atoms| && |parents| == |atoms| - depth && forall i :: 0 <= i < |parents| ==> ParentMatches(q.states, atoms[depth + i], s, parents[i])
  }

  ghost predicate ParentMatches(states: States, atom: Atom, s: Valuation, parent: Parent) {
    parent.relation == atom.relation && parent.row in RowsOf(states, atom.relation) && Matches(atom, s, parent.row)
  }

  ghost predicate AtomsHold(q: Question, depth: nat, s: Valuation) {
    forall i :: depth <= i < |Positives(q.rule.body)| ==> AtomHolds(DatabaseOf(q.states), Positives(q.rule.body)[i], s)
  }

  lemma HoldsInStates(states: States, atom: Atom, s: Valuation)
    ensures AtomHolds(DatabaseOf(states), atom, s) <==> exists i ::
      0 <= i < |RowsOf(states, atom.relation)| && Matches(atom, s, RowsOf(states, atom.relation)[i])
  {
    var rows := RowsOf(states, atom.relation);
    if AtomHolds(DatabaseOf(states), atom, s) {
      var row :| row in Rows(DatabaseOf(states), atom.relation) && Matches(atom, s, row);
      var i :| 0 <= i < |rows| && rows[i] == row;
    }
    if i :| 0 <= i < |rows| && Matches(atom, s, rows[i]) {
      assert rows[i] in Rows(DatabaseOf(states), atom.relation);
    }
  }

  /** The first row extends the bindings exactly for the valuations it matches. */
  lemma ExtendMeans(bindings: Bindings, atom: Atom, row: Row, s: Valuation)
    ensures Extend(bindings, atom, row).Some? ==>
      (Respects(s, Extend(bindings, atom, row).value) <==> Respects(s, bindings) && Matches(atom, s, row))
    ensures Extend(bindings, atom, row).None? ==> !(Respects(s, bindings) && Matches(atom, s, row))
  {
    if |row| == |atom.args| {
      ExtendFromMeans(bindings, atom.args, row, 0);
    }
  }

  /** Some full match, from one row of one atom on, is judged so; its valuation respects the bindings. */
  ghost predicate Reached(q: Question, depth: nat, bindings: Bindings, before: seq<Parent>, verdict: Verdict,
                          s: Bindings, parents: seq<Parent>)
  {
    && Respects(s, bindings) && ParentsMatch(q, depth, s, parents) && BoundTo(q, |Positives(q.rule.body)|, s)
    && Judge(q, s, before + parents) == verdict
  }

  /** A search that ends in anything but `Missing` ends as some full match of the atoms is judged. */
  lemma {:induction false} NaiveReaches(q: Question, depth: nat, bindings: Bindings, before: seq<Parent>, from: nat)
    returns (s: Bindings, parents: seq<Parent>)
    requires depth <= |Positives(q.rule.body)| && BoundTo(q, depth, bindings)
    requires !Naive(q, depth, bindings, before, from).Missing?
    ensures Reached(q, depth, bindings, before, Naive(q, depth, bindings, before, from), s, parents)
    decreases |Positives(q.rule.body)| - depth, if depth == |Positives(q.rule.body)| then 0 else |RowsOf(q.states, Positives(q.rule.body)[depth].relation)| - from
  {
    if depth == |Positives(q.rule.body)| {
      s, parents := bindings, [];
      assert before + parents == before;
    } else {
      var atom := Positives(q.rule.body)[depth];
      var rows := RowsOf(q.states, atom.relation);
      NaiveStep(q, depth, bindings, before, from);
      var found := NaiveRow(q, depth, bindings, before, from);
      if found.Missing? {
        s, parents := NaiveReaches(q, depth, bindings, before, from + 1);
      } else {
        var next, parent := Extend(bindings, atom, rows[from]).value, Parent(atom.relation, rows[from]);
        NextBound(q, depth, bindings, rows[from], next);
        var rest;
        s, rest := NaiveReaches(q, depth + 1, next, before + [parent], 0);
        parents := [parent] + rest;
        ReachedStep(q, depth, bindings, before, rows[from], found, s, rest);
      }
    }
  }

  lemma ReachedStep(q: Question, depth: nat, bindings: Bindings, before: seq<Parent>, row: Row, verdict: Verdict,
                    s: Bindings, rest: seq<Parent>)
    requires depth < |Positives(q.rule.body)| && row in RowsOf(q.states, Positives(q.rule.body)[depth].relation)
    requires var atom := Positives(q.rule.body)[depth];
      Extend(bindings, atom, row).Some? && Reached(q, depth + 1, Extend(bindings, atom, row).value, before + [Parent(atom.relation, row)], verdict, s, rest)
    ensures Reached(q, depth, bindings, before, verdict, s, [Parent(Positives(q.rule.body)[depth].relation, row)] + rest)
  {
    var atom := Positives(q.rule.body)[depth];
    var parent := Parent(atom.relation, row);
    ExtendMeans(bindings, atom, row, s);
    assert before + [parent] + rest == before + ([parent] + rest);
    ParentsPrepend(q, depth, s, parent, rest);
  }

  lemma ParentsPrepend(q: Question, depth: nat, s: Valuation, parent: Parent, rest: seq<Parent>)
    requires depth < |Positives(q.rule.body)| && ParentsMatch(q, depth + 1, s, rest)
    requires ParentMatches(q.states, Positives(q.rule.body)[depth], s, parent)
    ensures ParentsMatch(q, depth, s, [parent] + rest)
  {
    forall i | 0 < i < |rest| + 1
      ensures ParentMatches(q.states, Positives(q.rule.body)[depth + i], s, ([parent] + rest)[i])
    {
      assert ParentMatches(q.states, Positives(q.rule.body)[depth + 1 + (i - 1)], s, rest[i - 1]);
    }
  }

  /** A valuation some row derives: the search is for these. */
  ghost predicate Explains(q: Question, s: Valuation) {
    && !AnyMatches(q.states, Negatives(q.rule.body), s)
    && RunComparisons(RelationalPart(q.rule).comparisons, s).Kept?
    && EvaluateSolution(q.functions, q.rule, s) == Kept(q.row)
  }

  /** Bindings and a valuation that agree on the relational variables are judged alike. */
  lemma JudgeAgrees(q: Question, bindings: Bindings, s: Valuation)
    requires WellShaped(q.rule) && BoundTo(q, |Positives(q.rule.body)|, bindings) && Respects(s, bindings)
    ensures Explains(q, s) <==> Explains(q, bindings)
  {
    var xs := Relational(Positives(q.rule.body));
    assert AgreeOn(s, bindings, xs);
    SolutionAgrees(q.functions, q.rule, s, bindings);
    forall i: nat | i < |RelationalPart(q.rule).comparisons|
      ensures ComparisonVariables(RelationalPart(q.rule).comparisons[i]) <= xs
    {
      RelationalReads(q.rule, i);
    }
    ComparisonsAgree(RelationalPart(q.rule).comparisons, s, bindings, xs);
    forall n | 0 <= n < |Negatives(q.rule.body)|
      ensures MatchesAny(q.states, Negatives(q.rule.body)[n], s) <==>
        MatchesAny(q.states, Negatives(q.rule.body)[n], bindings)
    {
      MatchesAgrees(q.states, Negatives(q.rule.body)[n], s, bindings);
    }
  }

  lemma MatchesAgrees(states: States, atom: Atom, s: Valuation, t: Valuation)
    requires AgreeOn(s, t, Variables(atom))
    ensures MatchesAny(states, atom, s) <==> MatchesAny(states, atom, t)
  {
    assert forall row :: Matches(atom, s, row) <==> Matches(atom, t, row);
  }

  ghost predicate MatchesFrom(q: Question, depth: nat, from: nat, s: Valuation)
    requires depth < |Positives(q.rule.body)|
  {
    var atom := Positives(q.rule.body)[depth];
    var rows := RowsOf(q.states, atom.relation);
    exists i :: from <= i < |rows| && Matches(atom, s, rows[i])
  }

  /** A matching row extends the bindings, and the next atom has a matching row too. */
  lemma MatchedNext(q: Question, depth: nat, bindings: Bindings, row: Row, s: Valuation) returns (next: Bindings)
    requires depth < |Positives(q.rule.body)| && BoundTo(q, depth, bindings) && Respects(s, bindings)
    requires AtomsHold(q, depth + 1, s) && Matches(Positives(q.rule.body)[depth], s, row)
    ensures Extend(bindings, Positives(q.rule.body)[depth], row) == Some(next)
    ensures BoundTo(q, depth + 1, next) && Respects(s, next)
    ensures depth + 1 < |Positives(q.rule.body)| ==> AtomsHold(q, depth + 2, s) && MatchesFrom(q, depth + 1, 0, s)
  {
    ExtendMeans(bindings, Positives(q.rule.body)[depth], row, s);
    next := Extend(bindings, Positives(q.rule.body)[depth], row).value;
    NextBound(q, depth, bindings, row, next);
    if depth + 1 < |Positives(q.rule.body)| {
      HoldsInStates(q.states, Positives(q.rule.body)[depth + 1], s);
    }
  }

  /** A search that finds nothing has judged every full match, and found it wanting. */
  lemma {:induction false} NaiveJudges(q: Question, depth: nat, bindings: Bindings, before: seq<Parent>, from: nat,
                                       s: Valuation) returns (full: Bindings, parents: seq<Parent>)
    requires depth <= |Positives(q.rule.body)| && BoundTo(q, depth, bindings)
    requires Naive(q, depth, bindings, before, from).Missing? && Respects(s, bindings)
    requires depth < |Positives(q.rule.body)| ==> AtomsHold(q, depth + 1, s) && MatchesFrom(q, depth, from, s)
    ensures BoundTo(q, |Positives(q.rule.body)|, full) && Respects(s, full) && Judge(q, full, parents).Missing?
    decreases |Positives(q.rule.body)| - depth, if depth == |Positives(q.rule.body)| then 0 else |RowsOf(q.states, Positives(q.rule.body)[depth].relation)| - from
  {
    if depth == |Positives(q.rule.body)| {
      full, parents := bindings, before;
    } else {
      NaiveStep(q, depth, bindings, before, from);
      var row := RowsOf(q.states, Positives(q.rule.body)[depth].relation)[from];
      if Matches(Positives(q.rule.body)[depth], s, row) {
        var next := MatchedNext(q, depth, bindings, row, s);
        full, parents := NaiveJudges(q, depth + 1, next, before + [Parent(Positives(q.rule.body)[depth].relation, row)], 0, s);
      } else {
        full, parents := NaiveJudges(q, depth, bindings, before, from + 1, s);
      }
    }
  }

  lemma ExplainedJudged(q: Question, bindings: Bindings, parents: seq<Parent>)
    requires Explains(q, bindings)
    ensures !Judge(q, bindings, parents).Missing?
  {
  }

  /** A search that finds nothing leaves nothing to find. */
  lemma NaiveMisses(q: Question, depth: nat, bindings: Bindings, before: seq<Parent>, from: nat, s: Valuation)
    requires WellShaped(q.rule) && depth <= |Positives(q.rule.body)| && BoundTo(q, depth, bindings)
    requires Naive(q, depth, bindings, before, from).Missing? && Respects(s, bindings)
    requires depth < |Positives(q.rule.body)| ==> AtomsHold(q, depth + 1, s) && MatchesFrom(q, depth, from, s)
    ensures !Explains(q, s)
  {
    if Explains(q, s) {
      var full, parents := NaiveJudges(q, depth, bindings, before, from, s);
      JudgeAgrees(q, full, s);
      ExplainedJudged(q, full, parents);
    }
  }

  /* ------------------------------------------------------------------ */
  /* Witnesses                                                            */
  /* ------------------------------------------------------------------ */

  /** The head's variables bound to the row's cells, or `None` if one variable would need two values. */
  function HeadBindings(head: seq<HeadArg>, row: Row): (r: Option<Bindings>)
    requires |head| == |row|
    ensures r.Some? ==> forall x :: x in r.value <==> HeadVariable(x) in head
    ensures r.Some? ==> forall p :: 0 <= p < |head| && head[p].HeadVariable? ==> r.value[head[p].name] == row[p]
    ensures r.None? ==> exists p, p' :: 0 <= p < p' < |head| && head[p].HeadVariable? && head[p'] == head[p] && row[p] != row[p']
  {
    if head == [] then
      Some(map[])
    else
      var n := |head| - 1;
      assert head == head[..n] + [head[n]];
      var front := HeadBindings(head[..n], row[..n]);
      if front.None? then
        assert exists p, p' :: 0 <= p < p' < n && head[..n][p].HeadVariable? && head[..n][p'] == head[..n][p] && row[..n][p] != row[..n][p'];
        None
      else if !head[n].HeadVariable? then
        front
      else if head[n].name in front.value && front.value[head[n].name] != row[n] then
        assert HeadVariable(head[n].name) in head[..n];
        None
      else
        Some(front.value[head[n].name := row[n]])
  }

  /** A solution of the rule that derives the row. */
  ghost predicate Solves(q: Question, s: Valuation) {
    BodySolution(RelationalPart(q.rule), DatabaseOf(q.states), s) && EvaluateSolution(q.functions, q.rule, s) == Kept(q.row)
  }

  lemma {:induction false} ComparisonsKept(cs: seq<Comparison<Var>>, s: Valuation)
    ensures RunComparisons(cs, s).Kept? <==> forall i :: 0 <= i < |cs| ==> ComparisonHolds(cs[i], s)
    ensures RunComparisons(cs, s).Kept? ==> RunComparisons(cs, s) == Kept(s)
  {
    if cs != [] {
      ComparisonsKept(cs[..|cs| - 1], s);
      assert forall i :: 0 <= i < |cs| - 1 ==> cs[..|cs| - 1][i] == cs[i];
    }
  }

  /** Matching the positive atoms and being judged to explain the row is being a solution that derives it. */
  lemma ExplainsSolves(q: Question, s: Valuation)
    ensures Solves(q, s) <==> AtomsHold(q, 0, s) && Explains(q, s)
  {
    ComparisonsKept(RelationalPart(q.rule).comparisons, s);
    forall n | 0 <= n < |Negatives(q.rule.body)|
      ensures MatchesAny(q.states, Negatives(q.rule.body)[n], s) <==>
        AtomHolds(DatabaseOf(q.states), Negatives(q.rule.body)[n], s)
    {
      HoldsInStates(q.states, Negatives(q.rule.body)[n], s);
    }
  }

  lemma {:induction false} HeadRowAt(head: seq<Arithmetic<Var>>, t: Valuation, p: nat)
    requires HeadRow(head, t).Kept? && p < |head| && head[p].rest == [] && head[p].init.Label?
    ensures HeadRow(head, t).value[p] == At(t, head[p].init.place)
  {
    if p < |head| - 1 {
      HeadRowAt(head[..|head| - 1], t, p);
    }
  }

  /** A derived row shows, at a head variable, the variable's value after the calls. */
  lemma DerivedAt(q: Question, s: Valuation, p: nat)
    requires EvaluateSolution(q.functions, q.rule, s) == Kept(q.row) && p < |q.rule.head|
    requires q.rule.head[p].HeadVariable?
    ensures RunCalls(q.functions, Calls(q.rule.body), s).Kept? && |q.row| == |q.rule.head|
    ensures q.row[p] == At(RunCalls(q.functions, Calls(q.rule.body), s).value, q.rule.head[p].name)
  {
    var t := RunCalls(q.functions, Calls(q.rule.body), s).value;
    ComparisonsKept(ComputedComparisons(q.rule), t);
    HeadRowAt(HeadExpressions(q.rule.head), t, p);
  }

  /** A solution, moved to the head's bindings where it is free, is still a solution - and respects them. */
  lemma SolutionRespects(q: Question, s: Valuation, b: Bindings) returns (s': Valuation)
    requires WellShaped(q.rule) && Solves(q, s) && |q.row| == |q.rule.head|
    requires HeadBindings(q.rule.head, q.row) == Some(b)
    ensures Solves(q, s') && Respects(s', b)
  {
    var xs := Relational(Positives(q.rule.body));
    s' := Combine(s, b, xs);
    RelationalUnbound(q.rule);
    forall x | x in b
      ensures At(s', x) == b[x]
    {
      var p :| 0 <= p < |q.rule.head| && q.rule.head[p] == HeadVariable(x);
      DerivedAt(q, s, p);
      OutsideOutputs(q.functions, Calls(q.rule.body), s);
    }
    SolvesAgrees(q, s, s');
  }

  lemma SolvesAgrees(q: Question, s: Valuation, t: Valuation)
    requires WellShaped(q.rule) && Solves(q, s) && AgreeOn(s, t, Relational(Positives(q.rule.body)))
    ensures Solves(q, t)
  {
    var cat, db := RelationalPart(q.rule), DatabaseOf(q.states);
    SolutionAgrees(q.functions, q.rule, s, t);
    forall i | 0 <= i < |cat.positives|
      ensures AtomHolds(db, cat.positives[i], t)
    {
      AtomHoldsAgrees(db, cat.positives[i], s, t);
    }
    forall i | 0 <= i < |cat.negatives|
      ensures !AtomHolds(db, cat.negatives[i], t)
    {
      AtomHoldsAgrees(db, cat.negatives[i], s, t);
    }
    forall i: nat | i < |cat.comparisons|
      ensures ComparisonHolds(cat.comparisons[i], t)
    {
      RelationalReads(q.rule, i);
      ComparisonHoldsAgrees(cat.comparisons[i], s, t);
    }
  }

  /** A fault met while judging a full match: in a comparison, or in the row-local part. */
  ghost predicate FaultsOn(q: Question, s: Valuation) {
    && AtomsHold(q, 0, s) && !AnyMatches(q.states, Negatives(q.rule.body), s)
    && (RunComparisons(RelationalPart(q.rule).comparisons, s).Fault? || EvaluateSolution(q.functions, q.rule, s).Fault?)
  }

  /** What a verdict promises: parents of a solution that derives the row, no such solution, or a faulting match. */
  ghost predicate Answers(q: Question, verdict: Verdict) {
    match verdict
    case Witnessed(parents) => exists s :: Solves(q, s) && ParentsMatch(q, 0, s, parents)
    case Missing => !exists s :: Solves(q, s)
    case Faulted => exists s :: FaultsOn(q, s)
  }

  lemma NaiveAnswers(q: Question, b: Bindings)
    requires WellShaped(q.rule) && |q.row| == |q.rule.head| && HeadBindings(q.rule.head, q.row) == Some(b)
    ensures Answers(q, Naive(q, 0, b, [], 0))
  {
    var verdict := Naive(q, 0, b, [], 0);
    if verdict.Missing? {
      forall s
        ensures !Solves(q, s)
      {
        MissingNothing(q, b, s);
      }
    } else {
      var s, parents := NaiveReaches(q, 0, b, [], 0);
      assert [] + parents == parents;
      ReachedAnswers(q, b, verdict, s, parents);
    }
  }

  lemma MissingNothing(q: Question, b: Bindings, s: Valuation)
    requires WellShaped(q.rule) && |q.row| == |q.rule.head| && HeadBindings(q.rule.head, q.row) == Some(b)
    requires Naive(q, 0, b, [], 0).Missing?
    ensures !Solves(q, s)
  {
    if Solves(q, s) {
      var s' := SolutionRespects(q, s, b);
      ExplainsSolves(q, s');
      assert AtomHolds(DatabaseOf(q.states), Positives(q.rule.body)[0], s');
      HoldsInStates(q.states, Positives(q.rule.body)[0], s');
      NaiveMisses(q, 0, b, [], 0, s');
    }
  }

  lemma ReachedAnswers(q: Question, b: Bindings, verdict: Verdict, s: Bindings, parents: seq<Parent>)
    requires !verdict.Missing? && ParentsMatch(q, 0, s, parents) && Judge(q, s, parents) == verdict
    ensures Answers(q, verdict)
  {
    ReachedHolds(q, s, parents);
    ExplainsSolves(q, s);
    if verdict.Faulted? {
      assert FaultsOn(q, s);
    }
  }

  lemma ReachedHolds(q: Question, s: Valuation, parents: seq<Parent>)
    requires ParentsMatch(q, 0, s, parents)
    ensures AtomsHold(q, 0, s)
  {
    forall i | 0 <= i < |Positives(q.rule.body)|
      ensures AtomHolds(DatabaseOf(q.states), Positives(q.rule.body)[i], s)
    {
      assert ParentMatches(q.states, Positives(q.rule.body)[0 + i], s, parents[i]);
      assert parents[i].row in Rows(DatabaseOf(q.states), Positives(q.rule.body)[i].relation);
    }
  }

  lemma ConflictMissing(q: Question, s: Valuation)
    requires |q.row| == |q.rule.head| && HeadBindings(q.rule.head, q.row).None?
    ensures !Solves(q, s)
  {
    var p, p' :| 0 <= p < p' < |q.rule.head| && q.rule.head[p].HeadVariable? && q.rule.head[p'] == q.rule.head[p] && q.row[p] != q.row[p'];
    if Solves(q, s) {
      DerivedAt(q, s, p);
      DerivedAt(q, s, p');
      assert false;
    }
  }

  /** Explains one row by one ordinary rule. The parents it lists are stored rows that one solution deriving the row
      matches; if it finds none, no solution derives the row; and it fails only where some full match faults. */
  method WitnessOf(q: Question, program: Option<RowProgram>) returns (verdict: Verdict)
    requires |q.row| == |q.rule.head| && ReadyFor(q, program)
    ensures Answers(q, verdict)
  {
    var b := HeadBindings(q.rule.head, q.row);
    if b.None? {
      forall s {
        ConflictMissing(q, s);
      }
      return Missing;
    }
    NaiveAnswers(q, b.value);
    var search := new Search(q, program);
    search.bindings := b.value;
    verdict := search.SearchFrom(0);
  }
}

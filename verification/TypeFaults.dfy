/** What the type check refuses: exactly the rules that, on some well-typed data, do something wrong with a value. */
module TypeFaults {
  import opened Wrappers
  import opened Types

  /* ------------------------------------------------------------------ */
  /* Doing something wrong                                                */
  /* ------------------------------------------------------------------ */

  /** What an expression's value is: an operand's kind, and a number when anything is computed. */
  function Kind(e: Expression, s: Valuation): DataType
    requires ExpressionBound(e, s)
  {
    if e.rest == [] then TypeOf(OperandValue(e.init, s)) else Integer
  }

  /** Something is computed with a text. */
  predicate MeetsText(e: Expression, s: Valuation)
    requires ExpressionBound(e, s)
  {
    e.rest != [] && (OperandValue(e.init, s).Text? || exists i :: 0 <= i < |e.rest| && OperandValue(e.rest[i].1, s).Text?)
  }

  /** A comparison computes with a text, compares a number with a text, or orders a text. */
  predicate ComparesWrong(c: Comparison, s: Valuation)
    requires ExpressionBound(c.left, s) && ExpressionBound(c.right, s)
  {
    || MeetsText(c.left, s) || MeetsText(c.right, s) || Kind(c.left, s) != Kind(c.right, s)
    || (c.ordered && Kind(c.left, s) == Symbol)
  }

  /** A call is passed an argument of another type than its parameter's. */
  predicate PassesWrong(call: Call, signatures: Signatures, s: Valuation)
    requires forall i :: 0 <= i < |call.args| ==> Bound(call.args[i], s)
  {
    call.function_ in signatures && !RowTyped(Arguments(call.args, s), signatures[call.function_].parameters)
  }

  /** A head argument computes with a text, sums or orders texts, or derives a cell of another type than its column's. */
  predicate DerivesWrong(arg: HeadArg, column: DataType, s: Valuation)
    requires HeadArgBound(arg, s)
  {
    match arg
    case HeadVar(x) => TypeOf(s[x]) != column
    case HeadExpression(e) => MeetsText(e, s) || Kind(e, s) != column
    case HeadAggregate(count, e) => MeetsText(e, s) || (!count && Kind(e, s) == Symbol) || column != Integer
  }

  predicate HeadArgBound(arg: HeadArg, s: Valuation) {
    match arg
    case HeadVar(x) => x in s
    case HeadExpression(e) => ExpressionBound(e, s)
    case HeadAggregate(_, e) => ExpressionBound(e, s)
  }

  /** Everything the rule reads has a value. */
  ghost predicate RuleBound(rule: Rule, s: Valuation) {
    && (forall i :: 0 <= i < |rule.comparisons| ==>
          ExpressionBound(rule.comparisons[i].left, s) && ExpressionBound(rule.comparisons[i].right, s))
    && (forall k :: 0 <= k < |rule.calls| ==> forall i :: 0 <= i < |rule.calls[k].args| ==> Bound(rule.calls[k].args[i], s))
    && (forall p :: 0 <= p < |rule.headArgs| ==> HeadArgBound(rule.headArgs[p], s))
  }

  /** With these values of its variables, the rule does something wrong. */
  ghost predicate Misuses(rule: Rule, signatures: Signatures, columns: Columns, s: Valuation)
    requires RuleBound(rule, s) && rule.head in columns && |columns[rule.head]| == |rule.headArgs|
  {
    || (exists i :: 0 <= i < |rule.comparisons| && ComparesWrong(rule.comparisons[i], s))
    || (exists k :: 0 <= k < |rule.calls| && PassesWrong(rule.calls[k], signatures, s))
    || (exists p :: 0 <= p < |rule.headArgs| && DerivesWrong(rule.headArgs[p], columns[rule.head][p], s))
  }

  /** The relations the rule names are declared, with as many columns as it gives them; so are its functions. */
  ghost predicate Declared(rule: Rule, signatures: Signatures, columns: Columns) {
    && (forall i :: 0 <= i < |Atoms(rule)| ==> AtomDeclared(Atoms(rule)[i], columns))
    && rule.head in columns && |columns[rule.head]| == |rule.headArgs|
    && forall k :: 0 <= k < |rule.calls| ==>
      rule.calls[k].function_ in signatures && |signatures[rule.calls[k].function_].parameters| == |rule.calls[k].args|
  }

  predicate AtomDeclared(atom: Atom, columns: Columns) {
    atom.relation in columns && |columns[atom.relation]| == |atom.args|
  }

  /** A constant stands in a column of the other type, or a variable in columns of both. */
  ghost predicate Misplaced(rule: Rule, columns: Columns)
    requires forall i :: 0 <= i < |Atoms(rule)| ==> AtomDeclared(Atoms(rule)[i], columns)
  {
    || (exists i, p :: ConstantMisplaced(Atoms(rule), columns, i, p))
    || (exists x, i, p, j, q :: StandsTwice(Atoms(rule), columns, x, i, p, j, q))
  }

  /** The variable stands in two columns of different types. */
  predicate StandsTwice(atoms: seq<Atom>, columns: Columns, x: Name, i: int, p: int, j: int, q: int)
    requires forall i :: 0 <= i < |atoms| ==> AtomDeclared(atoms[i], columns)
  {
    && Stands(atoms, i, p, x) && Stands(atoms, j, q, x)
    && ColumnAt(atoms[i], columns, p) != ColumnAt(atoms[j], columns, q)
  }

  function ColumnAt(atom: Atom, columns: Columns, p: int): DataType
    requires AtomDeclared(atom, columns) && 0 <= p < |atom.args|
  {
    columns[atom.relation][p]
  }

  predicate Stands(atoms: seq<Atom>, i: int, p: int, x: Name) {
    0 <= i < |atoms| && 0 <= p < |atoms[i].args| && atoms[i].args[p] == Var(x)
  }

  predicate ConstantMisplaced(atoms: seq<Atom>, columns: Columns, i: int, p: int)
    requires forall i :: 0 <= i < |atoms| ==> AtomDeclared(atoms[i], columns)
  {
    && 0 <= i < |atoms| && 0 <= p < |atoms[i].args| && atoms[i].args[p].Const?
    && TypeOf(atoms[i].args[p].value) != ColumnAt(atoms[i], columns, p)
  }

  /** Well-typed relations, functions that keep their signatures, and values that satisfy the rule's body over them. */
  ghost predicate Lives(rule: Rule, signatures: Signatures, columns: Columns, functions: Functions,
                        relations: Relations, s: Valuation)
  {
    WellTyped(relations, columns) && FunctionsTyped(functions, signatures) && Satisfies(rule, functions, relations, s)
  }

  /** On some well-typed data the rule does something wrong. */
  ghost predicate Faulty(rule: Rule, signatures: Signatures, columns: Columns)
    requires Declared(rule, signatures, columns)
  {
    || Misplaced(rule, columns)
    || exists functions, relations, s :: Lives(rule, signatures, columns, functions, relations, s) && MisusesBound(rule, signatures, columns, s)
  }

  ghost predicate MisusesBound(rule: Rule, signatures: Signatures, columns: Columns, s: Valuation)
    requires rule.head in columns && |columns[rule.head]| == |rule.headArgs|
  {
    RuleBound(rule, s) && Misuses(rule, signatures, columns, s)
  }

  /* ------------------------------------------------------------------ */
  /* Values of the right types                                            */
  /* ------------------------------------------------------------------ */

  /** With values of the variables' types, an expression is checked to be of its value's kind unless it meets a text. */
  lemma KindChecked(e: Expression, s: Valuation, vars: VarTypes, known: set<Name>)
    requires Sound(s, vars, known) && ExpressionKnown(e, known)
    ensures ExpressionBound(e, s) && (CheckedType(e, vars).None? <==> MeetsText(e, s))
    ensures !MeetsText(e, s) ==> CheckedType(e, vars) == Some(Kind(e, s))
  {
    OperandSound(e.init, s, vars, known);
    forall i | 0 <= i < |e.rest|
      ensures Bound(e.rest[i].1, s) && TypeOf(OperandValue(e.rest[i].1, s)) == OrInteger(OperandType(e.rest[i].1, vars))
    {
      OperandSound(e.rest[i].1, s, vars, known);
    }
  }

  lemma ComparisonChecked(c: Comparison, s: Valuation, vars: VarTypes, known: set<Name>)
    requires Sound(s, vars, known) && ExpressionKnown(c.left, known) && ExpressionKnown(c.right, known)
    ensures ExpressionBound(c.left, s) && ExpressionBound(c.right, s)
    ensures ComparisonFits(c, vars) <==> !ComparesWrong(c, s)
  {
    KindChecked(c.left, s, vars, known);
    KindChecked(c.right, s, vars, known);
  }

  lemma CallChecked(call: Call, signatures: Signatures, s: Valuation, vars: VarTypes, known: set<Name>)
    requires Sound(s, vars, known) && forall i :: 0 <= i < |call.args| ==> OperandKnown(call.args[i], known)
    requires call.function_ in signatures && |signatures[call.function_].parameters| == |call.args|
    ensures forall i :: 0 <= i < |call.args| ==> Bound(call.args[i], s)
    ensures CallFits(call, signatures, vars) <==> !PassesWrong(call, signatures, s)
  {
    forall i | 0 <= i < |call.args|
      ensures Bound(call.args[i], s)
      ensures TypeOf(OperandValue(call.args[i], s)) == OrInteger(OperandType(call.args[i], vars))
    {
      OperandSound(call.args[i], s, vars, known);
    }
  }

  lemma HeadChecked(arg: HeadArg, column: DataType, s: Valuation, vars: VarTypes, known: set<Name>)
    requires Sound(s, vars, known) && HeadArgKnown(arg, known)
    ensures HeadArgBound(arg, s) && (HeadArgFits(arg, vars, column) <==> !DerivesWrong(arg, column, s))
  {
    match arg
    case HeadVar(x) => OperandSound(Variable(x), s, vars, known);
    case HeadExpression(e) => KindChecked(e, s, vars, known);
    case HeadAggregate(_, e) => KindChecked(e, s, vars, known);
  }

  lemma KnownMore(rule: Rule, k: nat)
    requires k <= |rule.calls|
    ensures KnownBefore(rule, k) <= KnownBefore(rule, |rule.calls|)
  {
  }

  lemma ArgumentsKnown(rule: Rule, signatures: Signatures, k: nat)
    requires ShapeOk(rule, signatures) && k < |rule.calls|
    ensures forall i :: 0 <= i < |rule.calls[k].args| ==> OperandKnown(rule.calls[k].args[i], KnownBefore(rule, |rule.calls|))
  {
    assert CallShaped(rule, signatures, k);
    KnownMore(rule, k);
  }

  /** The constants stand in columns of their types. */
  ghost predicate ConstantsRight(rule: Rule, columns: Columns) {
    forall i :: 0 <= i < |Atoms(rule)| ==> ConstantsFit(Atoms(rule)[i], columns)
  }

  /** With values of the variables' types, the check fits exactly when nothing is done wrong. */
  lemma FitsExactly(rule: Rule, signatures: Signatures, columns: Columns, s: Valuation, vars: VarTypes)
    requires ShapeOk(rule, signatures) && Declared(rule, signatures, columns)
    requires Sound(s, vars, KnownBefore(rule, |rule.calls|))
    requires ConstantsRight(rule, columns)
    ensures RuleBound(rule, s) && (Fits(rule, signatures, columns, vars) <==> !Misuses(rule, signatures, columns, s))
  {
    var known := KnownBefore(rule, |rule.calls|);
    forall i | 0 <= i < |rule.comparisons|
      ensures ExpressionBound(rule.comparisons[i].left, s) && ExpressionBound(rule.comparisons[i].right, s)
      ensures ComparisonFits(rule.comparisons[i], vars) <==> !ComparesWrong(rule.comparisons[i], s)
    {
      ComparisonChecked(rule.comparisons[i], s, vars, known);
    }
    forall k | 0 <= k < |rule.calls|
      ensures forall i :: 0 <= i < |rule.calls[k].args| ==> Bound(rule.calls[k].args[i], s)
      ensures CallFits(rule.calls[k], signatures, vars) <==> !PassesWrong(rule.calls[k], signatures, s)
    {
      ArgumentsKnown(rule, signatures, k);
      CallChecked(rule.calls[k], signatures, s, vars, known);
    }
    forall p | 0 <= p < |rule.headArgs|
      ensures HeadArgBound(rule.headArgs[p], s)
      ensures HeadArgFits(rule.headArgs[p], vars, columns[rule.head][p]) <==> !DerivesWrong(rule.headArgs[p], columns[rule.head][p], s)
    {
      HeadChecked(rule.headArgs[p], columns[rule.head][p], s, vars, known);
    }
  }

  /* ------------------------------------------------------------------ */
  /* Places                                                               */
  /* ------------------------------------------------------------------ */

  lemma StandsOccurs(atoms: seq<Atom>, columns: Columns, i: nat, p: nat, x: Name)
    requires forall i :: 0 <= i < |atoms| ==> AtomDeclared(atoms[i], columns)
    requires Stands(atoms, i, p, x)
    ensures Occurs(atoms, AsTyping(columns), x, ColumnAt(atoms[i], columns, p))
  {
    assert OccursAt(atoms, AsTyping(columns), i, p, x, columns[atoms[i].relation][p]);
  }

  /** Nothing is misplaced if and only if constants fit and no variable is typed two ways. */
  lemma PlacedExactly(rule: Rule, columns: Columns)
    requires forall i :: 0 <= i < |Atoms(rule)| ==> AtomDeclared(Atoms(rule)[i], columns)
    ensures Misplaced(rule, columns) <==> !(ConstantsRight(rule, columns) && Agreeing(Atoms(rule), AsTyping(columns)))
  {
    var atoms, types := Atoms(rule), AsTyping(columns);
    if x, i, p, j, q :| StandsTwice(atoms, columns, x, i, p, j, q) {
      StandsOccurs(atoms, columns, i, p, x);
      StandsOccurs(atoms, columns, j, q, x);
    }
    if i, p :| ConstantMisplaced(atoms, columns, i, p) {
      assert !ConstantsFit(atoms[i], columns);
    }
    if !ConstantsRight(rule, columns) {
      var i :| 0 <= i < |atoms| && !ConstantsFit(atoms[i], columns);
      var p :| 0 <= p < |atoms[i].args| && atoms[i].args[p].Const? && TypeOf(atoms[i].args[p].value) != columns[atoms[i].relation][p];
      assert ConstantMisplaced(atoms, columns, i, p);
    }
    if !Agreeing(atoms, types) {
      TwoWays(rule, columns);
    }
  }

  lemma TwoWays(rule: Rule, columns: Columns)
    requires forall i :: 0 <= i < |Atoms(rule)| ==> AtomDeclared(Atoms(rule)[i], columns)
    requires !Agreeing(Atoms(rule), AsTyping(columns))
    ensures Misplaced(rule, columns)
  {
    var atoms, types := Atoms(rule), AsTyping(columns);
    var x, t, u :| Occurs(atoms, types, x, t) && Occurs(atoms, types, x, u) && t != u;
    var i: nat, p: nat :| OccursAt(atoms, types, i, p, x, t);
    var j: nat, q: nat :| OccursAt(atoms, types, j, q, x, u);
    assert StandsTwice(atoms, columns, x, i, p, j, q);
  }

  /* ------------------------------------------------------------------ */
  /* Some well-typed data                                                 */
  /* ------------------------------------------------------------------ */

  /** A value of the type. */
  function Sample(t: DataType): (v: Value)
    ensures TypeOf(v) == t
  {
    match t
    case Integer => Number(1)
    case Symbol => Text("")
  }

  /** A value of its type for every variable. */
  function SomeValues(vars: VarTypes): (s: Valuation)
    ensures s.Keys == vars.Keys && forall x :: x in s ==> s[x] == Sample(vars[x])
  {
    map x | x in vars :: Sample(vars[x])
  }

  function CellFor(arg: Arg, column: DataType, s: Valuation): Value
    requires arg.Var? ==> arg.name in s
  {
    match arg
    case Var(x) => s[x]
    case Const(value) => value
    case Placeholder => Sample(column)
  }

  /** A row the atom matches. */
  function RowFor(atom: Atom, columns: Columns, s: Valuation): (row: seq<Value>)
    requires AtomDeclared(atom, columns)
    requires forall p :: 0 <= p < |atom.args| && atom.args[p].Var? ==> atom.args[p].name in s
    ensures |row| == |atom.args| && forall p :: 0 <= p < |row| ==> row[p] == CellFor(atom.args[p], columns[atom.relation][p], s)
  {
    seq(|atom.args|, p requires 0 <= p < |atom.args| => CellFor(atom.args[p], columns[atom.relation][p], s))
  }

  lemma RowForMatches(atom: Atom, columns: Columns, s: Valuation)
    requires AtomDeclared(atom, columns)
    requires forall p :: 0 <= p < |atom.args| && atom.args[p].Var? ==> atom.args[p].name in s
    ensures Matches(atom, s, RowFor(atom, columns, s))
  {
  }

  ghost predicate AtomsBound(atoms: seq<Atom>, columns: Columns, s: Valuation) {
    forall i :: 0 <= i < |atoms| ==> AtomDeclared(atoms[i], columns) && NamesOf([atoms[i]]) <= s.Keys
  }

  lemma NamesIn(atom: Atom, s: Valuation)
    requires NamesOf([atom]) <= s.Keys
    ensures forall p :: 0 <= p < |atom.args| && atom.args[p].Var? ==> atom.args[p].name in s
  {
    forall p | 0 <= p < |atom.args| && atom.args[p].Var?
      ensures atom.args[p].name in s
    {
      assert [atom][0].args[p].name in NamesOf([atom]);
    }
  }

  ghost function RelationFor(atoms: seq<Atom>, columns: Columns, s: Valuation, r: Name): set<seq<Value>>
    requires AtomsBound(atoms, columns, s)
  {
    set i | 0 <= i < |atoms| && atoms[i].relation == r :: MatchFor(atoms[i], columns, s)
  }

  function MatchFor(atom: Atom, columns: Columns, s: Valuation): seq<Value>
    requires AtomDeclared(atom, columns) && NamesOf([atom]) <= s.Keys
  {
    NamesIn(atom, s);
    RowFor(atom, columns, s)
  }

  ghost function RelationsFor(atoms: seq<Atom>, columns: Columns, s: Valuation): Relations
    requires AtomsBound(atoms, columns, s)
  {
    map r | r in (set i | 0 <= i < |atoms| :: atoms[i].relation) :: RelationFor(atoms, columns, s, r)
  }

  /** The atoms hold over the rows made for them. */
  lemma AtomsHold(atoms: seq<Atom>, columns: Columns, s: Valuation, i: nat)
    requires AtomsBound(atoms, columns, s) && i < |atoms|
    ensures Holds(RelationsFor(atoms, columns, s), atoms[i], s)
  {
    NamesIn(atoms[i], s);
    RowForMatches(atoms[i], columns, s);
    var row := MatchFor(atoms[i], columns, s);
    assert row in RelationFor(atoms, columns, s, atoms[i].relation);
  }

  /** Rows of variables, constants and values of their columns' types are well typed. */
  lemma RowForTyped(atom: Atom, columns: Columns, s: Valuation)
    requires AtomDeclared(atom, columns) && NamesOf([atom]) <= s.Keys && ConstantsFit(atom, columns)
    requires forall p :: 0 <= p < |atom.args| && atom.args[p].Var? && atom.args[p].name in s ==>
      TypeOf(s[atom.args[p].name]) == columns[atom.relation][p]
    ensures RowTyped(MatchFor(atom, columns, s), columns[atom.relation])
  {
    NamesIn(atom, s);
  }

  /** What each call answers: some value of its result's type. */
  function FunctionsFor(calls: seq<Call>, signatures: Signatures, s: Valuation): (functions: Functions)
    requires forall k :: 0 <= k < |calls| ==> CallBound(calls[k], signatures, s)
    ensures forall k :: 0 <= k < |calls| ==> Answered(calls[k], signatures, s, functions)
    ensures forall key :: key in functions ==> key.0 in signatures && functions[key] == AnswerOf(signatures, key.0)
  {
    if calls == [] then
      map[]
    else
      var call := calls[|calls| - 1];
      assert CallBound(call, signatures, s);
      FunctionsFor(calls[..|calls| - 1], signatures, s)[(call.function_, Arguments(call.args, s)) := AnswerOf(signatures, call.function_)]
  }

  predicate CallBound(call: Call, signatures: Signatures, s: Valuation) {
    call.function_ in signatures && forall i :: 0 <= i < |call.args| ==> Bound(call.args[i], s)
  }

  predicate Answered(call: Call, signatures: Signatures, s: Valuation, functions: Functions) {
    && CallBound(call, signatures, s) && (call.function_, Arguments(call.args, s)) in functions
    && functions[(call.function_, Arguments(call.args, s))] == AnswerOf(signatures, call.function_)
  }

  function AnswerOf(signatures: Signatures, f: Name): Value
    requires f in signatures
  {
    if signatures[f].result.Some? then Sample(signatures[f].result.value) else Number(1)
  }

  lemma AnswersTyped(calls: seq<Call>, signatures: Signatures, s: Valuation)
    requires forall k :: 0 <= k < |calls| ==> CallBound(calls[k], signatures, s)
    ensures FunctionsTyped(FunctionsFor(calls, signatures, s), signatures)
  {
  }

  /** All names of the rule are typed, and get values of their types. */
  lemma ValuesSound(rule: Rule, signatures: Signatures, columns: Columns)
    requires ShapeOk(rule, signatures) && Declared(rule, signatures, columns)
    requires Agreeing(Atoms(rule), AsTyping(columns))
    ensures Sound(SomeValues(TypesOf(rule, signatures, columns)), TypesOf(rule, signatures, columns), KnownBefore(rule, |rule.calls|))
  {
    var vars := TypesOf(rule, signatures, columns);
    forall x | x in KnownBefore(rule, |rule.calls|)
      ensures x in vars
    {
      if x in NamesOf(rule.positives) {
        var i, p :| 0 <= i < |rule.positives| && 0 <= p < |rule.positives[i].args| && rule.positives[i].args[p] == Var(x);
        assert Atoms(rule)[i] == rule.positives[i];
        VariableTyped(rule, columns, i, p, x);
      } else {
        OutputsBound(rule, signatures, |rule.calls|);
        assert rule.calls[..|rule.calls|] == rule.calls;
      }
    }
  }

  /** A variable has the type of the column it stands in. */
  lemma VariableTyped(rule: Rule, columns: Columns, i: nat, p: nat, x: Name)
    requires forall i :: 0 <= i < |Atoms(rule)| ==> AtomDeclared(Atoms(rule)[i], columns)
    requires Agreeing(Atoms(rule), AsTyping(columns)) && Stands(Atoms(rule), i, p, x)
    ensures Binds(Occurring(Atoms(rule), AsTyping(columns)), x, ColumnAt(Atoms(rule)[i], columns, p))
  {
    StandsOccurs(Atoms(rule), columns, i, p, x);
    OccurringTyped(Atoms(rule), AsTyping(columns));
  }

  lemma PositivesBound(rule: Rule, signatures: Signatures, columns: Columns, s: Valuation)
    requires ShapeOk(rule, signatures) && Declared(rule, signatures, columns)
    requires KnownBefore(rule, |rule.calls|) <= s.Keys
    ensures AtomsBound(rule.positives, columns, s)
  {
    forall i | 0 <= i < |rule.positives|
      ensures AtomDeclared(rule.positives[i], columns) && NamesOf([rule.positives[i]]) <= s.Keys
    {
      assert Atoms(rule)[i] == rule.positives[i];
      forall x | x in NamesOf([rule.positives[i]])
        ensures x in s
      {
        assert x in NamesOf(rule.positives);
      }
    }
  }

  lemma PositiveTyped(rule: Rule, signatures: Signatures, columns: Columns, s: Valuation, i: nat)
    requires ShapeOk(rule, signatures) && Declared(rule, signatures, columns)
    requires Agreeing(Atoms(rule), AsTyping(columns))
    requires ConstantsRight(rule, columns) && s == SomeValues(TypesOf(rule, signatures, columns))
    requires AtomsBound(rule.positives, columns, s) && i < |rule.positives|
    ensures RowTyped(MatchFor(rule.positives[i], columns, s), columns[rule.positives[i].relation])
  {
    var atom := rule.positives[i];
    assert Atoms(rule)[i] == atom;
    forall p | 0 <= p < |atom.args| && atom.args[p].Var? && atom.args[p].name in s
      ensures TypeOf(s[atom.args[p].name]) == columns[atom.relation][p]
    {
      var x := atom.args[p].name;
      VariableTyped(rule, columns, i, p, x);
      assert x in NamesOf(rule.positives);
      NotAnOutput(rule, signatures, x);
    }
    RowForTyped(atom, columns, s);
  }

  lemma CallsAnswered(rule: Rule, signatures: Signatures, columns: Columns, s: Valuation, functions: Functions, k: nat)
    requires ShapeOk(rule, signatures) && k < |rule.calls| && s == SomeValues(TypesOf(rule, signatures, columns))
    requires Answered(rule.calls[k], signatures, s, functions)
    ensures Calls(functions, rule.calls[k], s)
  {
    var call := rule.calls[k];
    if call.output.Some? {
      OutputLast(rule, signatures, k);
      OutputsKept(rule, signatures, k + 1, |rule.calls|, call.output.value);
      assert rule.calls[..|rule.calls|] == rule.calls;
    }
  }

  /** A rule with nothing misplaced is satisfied by some values of its variables' types, over some well-typed data. */
  lemma SomeLife(rule: Rule, signatures: Signatures, columns: Columns)
    returns (functions: Functions, relations: Relations, s: Valuation)
    requires ShapeOk(rule, signatures) && Declared(rule, signatures, columns) && !Misplaced(rule, columns)
    ensures Lives(rule, signatures, columns, functions, relations, s)
    ensures Sound(s, TypesOf(rule, signatures, columns), KnownBefore(rule, |rule.calls|))
  {
    PlacedExactly(rule, columns);
    ValuesSound(rule, signatures, columns);
    s := SomeValues(TypesOf(rule, signatures, columns));
    PositivesBound(rule, signatures, columns, s);
    relations := RelationsFor(rule.positives, columns, s);
    PositivesLive(rule, signatures, columns, s);
    CallsBound(rule, signatures, s);
    functions := FunctionsFor(rule.calls, signatures, s);
    CallsLive(rule, signatures, columns, s);
  }

  lemma PositivesLive(rule: Rule, signatures: Signatures, columns: Columns, s: Valuation)
    requires ShapeOk(rule, signatures) && Declared(rule, signatures, columns)
    requires Agreeing(Atoms(rule), AsTyping(columns))
    requires ConstantsRight(rule, columns) && s == SomeValues(TypesOf(rule, signatures, columns))
    requires AtomsBound(rule.positives, columns, s)
    ensures WellTyped(RelationsFor(rule.positives, columns, s), columns)
    ensures forall i :: 0 <= i < |rule.positives| ==> Holds(RelationsFor(rule.positives, columns, s), rule.positives[i], s)
  {
    forall i: nat | i < |rule.positives|
      ensures Holds(RelationsFor(rule.positives, columns, s), rule.positives[i], s)
      ensures RowTyped(MatchFor(rule.positives[i], columns, s), columns[rule.positives[i].relation])
    {
      AtomsHold(rule.positives, columns, s, i);
      PositiveTyped(rule, signatures, columns, s, i);
    }
  }

  lemma CallsLive(rule: Rule, signatures: Signatures, columns: Columns, s: Valuation)
    requires ShapeOk(rule, signatures) && s == SomeValues(TypesOf(rule, signatures, columns))
    requires forall k :: 0 <= k < |rule.calls| ==> CallBound(rule.calls[k], signatures, s)
    ensures FunctionsTyped(FunctionsFor(rule.calls, signatures, s), signatures)
    ensures forall k :: 0 <= k < |rule.calls| ==> Calls(FunctionsFor(rule.calls, signatures, s), rule.calls[k], s)
  {
    AnswersTyped(rule.calls, signatures, s);
    forall k: nat | k < |rule.calls|
      ensures Calls(FunctionsFor(rule.calls, signatures, s), rule.calls[k], s)
    {
      assert Answered(rule.calls[k], signatures, s, FunctionsFor(rule.calls, signatures, s));
      CallsAnswered(rule, signatures, columns, s, FunctionsFor(rule.calls, signatures, s), k);
    }
  }

  lemma CallsBound(rule: Rule, signatures: Signatures, s: Valuation)
    requires ShapeOk(rule, signatures) && KnownBefore(rule, |rule.calls|) <= s.Keys
    ensures forall k :: 0 <= k < |rule.calls| ==> CallBound(rule.calls[k], signatures, s)
  {
    forall k: nat | k < |rule.calls|
      ensures CallBound(rule.calls[k], signatures, s)
    {
      ArgumentsKnown(rule, signatures, k);
      assert CallShaped(rule, signatures, k);
    }
  }

  /* ------------------------------------------------------------------ */
  /* The check                                                            */
  /* ------------------------------------------------------------------ */

  /** A declared rule fails the check if and only if something in it is misplaced, or on some well-typed data -
      relations, functions and values of its variables - it compares a number with a text, orders, sums or computes with
      a text, passes a call a wrong argument, or derives a cell of another type than its column's. */
  lemma RefusedExactly(rule: Rule, signatures: Signatures, columns: Columns)
    requires ShapeOk(rule, signatures) && Declared(rule, signatures, columns)
    ensures !Checked(rule, signatures, columns) <==> Faulty(rule, signatures, columns)
  {
    PlacedExactly(rule, columns);
    if !Misplaced(rule, columns) {
      if Checked(rule, signatures, columns) {
        forall functions, relations, s | Lives(rule, signatures, columns, functions, relations, s)
          ensures !MisusesBound(rule, signatures, columns, s)
        {
          NamesSound(rule, signatures, columns, functions, relations, s, |rule.calls|);
          FitsExactly(rule, signatures, columns, s, TypesOf(rule, signatures, columns));
        }
      } else {
        var functions, relations, s := SomeLife(rule, signatures, columns);
        FitsExactly(rule, signatures, columns, s, TypesOf(rule, signatures, columns));
        assert MisusesBound(rule, signatures, columns, s);
      }
    }
  }

  /** A program is refused, once typed, exactly when some rule of it is faulty. */
  lemma ProgramRefused(rules: seq<Rule>, signatures: Signatures, columns: Columns)
    requires forall k :: 0 <= k < |rules| ==> ShapeOk(rules[k], signatures) && Declared(rules[k], signatures, columns)
    ensures !AllChecked(rules, signatures, columns) <==>
      exists k :: 0 <= k < |rules| && Faulty(rules[k], signatures, columns)
  {
    forall k | 0 <= k < |rules|
      ensures !Checked(rules[k], signatures, columns) <==> Faulty(rules[k], signatures, columns)
    {
      RefusedExactly(rules[k], signatures, columns);
    }
  }
}

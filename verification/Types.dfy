/** Column types: inference over the rules to a fixed point, and the check that makes it sound. */
module Types {
  import opened Wrappers
  import Datalog

  type Name = string

  datatype DataType = Integer | Symbol

  /** A cell, tagged by what it is. */
  datatype Value = Number(n: Datalog.Val) | Text(text: string)

  function TypeOf(v: Value): DataType {
    if v.Number? then Integer else Symbol
  }

  datatype Arg = Var(name: Name) | Const(value: Value) | Placeholder

  datatype Atom = Atom(relation: Name, args: seq<Arg>)

  datatype Operand = Variable(name: Name) | Constant(value: Value)

  datatype Expression = Expression(init: Operand, rest: seq<(Datalog.ArithmeticOperator, Operand)>)

  datatype Comparison = Comparison(left: Expression, ordered: bool, right: Expression)

  /** A call that binds its result, or - with no output - filters. */
  datatype Call = Call(function_: Name, args: seq<Operand>, output: Option<Name>)

  datatype HeadArg = HeadVar(name: Name) | HeadExpression(expression: Expression) | HeadAggregate(count: bool,
                             expression: Expression)

  datatype Rule = Rule(head: Name, headArgs: seq<HeadArg>, positives: seq<Atom>, negatives: seq<Atom>,
                       comparisons: seq<Comparison>, calls: seq<Call>)

  /** A function's parameters, and its result's type; a bool-returning function has none. */
  datatype Signature = Signature(parameters: seq<DataType>, result: Option<DataType>)

  type Signatures = map<Name, Signature>

  /** What is known of every column so far. */
  type Typing = map<Name, seq<Option<DataType>>>

  type VarTypes = map<Name, DataType>

  function Atoms(rule: Rule): seq<Atom> {
    rule.positives + rule.negatives
  }

  /* ------------------------------------------------------------------ */
  /* The type of a variable                                               */
  /* ------------------------------------------------------------------ */

  /** The column at that place of that atom holds the variable, and is typed. */
  predicate OccursAt(atoms: seq<Atom>, types: Typing, i: nat, p: nat, x: Name, t: DataType) {
    && i < |atoms| && p < |atoms[i].args| && atoms[i].args[p] == Var(x)
    && atoms[i].relation in types && p < |types[atoms[i].relation]| && types[atoms[i].relation][p] == Some(t)
  }

  ghost predicate Occurs(atoms: seq<Atom>, types: Typing, x: Name, t: DataType) {
    exists i: nat, p: nat :: OccursAt(atoms, types, i, p, x, t)
  }

  /** No variable is typed two ways. */
  ghost predicate Agreeing(atoms: seq<Atom>, types: Typing) {
    forall x, t, u :: Occurs(atoms, types, x, t) && Occurs(atoms, types, x, u) ==> t == u
  }

  /** The variables the atoms type, each with its type. */
  ghost predicate Typed(atoms: seq<Atom>, types: Typing, vars: VarTypes) {
    forall x, t :: Binds(vars, x, t) <==> Occurs(atoms, types, x, t)
  }

  predicate Binds(vars: VarTypes, x: Name, t: DataType) {
    x in vars && vars[x] == t
  }

  /** The results the calls bind. */
  function CallOutputs(calls: seq<Call>, signatures: Signatures): VarTypes {
    if calls == [] then
      map[]
    else
      var front, call := CallOutputs(calls[..|calls| - 1], signatures), calls[|calls| - 1];
      if call.output.Some? && call.function_ in signatures && signatures[call.function_].result.Some?
        then front[call.output.value := signatures[call.function_].result.value] else front
  }

  /** A typing known to be at least another: every column typed there is typed so here. */
  predicate Above(less: Typing, more: Typing) {
    && less.Keys == more.Keys
    && forall r :: r in less ==> |less[r]| == |more[r]| && forall p :: 0 <= p < |less[r]| && less[r][p].Some? ==> more[r][p] == less[r][p]
  }

  lemma OccursMore(atoms: seq<Atom>, less: Typing, more: Typing, x: Name, t: DataType)
    requires Above(less, more) && Occurs(atoms, less, x, t)
    ensures Occurs(atoms, more, x, t)
  {
    var i: nat, p: nat :| OccursAt(atoms, less, i, p, x, t);
    assert OccursAt(atoms, more, i, p, x, t);
  }

  function NamesOf(atoms: seq<Atom>): set<Name> {
    set i, p | 0 <= i < |atoms| && 0 <= p < |atoms[i].args| && atoms[i].args[p].Var? :: atoms[i].args[p].name
  }

  /** The variables the atoms type. */
  ghost function Occurring(atoms: seq<Atom>, types: Typing): VarTypes {
    map x | x in NamesOf(atoms) && exists t :: Occurs(atoms, types, x, t) :: var t :| Occurs(atoms, types, x, t); t
  }

  lemma OccurringTyped(atoms: seq<Atom>, types: Typing)
    requires Agreeing(atoms, types)
    ensures Typed(atoms, types, Occurring(atoms, types))
  {
    var vars := Occurring(atoms, types);
    forall x, t
      ensures Binds(vars, x, t) <==> Occurs(atoms, types, x, t)
    {
      if Occurs(atoms, types, x, t) {
        var i: nat, p: nat :| OccursAt(atoms, types, i, p, x, t);
        assert x in NamesOf(atoms);
      }
    }
  }

  lemma TypedUnique(atoms: seq<Atom>, types: Typing, a: VarTypes, b: VarTypes)
    requires Typed(atoms, types, a) && Typed(atoms, types, b)
    ensures a == b
  {
    forall x
      ensures (x in a <==> x in b) && (x in a ==> a[x] == b[x])
    {
      if x in a {
        assert Binds(a, x, a[x]) && Binds(b, x, a[x]);
      }
      if x in b {
        assert Binds(b, x, b[x]) && Binds(a, x, b[x]);
      }
    }
  }

  /** The types of a rule's variables: those its atoms give, and its calls' results. */
  ghost function VariableTypes(rule: Rule, outputs: VarTypes, types: Typing): VarTypes {
    Occurring(Atoms(rule), types) + outputs
  }

  /** The types of a rule's variables under a typing; `None` if a variable is typed two ways. */
  method TypeVariables(rule: Rule, outputs: VarTypes, types: Typing) returns (vars: Option<VarTypes>)
    ensures vars.None? <==> !Agreeing(Atoms(rule), types)
    ensures vars.Some? ==> vars.value == VariableTypes(rule, outputs, types)
  {
    var atoms := Atoms(rule);
    var bound: VarTypes := map[];
    NothingOccurs(types);
    for i := 0 to |atoms|
      invariant Typed(atoms[..i], types, bound)
    {
      var next := TypeAtom(atoms, i, types, bound);
      if next.None? {
        return None;
      }
      bound := next.value;
    }
    assert atoms[..|atoms|] == atoms;
    TypedAgrees(atoms, types, bound);
    OccurringTyped(atoms, types);
    TypedUnique(atoms, types, bound, Occurring(atoms, types));
    return Some(bound + outputs);
  }

  lemma NothingOccurs(types: Typing)
    ensures forall x, t :: !Occurs([], types, x, t)
  {
  }

  lemma TypedAgrees(atoms: seq<Atom>, types: Typing, vars: VarTypes)
    requires Typed(atoms, types, vars)
    ensures Agreeing(atoms, types)
  {
    forall x, t, u | Occurs(atoms, types, x, t) && Occurs(atoms, types, x, u)
      ensures t == u
    {
      assert Binds(vars, x, t) && Binds(vars, x, u);
    }
  }

  /** It occurs in an earlier atom, or in one of the first `p` columns of this one. */
  ghost predicate OccursTo(atoms: seq<Atom>, i: nat, p: nat, types: Typing, x: Name, t: DataType)
    requires i < |atoms|
  {
    Occurs(atoms[..i], types, x, t) || exists q: nat :: q < p && OccursAt(atoms, types, i, q, x, t)
  }

  ghost predicate TypedTo(atoms: seq<Atom>, i: nat, p: nat, types: Typing, vars: VarTypes)
    requires i < |atoms|
  {
    forall x, t :: Binds(vars, x, t) <==> OccursTo(atoms, i, p, types, x, t)
  }

  method TypeAtom(atoms: seq<Atom>, i: nat, types: Typing, vars: VarTypes) returns (r: Option<VarTypes>)
    requires i < |atoms| && Typed(atoms[..i], types, vars)
    ensures r.None? ==> !Agreeing(atoms, types)
    ensures r.Some? ==> Typed(atoms[..i + 1], types, r.value)
  {
    var atom := atoms[i];
    if atom.relation !in types {
      TypedStep(atoms, i, 0, types, vars);
      return Some(vars);
    }
    var columns, typed := types[atom.relation], vars;
    for p := 0 to |atom.args|
      invariant TypedTo(atoms, i, p, types, typed)
    {
      if atom.args[p].Var? && p < |columns| && columns[p].Some? {
        var x, t := atom.args[p].name, columns[p].value;
        if x in typed && typed[x] != t {
          TypedTwice(atoms, i, p, types, typed, x, t);
          return None;
        }
        TypedAdds(atoms, i, p, types, typed, x, t);
        typed := typed[x := t];
      } else {
        TypedSkips(atoms, i, p, types, typed);
      }
    }
    TypedStep(atoms, i, |atom.args|, types, typed);
    return Some(typed);
  }

  /** One more typed column adds its variable. */
  lemma TypedAdds(atoms: seq<Atom>, i: nat, p: nat, types: Typing, vars: VarTypes, x: Name, t: DataType)
    requires i < |atoms| && TypedTo(atoms, i, p, types, vars)
    requires OccursAt(atoms, types, i, p, x, t) && (x in vars ==> vars[x] == t)
    ensures TypedTo(atoms, i, p + 1, types, vars[x := t])
  {
    var next := vars[x := t];
    forall y, u
      ensures Binds(next, y, u) <==> OccursTo(atoms, i, p + 1, types, y, u)
    {
      OneMore(atoms, i, p, types, y, u);
      assert Binds(vars, y, u) <==> OccursTo(atoms, i, p, types, y, u);
    }
  }

  /** The column holds a variable, and is typed. */
  predicate ColumnTyped(atoms: seq<Atom>, types: Typing, i: nat, p: nat)
    requires i < |atoms| && p < |atoms[i].args|
  {
    atoms[i].args[p].Var? && atoms[i].relation in types && p < |types[atoms[i].relation]| && types[atoms[i].relation][p].Some?
  }

  /** Any other column adds nothing. */
  lemma TypedSkips(atoms: seq<Atom>, i: nat, p: nat, types: Typing, vars: VarTypes)
    requires i < |atoms| && p < |atoms[i].args| && TypedTo(atoms, i, p, types, vars) && !ColumnTyped(atoms, types, i, p)
    ensures TypedTo(atoms, i, p + 1, types, vars)
  {
    forall y, u
      ensures Binds(vars, y, u) <==> OccursTo(atoms, i, p + 1, types, y, u)
    {
      OneMore(atoms, i, p, types, y, u);
      assert Binds(vars, y, u) <==> OccursTo(atoms, i, p, types, y, u);
    }
  }

  lemma OneMore(atoms: seq<Atom>, i: nat, p: nat, types: Typing, x: Name, t: DataType)
    requires i < |atoms|
    ensures OccursTo(atoms, i, p + 1, types, x, t) <==>
      OccursTo(atoms, i, p, types, x, t) || OccursAt(atoms, types, i, p, x, t)
  {
  }

  lemma TypedStep(atoms: seq<Atom>, i: nat, p: nat, types: Typing, vars: VarTypes)
    requires i < |atoms| && (p == |atoms[i].args| || atoms[i].relation !in types)
    requires if p == 0 then Typed(atoms[..i], types, vars) || TypedTo(atoms, i, p, types, vars) else TypedTo(atoms, i, p, types, vars)
    ensures Typed(atoms[..i + 1], types, vars)
  {
    forall x, t
      ensures Binds(vars, x, t) <==> Occurs(atoms[..i + 1], types, x, t)
    {
      assert Binds(vars, x, t) <==> OccursTo(atoms, i, p, types, x, t);
      OccursSplit(atoms, i, p, types, x, t);
    }
  }

  lemma OccursSplit(atoms: seq<Atom>, i: nat, p: nat, types: Typing, x: Name, t: DataType)
    requires i < |atoms| && (p == |atoms[i].args| || atoms[i].relation !in types)
    ensures OccursTo(atoms, i, p, types, x, t) <==> Occurs(atoms[..i + 1], types, x, t)
  {
    if Occurs(atoms[..i + 1], types, x, t) {
      var k: nat, q: nat :| OccursAt(atoms[..i + 1], types, k, q, x, t);
      if k < i {
        assert OccursAt(atoms[..i], types, k, q, x, t);
      } else {
        assert OccursAt(atoms, types, i, q, x, t);
      }
    }
    if Occurs(atoms[..i], types, x, t) {
      var k: nat, q: nat :| OccursAt(atoms[..i], types, k, q, x, t);
      assert OccursAt(atoms[..i + 1], types, k, q, x, t);
    }
    if q: nat :| q < p && OccursAt(atoms, types, i, q, x, t) {
      assert OccursAt(atoms[..i + 1], types, i, q, x, t);
    }
  }

  lemma TypedTwice(atoms: seq<Atom>, i: nat, p: nat, types: Typing, vars: VarTypes, x: Name, t: DataType)
    requires i < |atoms| && p < |atoms[i].args| && TypedTo(atoms, i, p, types, vars)
    requires x in vars && vars[x] != t && OccursAt(atoms, types, i, p, x, t)
    ensures !Agreeing(atoms, types)
  {
    var u := vars[x];
    assert Occurs(atoms, types, x, t);
    assert Binds(vars, x, u) && OccursTo(atoms, i, p, types, x, u);
    if Occurs(atoms[..i], types, x, u) {
      var k: nat, q: nat :| OccursAt(atoms[..i], types, k, q, x, u);
      assert OccursAt(atoms, types, k, q, x, u);
    }
    assert Occurs(atoms, types, x, u);
  }

  /* ------------------------------------------------------------------ */
  /* The type of a head argument                                          */
  /* ------------------------------------------------------------------ */

  function OperandType(operand: Operand, vars: VarTypes): Option<DataType> {
    match operand
    case Variable(x) => if x in vars then Some(vars[x]) else None
    case Constant(value) => Some(TypeOf(value))
  }

  /** What a variable, constant or sum is taken to be; `None` when its one variable has no type. */
  function ExpressionType(e: Expression, vars: VarTypes): Option<DataType> {
    if e.rest == [] then OperandType(e.init, vars) else Some(Integer)
  }

  function HeadArgType(arg: HeadArg, vars: VarTypes): Option<DataType> {
    match arg
    case HeadVar(x) => OperandType(Variable(x), vars)
    case HeadExpression(e) => ExpressionType(e, vars)
    case HeadAggregate(count, e) => if count then Some(Integer) else ExpressionType(e, vars)
  }

  /** The typing agrees with a rule: no variable of it is typed two ways, and every column it derives has the type
      derived. */
  ghost predicate Closed(rule: Rule, outputs: VarTypes, types: Typing) {
    && Agreeing(Atoms(rule), types) && rule.head in types && |types[rule.head]| == |rule.headArgs|
    && HeadMatches(rule, VariableTypes(rule, outputs, types), types[rule.head], |rule.headArgs|)
  }

  /** The first `n` columns have the types derived for them. */
  predicate HeadMatches(rule: Rule, vars: VarTypes, columns: seq<Option<DataType>>, n: nat)
    requires n <= |rule.headArgs| == |columns|
  {
    forall p :: 0 <= p < n && HeadArgType(rule.headArgs[p], vars).Some? ==> columns[p] == HeadArgType(rule.headArgs[p], vars)
  }

  /** More typed columns type more variables, and none otherwise. */
  lemma VariablesMore(rule: Rule, outputs: VarTypes, less: Typing, more: Typing)
    requires Above(less, more) && Agreeing(Atoms(rule), more)
    ensures Agreeing(Atoms(rule), less)
    ensures var few, many := VariableTypes(rule, outputs, less), VariableTypes(rule, outputs, more);
      forall x :: x in few ==> x in many && many[x] == few[x]
  {
    var atoms := Atoms(rule);
    forall x, t, u | Occurs(atoms, less, x, t) && Occurs(atoms, less, x, u)
      ensures t == u
    {
      OccursMore(atoms, less, more, x, t);
      OccursMore(atoms, less, more, x, u);
    }
    OccurringTyped(atoms, less);
    OccurringTyped(atoms, more);
    var few, many := Occurring(atoms, less), Occurring(atoms, more);
    forall x | x in few
      ensures x in many && many[x] == few[x]
    {
      assert Binds(few, x, few[x]);
      OccursMore(atoms, less, more, x, few[x]);
      assert Binds(many, x, few[x]);
    }
  }

  lemma HeadArgMore(arg: HeadArg, few: VarTypes, many: VarTypes)
    requires (forall x :: x in few ==> x in many && many[x] == few[x]) && HeadArgType(arg, few).Some?
    ensures HeadArgType(arg, many) == HeadArgType(arg, few)
  {
  }

  /* ------------------------------------------------------------------ */
  /* One rule                                                             */
  /* ------------------------------------------------------------------ */

  /** The columns with the first `n` types derived filled in. */
  ghost predicate Filled(rule: Rule, vars: VarTypes, before: seq<Option<DataType>>, n: nat,
                         after: seq<Option<DataType>>)
    requires n <= |rule.headArgs| == |before|
  {
    && |after| == |before| && HeadMatches(rule, vars, after, n)
    && (forall p :: 0 <= p < |before| && before[p].Some? ==> after[p] == before[p])
    && (forall p :: 0 <= p < |before| && after[p] != before[p] ==> p < n && after[p] == HeadArgType(rule.headArgs[p], vars))
  }

  /** Fills in the types a rule derives for its head's columns; `None` if one contradicts a column's type. */
  method FillHead(rule: Rule, vars: VarTypes, before: seq<Option<DataType>>)
    returns (after: Option<seq<Option<DataType>>>, changed: bool)
    requires |rule.headArgs| == |before|
    ensures after.Some? ==> Filled(rule, vars, before, |before|, after.value) && (changed <==> after.value != before)
    ensures after.None? ==> Clashes(rule, vars, before)
  {
    var columns := before;
    changed := false;
    for p := 0 to |before|
      invariant Filled(rule, vars, before, p, columns) && (changed <==> columns != before)
    {
      var derived := HeadArgType(rule.headArgs[p], vars);
      if derived.None? {
        continue;
      }
      match columns[p] {
        case None =>
          columns := columns[p := derived];
          changed := true;
          assert columns[p] != before[p];
        case Some(existing) =>
          if existing != derived.value {
            return None, changed;
          }
      }
    }
    return Some(columns), changed;
  }

  /** Some column has a type other than the one derived for it. */
  ghost predicate Clashes(rule: Rule, vars: VarTypes, columns: seq<Option<DataType>>)
    requires |rule.headArgs| == |columns|
  {
    exists p :: 0 <= p < |columns| && columns[p].Some? && HeadArgType(rule.headArgs[p], vars).Some? && columns[p] != HeadArgType(rule.headArgs[p], vars)
  }

  /** Whatever closed typing lies above stays above once the rule's types are filled in. */
  lemma FilledBelow(rule: Rule, outputs: VarTypes, types: Typing, columns: seq<Option<DataType>>, top: Typing)
    requires rule.head in types && |types[rule.head]| == |rule.headArgs| && Above(types, top)
    requires Closed(rule, outputs, top)
    requires Filled(rule, VariableTypes(rule, outputs, types), types[rule.head], |rule.headArgs|, columns)
    ensures Above(types[rule.head := columns], top)
  {
    VariablesMore(rule, outputs, types, top);
    var vars, vars' := VariableTypes(rule, outputs, types), VariableTypes(rule, outputs, top);
    forall p | 0 <= p < |columns| && columns[p].Some?
      ensures top[rule.head][p] == columns[p]
    {
      if columns[p] != types[rule.head][p] {
        HeadArgMore(rule.headArgs[p], vars, vars');
      }
    }
  }

  lemma ClashRefutes(rule: Rule, outputs: VarTypes, types: Typing, top: Typing)
    requires rule.head in types && |types[rule.head]| == |rule.headArgs| && Above(types, top)
    requires !Agreeing(Atoms(rule), types) || Clashes(rule, VariableTypes(rule, outputs, types), types[rule.head])
    ensures !Closed(rule, outputs, top)
  {
    if Closed(rule, outputs, top) {
      VariablesMore(rule, outputs, types, top);
      var vars, vars' := VariableTypes(rule, outputs, types), VariableTypes(rule, outputs, top);
      var p :| 0 <= p < |types[rule.head]| && types[rule.head][p].Some? && HeadArgType(rule.headArgs[p], vars).Some? && types[rule.head][p] != HeadArgType(rule.headArgs[p], vars);
      HeadArgMore(rule.headArgs[p], vars, vars');
    }
  }

  /* ------------------------------------------------------------------ */
  /* The fixed point                                                      */
  /* ------------------------------------------------------------------ */

  /** Every head has its columns. */
  predicate HeadsFit(rules: seq<Rule>, types: Typing) {
    forall k :: 0 <= k < |rules| ==> rules[k].head in types && |types[rules[k].head]| == |rules[k].headArgs|
  }

  ghost predicate AllClosed(rules: seq<Rule>, signatures: Signatures, n: nat, types: Typing)
    requires n <= |rules|
  {
    forall k :: 0 <= k < n ==> Closed(rules[k], CallOutputs(rules[k].calls, signatures), types)
  }

  /** A typing of the program: it keeps what is declared, and agrees with every rule. */
  ghost predicate Solves(rules: seq<Rule>, signatures: Signatures, declared: Typing, types: Typing) {
    Above(declared, types) && AllClosed(rules, signatures, |rules|, types)
  }

  /** Every typing of the program lies above. */
  ghost predicate BelowAll(rules: seq<Rule>, signatures: Signatures, declared: Typing, types: Typing) {
    forall top :: Solves(rules, signatures, declared, top) ==> Above(types, top)
  }

  ghost function Untyped(types: Typing): set<(Name, nat)> {
    set r, p | r in types && 0 <= p < |types[r]| && types[r][p].None? :: (r, p)
  }

  lemma UntypedShrinks(less: Typing, more: Typing)
    requires Above(less, more)
    ensures Untyped(more) <= Untyped(less) && (more != less ==> Untyped(more) < Untyped(less))
  {
    if more != less {
      var r :| r in less && less[r] != more[r];
      var p :| 0 <= p < |less[r]| && less[r][p] != more[r][p];
      assert (r, p) in Untyped(less) && (r, p) !in Untyped(more);
    }
  }

  lemma AboveTransitive(a: Typing, b: Typing, c: Typing)
    requires Above(a, b) && Above(b, c)
    ensures Above(a, c)
  {
  }

  /** One pass over the rules. If it changes nothing, the typing agrees with all of them. */
  method Pass(rules: seq<Rule>, signatures: Signatures, ghost declared: Typing, types: Typing)
    returns (r: Option<Typing>, changed: bool)
    requires HeadsFit(rules, types) && Above(declared, types) && BelowAll(rules, signatures, declared, types)
    ensures r.None? ==> forall top :: !Solves(rules, signatures, declared, top)
    ensures r.Some? ==> Above(types, r.value) && BelowAll(rules, signatures, declared, r.value) && (changed <==> r.value != types)
    ensures r.Some? && !changed ==> AllClosed(rules, signatures, |rules|, types)
  {
    var current := types;
    changed := false;
    for k := 0 to |rules|
      invariant Above(types, current) && BelowAll(rules, signatures, declared, current)
      invariant (changed <==> current != types)
      invariant !changed ==> AllClosed(rules, signatures, k, types)
    {
      var next, filled := PassRule(rules, signatures, declared, current, k);
      if next.None? {
        return None, changed;
      }
      AboveTransitive(types, current, next.value);
      UntypedShrinks(types, current);
      UntypedShrinks(current, next.value);
      changed := changed || filled;
      current := next.value;
    }
    return Some(current), changed;
  }

  /** One rule: its variables typed, and the types it derives filled in. */
  method PassRule(rules: seq<Rule>, signatures: Signatures, ghost declared: Typing, types: Typing, k: nat)
    returns (r: Option<Typing>, changed: bool)
    requires k < |rules| && rules[k].head in types && |types[rules[k].head]| == |rules[k].headArgs|
    requires BelowAll(rules, signatures, declared, types)
    ensures r.None? ==> forall top :: !Solves(rules, signatures, declared, top)
    ensures r.Some? ==> Above(types, r.value) && BelowAll(rules, signatures, declared, r.value) && (changed <==> r.value != types)
    ensures r.Some? && !changed ==> Closed(rules[k], CallOutputs(rules[k].calls, signatures), types)
  {
    var rule, outputs := rules[k], CallOutputs(rules[k].calls, signatures);
    changed := false;
    var vars := TypeVariables(rule, outputs, types);
    if vars.None? {
      NoneSolves(rules, signatures, declared, types, k);
      return None, false;
    }
    var columns;
    columns, changed := FillHead(rule, vars.value, types[rule.head]);
    if columns.None? {
      NoneSolves(rules, signatures, declared, types, k);
      return None, changed;
    }
    forall top | Solves(rules, signatures, declared, top)
      ensures Above(types[rule.head := columns.value], top)
    {
      FilledBelow(rule, outputs, types, columns.value, top);
    }
    r := Some(types[rule.head := columns.value]);
    assert r.value[rule.head] == columns.value;
    if columns.value == types[rule.head] {
      assert r.value == types;
    }
  }

  lemma NoneSolves(rules: seq<Rule>, signatures: Signatures, declared: Typing, types: Typing, k: nat)
    requires k < |rules| && rules[k].head in types && |types[rules[k].head]| == |rules[k].headArgs|
    requires BelowAll(rules, signatures, declared, types)
    requires var outputs := CallOutputs(rules[k].calls, signatures);
      !Agreeing(Atoms(rules[k]), types) || Clashes(rules[k], VariableTypes(rules[k], outputs, types), types[rules[k].head])
    ensures forall top :: !Solves(rules, signatures, declared, top)
  {
    forall top
      ensures !Solves(rules, signatures, declared, top)
    {
      if Solves(rules, signatures, declared, top) {
        ClashRefutes(rules[k], CallOutputs(rules[k].calls, signatures), types, top);
      }
    }
  }

  /** The least typing of the program, or `None` if it has no typing. */
  ghost predicate Inferred(rules: seq<Rule>, signatures: Signatures, declared: Typing, r: Option<Typing>) {
    match r
    case None => forall top :: !Solves(rules, signatures, declared, top)
    case Some(types) => Solves(rules, signatures, declared, types) && BelowAll(rules, signatures, declared, types)
  }

  /** Infers the program's typing: passes until nothing changes. It succeeds exactly when the program has a typing, and
      then gives the least. */
  method InferTypes(rules: seq<Rule>, signatures: Signatures, declared: Typing) returns (r: Option<Typing>)
    requires HeadsFit(rules, declared)
    ensures Inferred(rules, signatures, declared, r)
  {
    var types, changed := declared, true;
    while changed
      invariant HeadsFit(rules, types) && Above(declared, types) && BelowAll(rules, signatures, declared, types)
      invariant !changed ==> AllClosed(rules, signatures, |rules|, types)
      decreases Untyped(types), changed
    {
      var next;
      next, changed := Pass(rules, signatures, declared, types);
      if next.None? {
        return None;
      }
      UntypedShrinks(types, next.value);
      AboveTransitive(declared, types, next.value);
      types := next.value;
    }
    return Some(types);
  }

  /** The order of the rules changes neither the verdict nor the typing. */
  lemma OrderIrrelevant(rules: seq<Rule>, others: seq<Rule>, signatures: Signatures, declared: Typing,
                        a: Option<Typing>, b: Option<Typing>)
    requires forall rule :: rule in rules <==> rule in others
    requires Inferred(rules, signatures, declared, a) && Inferred(others, signatures, declared, b)
    ensures a == b
  {
    forall top
      ensures Solves(rules, signatures, declared, top) <==> Solves(others, signatures, declared, top)
    {
      SameRules(rules, others, signatures, top);
      SameRules(others, rules, signatures, top);
    }
    if a.Some? && b.Some? {
      AboveBoth(a.value, b.value);
    }
  }

  lemma SameRules(rules: seq<Rule>, others: seq<Rule>, signatures: Signatures, types: Typing)
    requires forall rule :: rule in others ==> rule in rules
    ensures AllClosed(rules, signatures, |rules|, types) ==> AllClosed(others, signatures, |others|, types)
  {
    forall k | 0 <= k < |others| && AllClosed(rules, signatures, |rules|, types)
      ensures Closed(others[k], CallOutputs(others[k].calls, signatures), types)
    {
      assert others[k] in others;
      var j :| 0 <= j < |rules| && rules[j] == others[k];
    }
  }

  lemma AboveBoth(a: Typing, b: Typing)
    requires Above(a, b) && Above(b, a)
    ensures a == b
  {
    forall r | r in a
      ensures a[r] == b[r]
    {
      forall p | 0 <= p < |a[r]|
        ensures a[r][p] == b[r][p]
      {
      }
    }
  }

  /* ------------------------------------------------------------------ */
  /* The check                                                            */
  /* ------------------------------------------------------------------ */

  /** Every relation's column types. */
  type Columns = map<Name, seq<DataType>>

  /** An unconstrained column is a number. */
  function Completed(types: Typing): Columns {
    map r | r in types :: seq(|types[r]|, p requires 0 <= p < |types[r]| => if types[r][p].Some? then types[r][p].value else Integer)
  }

  function AsTyping(columns: Columns): (types: Typing)
    ensures types.Keys == columns.Keys
    ensures forall r :: r in columns ==> |types[r]| == |columns[r]| && forall p :: 0 <= p < |columns[r]| ==>
      types[r][p] == Some(columns[r][p])
  {
    map r | r in columns :: seq(|columns[r]|, p requires 0 <= p < |columns[r]| => Some(columns[r][p]))
  }

  function OrInteger(t: Option<DataType>): DataType {
    if t.Some? then t.value else Integer
  }

  /** An expression's type; `None` if it computes with a symbol. */
  function CheckedType(e: Expression, vars: VarTypes): Option<DataType> {
    if e.rest == [] then
      Some(OrInteger(OperandType(e.init, vars)))
    else if OrInteger(OperandType(e.init, vars)) == Integer && forall i :: 0 <= i < |e.rest| ==> OrInteger(OperandType(e.rest[i].1, vars)) == Integer then
      Some(Integer)
    else
      None
  }

  predicate ComparisonFits(c: Comparison, vars: VarTypes) {
    var left, right := CheckedType(c.left, vars), CheckedType(c.right, vars);
    left.Some? && right.Some? && if c.ordered then left.value == right.value == Integer else left == right
  }

  predicate CallFits(call: Call, signatures: Signatures, vars: VarTypes) {
    && call.function_ in signatures && |signatures[call.function_].parameters| == |call.args|
    && forall i :: 0 <= i < |call.args| ==> OrInteger(OperandType(call.args[i], vars)) == signatures[call.function_].parameters[i]
  }

  predicate HeadArgFits(arg: HeadArg, vars: VarTypes, column: DataType) {
    match arg
    case HeadVar(x) => OrInteger(OperandType(Variable(x), vars)) == column
    case HeadExpression(e) => CheckedType(e, vars) == Some(column)
    case HeadAggregate(count, e) => CheckedType(e, vars).Some? && (count || CheckedType(e, vars) == Some(Integer)) && column == Integer
  }

  predicate ConstantsFit(atom: Atom, columns: Columns) {
    && atom.relation in columns && |columns[atom.relation]| == |atom.args|
    && forall p :: 0 <= p < |atom.args| && atom.args[p].Const? ==> TypeOf(atom.args[p].value) == columns[atom.relation][p]
  }

  predicate Fits(rule: Rule, signatures: Signatures, columns: Columns, vars: VarTypes) {
    && (forall i :: 0 <= i < |Atoms(rule)| ==> ConstantsFit(Atoms(rule)[i], columns))
    && (forall i :: 0 <= i < |rule.comparisons| ==> ComparisonFits(rule.comparisons[i], vars))
    && (forall i :: 0 <= i < |rule.calls| ==> CallFits(rule.calls[i], signatures, vars))
    && rule.head in columns && |columns[rule.head]| == |rule.headArgs|
    && forall p :: 0 <= p < |rule.headArgs| ==> HeadArgFits(rule.headArgs[p], vars, columns[rule.head][p])
  }

  ghost predicate Checked(rule: Rule, signatures: Signatures, columns: Columns) {
    && Agreeing(Atoms(rule), AsTyping(columns))
    && Fits(rule, signatures, columns, VariableTypes(rule, CallOutputs(rule.calls, signatures), AsTyping(columns)))
  }

  method CheckTypes(rule: Rule, signatures: Signatures, columns: Columns) returns (ok: bool)
    ensures ok <==> Checked(rule, signatures, columns)
  {
    var vars := TypeVariables(rule, CallOutputs(rule.calls, signatures), AsTyping(columns));
    ok := vars.Some? && Fits(rule, signatures, columns, vars.value);
  }

  ghost predicate AllChecked(rules: seq<Rule>, signatures: Signatures, columns: Columns) {
    forall k :: 0 <= k < |rules| ==> Checked(rules[k], signatures, columns)
  }

  /** Types a program: infers, completes, and checks every rule. What comes out keeps what is declared, and is refused
      only if the program has no typing or a rule fails the check under the least one. */
  method ValidateProgram(rules: seq<Rule>, signatures: Signatures, declared: Typing)
    returns (r: Option<Columns>, ghost least: Option<Typing>)
    requires HeadsFit(rules, declared)
    ensures Inferred(rules, signatures, declared, least)
    ensures r.None? <==> least.None? || !AllChecked(rules, signatures, Completed(least.value))
    ensures r.Some? ==> AllChecked(rules, signatures, r.value) && Above(declared, AsTyping(r.value))
  {
    var types := InferTypes(rules, signatures, declared);
    least := types;
    if types.None? {
      return None, least;
    }
    var columns := Completed(types.value);
    for k := 0 to |rules|
      invariant forall j :: 0 <= j < k ==> Checked(rules[j], signatures, columns)
    {
      var ok := CheckTypes(rules[k], signatures, columns);
      if !ok {
        return None, least;
      }
    }
    CompletedAbove(types.value);
    AboveTransitive(declared, types.value, AsTyping(columns));
    return Some(columns), least;
  }

  lemma CompletedAbove(types: Typing)
    ensures Above(types, AsTyping(Completed(types)))
  {
  }

  /* ------------------------------------------------------------------ */
  /* What a rule computes, on tagged values                               */
  /* ------------------------------------------------------------------ */

  type Valuation = map<Name, Value>
  type Relations = map<Name, set<seq<Value>>>
  type Functions = map<(Name, seq<Value>), Value>

  /** What an expression comes to. Arithmetic on a symbol has no meaning. */
  datatype Computed = Result(value: Value) | ZeroDivisor | IllTyped

  predicate Bound(operand: Operand, s: Valuation) {
    operand.Variable? ==> operand.name in s
  }

  predicate ExpressionBound(e: Expression, s: Valuation) {
    Bound(e.init, s) && forall i :: 0 <= i < |e.rest| ==> Bound(e.rest[i].1, s)
  }

  function OperandValue(operand: Operand, s: Valuation): Value
    requires Bound(operand, s)
  {
    match operand
    case Variable(x) => s[x]
    case Constant(value) => value
  }

  function Fold(value: Value, rest: seq<(Datalog.ArithmeticOperator, Operand)>, s: Valuation): Computed
    requires forall i :: 0 <= i < |rest| ==> Bound(rest[i].1, s)
    decreases |rest|
  {
    if rest == [] then
      Result(value)
    else
      var operand := OperandValue(rest[0].1, s);
      if !value.Number? || !operand.Number? then
        IllTyped
      else
        var next := Datalog.Apply(rest[0].0, value.n, operand.n);
        if next.None? then ZeroDivisor else Fold(Number(next.value), rest[1..], s)
  }

  function Evaluate(e: Expression, s: Valuation): Computed
    requires ExpressionBound(e, s)
  {
    Fold(OperandValue(e.init, s), e.rest, s)
  }

  predicate Matches(atom: Atom, s: Valuation, row: seq<Value>) {
    && |row| == |atom.args|
    && forall p :: 0 <= p < |row| ==> match atom.args[p]
                                      case Var(x) => x in s && s[x] == row[p]
                                      case Const(value) => row[p] == value
                                      case Placeholder => true
  }

  ghost predicate Holds(relations: Relations, atom: Atom, s: Valuation) {
    atom.relation in relations && exists row :: row in relations[atom.relation] && Matches(atom, s, row)
  }

  function Arguments(args: seq<Operand>, s: Valuation): (r: seq<Value>)
    requires forall i :: 0 <= i < |args| ==> Bound(args[i], s)
    ensures |r| == |args| && forall i :: 0 <= i < |r| ==> r[i] == OperandValue(args[i], s)
  {
    seq(|args|, i requires 0 <= i < |args| => OperandValue(args[i], s))
  }

  /** The call answers, and its result is what its output is bound to. */
  predicate Calls(functions: Functions, call: Call, s: Valuation) {
    && (forall i :: 0 <= i < |call.args| ==> Bound(call.args[i], s))
    && var key := (call.function_, Arguments(call.args, s));
       key in functions && (call.output.Some? ==> call.output.value in s && s[call.output.value] == functions[key])
  }

  /** The valuation matches the positive atoms, and the calls' results. */
  ghost predicate Satisfies(rule: Rule, functions: Functions, relations: Relations, s: Valuation) {
    && (forall i :: 0 <= i < |rule.positives| ==> Holds(relations, rule.positives[i], s))
    && (forall i :: 0 <= i < |rule.calls| ==> Calls(functions, rule.calls[i], s))
  }

  /** A cell the rule may derive: a variable's value, an expression's, or - aggregated - some number. */
  predicate DerivesCell(arg: HeadArg, s: Valuation, cell: Value) {
    match arg
    case HeadVar(x) => x in s && cell == s[x]
    case HeadExpression(e) => ExpressionBound(e, s) && Evaluate(e, s) == Result(cell)
    case HeadAggregate(_, _) => cell.Number?
  }

  ghost predicate Derives(rule: Rule, functions: Functions, relations: Relations, s: Valuation, row: seq<Value>) {
    Satisfies(rule, functions, relations, s) && |row| == |rule.headArgs| && forall p :: 0 <= p < |row| ==> DerivesCell(rule.headArgs[p], s, row[p])
  }

  /* ------------------------------------------------------------------ */
  /* Soundness                                                            */
  /* ------------------------------------------------------------------ */

  predicate RowTyped(row: seq<Value>, types: seq<DataType>) {
    |row| == |types| && forall p :: 0 <= p < |row| ==> TypeOf(row[p]) == types[p]
  }

  predicate WellTyped(relations: Relations, columns: Columns) {
    forall r :: r in relations ==> r in columns && forall row :: row in relations[r] ==> RowTyped(row, columns[r])
  }

  /** A function given what its parameters ask for returns what its signature says. */
  ghost predicate FunctionsTyped(functions: Functions, signatures: Signatures) {
    forall f, args :: (f, args) in functions && f in signatures && RowTyped(args, signatures[f].parameters) && signatures[f].result.Some?
      ==> TypeOf(functions[(f, args)]) == signatures[f].result.value
  }

  predicate OperandKnown(operand: Operand, known: set<Name>) {
    operand.Variable? ==> operand.name in known
  }

  predicate ExpressionKnown(e: Expression, known: set<Name>) {
    OperandKnown(e.init, known) && forall i :: 0 <= i < |e.rest| ==> OperandKnown(e.rest[i].1, known)
  }

  /** The names bound before the `k`-th call. */
  function KnownBefore(rule: Rule, k: nat): set<Name>
    requires k <= |rule.calls|
  {
    NamesOf(rule.positives) + set j | 0 <= j < k && rule.calls[j].output.Some? :: rule.calls[j].output.value
  }

  /** What the shape check guarantees: everything is bound before it is read, and calls bind new names, once each. */
  predicate ShapeOk(rule: Rule, signatures: Signatures) {
    && NamesOf(rule.negatives) <= NamesOf(rule.positives)
    && (forall k :: 0 <= k < |rule.calls| ==> CallShaped(rule, signatures, k))
    && (forall i :: 0 <= i < |rule.comparisons| ==> ExpressionKnown(rule.comparisons[i].left, KnownBefore(rule, |rule.calls|)) && ExpressionKnown(rule.comparisons[i].right, KnownBefore(rule, |rule.calls|)))
    && (forall p :: 0 <= p < |rule.headArgs| ==> HeadArgKnown(rule.headArgs[p], KnownBefore(rule, |rule.calls|)))
  }

  predicate CallShaped(rule: Rule, signatures: Signatures, k: nat)
    requires k < |rule.calls|
  {
    var call := rule.calls[k];
    && call.function_ in signatures && call.output.Some? == signatures[call.function_].result.Some?
    && (forall i :: 0 <= i < |call.args| ==> OperandKnown(call.args[i], KnownBefore(rule, k)))
    && (call.output.Some? ==> call.output.value !in KnownBefore(rule, k))
  }

  predicate HeadArgKnown(arg: HeadArg, known: set<Name>) {
    match arg
    case HeadVar(x) => x in known
    case HeadExpression(e) => ExpressionKnown(e, known)
    case HeadAggregate(_, e) => ExpressionKnown(e, known)
  }

  /** The names are bound to values of their types. */
  predicate Sound(s: Valuation, vars: VarTypes, known: set<Name>) {
    forall x :: x in known ==> x in s && x in vars && TypeOf(s[x]) == vars[x]
  }

  /** A rule that passed the check, under relations and functions of the declared types. */
  ghost predicate Situation(rule: Rule, signatures: Signatures, columns: Columns, functions: Functions,
                            relations: Relations, s: Valuation)
  {
    && ShapeOk(rule, signatures) && Checked(rule, signatures, columns)
    && WellTyped(relations, columns) && FunctionsTyped(functions, signatures)
    && Satisfies(rule, functions, relations, s)
  }

  ghost function TypesOf(rule: Rule, signatures: Signatures, columns: Columns): VarTypes {
    VariableTypes(rule, CallOutputs(rule.calls, signatures), AsTyping(columns))
  }

  /** A relational variable has the type of a column that binds it. */
  lemma RelationalSound(rule: Rule, signatures: Signatures, columns: Columns, functions: Functions,
                        relations: Relations, s: Valuation, x: Name)
    requires Situation(rule, signatures, columns, functions, relations, s) && x in NamesOf(rule.positives)
    ensures x in s && Binds(Occurring(Atoms(rule), AsTyping(columns)), x, TypeOf(s[x]))
  {
    var i, p :| 0 <= i < |rule.positives| && 0 <= p < |rule.positives[i].args| && rule.positives[i].args[p] == Var(x);
    var atom := rule.positives[i];
    assert Atoms(rule)[i] == atom && ConstantsFit(Atoms(rule)[i], columns) && Holds(relations, rule.positives[i], s);
    var row :| row in relations[atom.relation] && Matches(atom, s, row);
    assert RowTyped(row, columns[atom.relation]);
    assert OccursAt(Atoms(rule), AsTyping(columns), i, p, x, TypeOf(s[x]));
    OccurringTyped(Atoms(rule), AsTyping(columns));
    assert Occurs(Atoms(rule), AsTyping(columns), x, TypeOf(s[x]));
  }

  /** Exactly the calls' outputs are typed by the calls. */
  lemma {:induction false} OutputsBound(rule: Rule, signatures: Signatures, k: nat)
    requires k <= |rule.calls| && ShapeOk(rule, signatures)
    ensures CallOutputs(rule.calls[..k], signatures).Keys == set j | 0 <= j < k && rule.calls[j].output.Some? ::
      rule.calls[j].output.value
  {
    if k > 0 {
      OutputsBound(rule, signatures, k - 1);
      assert rule.calls[..k][..k - 1] == rule.calls[..k - 1] && CallShaped(rule, signatures, k - 1);
    }
  }

  /** Later calls bind other names. */
  lemma {:induction false} OutputsKept(rule: Rule, signatures: Signatures, j: nat, k: nat, x: Name)
    requires j <= k <= |rule.calls| && ShapeOk(rule, signatures) && x in CallOutputs(rule.calls[..j], signatures)
    ensures x in CallOutputs(rule.calls[..k], signatures)
    ensures CallOutputs(rule.calls[..k], signatures)[x] == CallOutputs(rule.calls[..j], signatures)[x]
  {
    if j < k {
      OutputsKept(rule, signatures, j, k - 1, x);
      OutputNew(rule, signatures, k - 1, x);
    }
  }

  lemma OutputNew(rule: Rule, signatures: Signatures, k: nat, x: Name)
    requires k < |rule.calls| && ShapeOk(rule, signatures) && x in CallOutputs(rule.calls[..k], signatures)
    ensures x in CallOutputs(rule.calls[..k + 1], signatures)
    ensures CallOutputs(rule.calls[..k + 1], signatures)[x] == CallOutputs(rule.calls[..k], signatures)[x]
  {
    OutputsBound(rule, signatures, k);
    assert rule.calls[..k + 1][..k] == rule.calls[..k] && CallShaped(rule, signatures, k);
    assert x in KnownBefore(rule, k);
  }

  lemma OperandSound(operand: Operand, s: Valuation, vars: VarTypes, known: set<Name>)
    requires Sound(s, vars, known) && OperandKnown(operand, known)
    ensures Bound(operand, s) && TypeOf(OperandValue(operand, s)) == OrInteger(OperandType(operand, vars))
  {
  }

  /** Every bound name has a value of its type: a column's, or a call's result. */
  lemma {:induction false} NamesSound(rule: Rule, signatures: Signatures, columns: Columns, functions: Functions,
                                      relations: Relations, s: Valuation, k: nat)
    requires Situation(rule, signatures, columns, functions, relations, s) && k <= |rule.calls|
    ensures Sound(s, TypesOf(rule, signatures, columns), KnownBefore(rule, k))
  {
    if k == 0 {
      forall x | x in NamesOf(rule.positives)
        ensures x in s && x in TypesOf(rule, signatures, columns)
        ensures TypeOf(s[x]) == TypesOf(rule, signatures, columns)[x]
      {
        RelationalSound(rule, signatures, columns, functions, relations, s, x);
        NotAnOutput(rule, signatures, x);
      }
    } else {
      NamesSound(rule, signatures, columns, functions, relations, s, k - 1);
      assert Calls(functions, rule.calls[k - 1], s) && CallFits(rule.calls[k - 1], signatures, TypesOf(rule, signatures, columns));
      CallBinds(rule, signatures, columns, functions, s, k - 1);
    }
  }

  lemma NotAnOutput(rule: Rule, signatures: Signatures, x: Name)
    requires ShapeOk(rule, signatures) && x in NamesOf(rule.positives)
    ensures x !in CallOutputs(rule.calls, signatures)
  {
    OutputsBound(rule, signatures, |rule.calls|);
    assert rule.calls[..|rule.calls|] == rule.calls;
    forall j | 0 <= j < |rule.calls| && rule.calls[j].output.Some?
      ensures rule.calls[j].output.value != x
    {
      assert CallShaped(rule, signatures, j);
    }
  }

  /** A call's result has its output's type. */
  lemma CallBinds(rule: Rule, signatures: Signatures, columns: Columns, functions: Functions, s: Valuation, k: nat)
    requires k < |rule.calls| && ShapeOk(rule, signatures) && FunctionsTyped(functions, signatures)
    requires Calls(functions, rule.calls[k], s)
    requires CallFits(rule.calls[k], signatures, TypesOf(rule, signatures, columns))
    requires Sound(s, TypesOf(rule, signatures, columns), KnownBefore(rule, k))
    ensures Sound(s, TypesOf(rule, signatures, columns), KnownBefore(rule, k + 1))
  {
    assert CallShaped(rule, signatures, k);
    ArgumentsSound(rule.calls[k], signatures, TypesOf(rule, signatures, columns), s, KnownBefore(rule, k));
    if rule.calls[k].output.Some? {
      ResultSound(rule, signatures, columns, functions, s, k);
    }
    KnownNext(rule, k);
  }

  lemma KnownNext(rule: Rule, k: nat)
    requires k < |rule.calls|
    ensures KnownBefore(rule, k + 1) == KnownBefore(rule, k) + if rule.calls[k].output.Some? then {rule.calls[k].output.value} else {}
  {
  }

  /** A call is passed what its parameters ask for. */
  lemma CallSound(rule: Rule, signatures: Signatures, columns: Columns, functions: Functions, relations: Relations,
                  s: Valuation, k: nat)
    requires Situation(rule, signatures, columns, functions, relations, s) && k < |rule.calls|
    ensures var call := rule.calls[k];
      && call.function_ in signatures && (forall i :: 0 <= i < |call.args| ==> Bound(call.args[i], s))
      && RowTyped(Arguments(call.args, s), signatures[call.function_].parameters)
  {
    NamesSound(rule, signatures, columns, functions, relations, s, k);
    assert CallShaped(rule, signatures, k) && CallFits(rule.calls[k], signatures, TypesOf(rule, signatures, columns));
    ArgumentsSound(rule.calls[k], signatures, TypesOf(rule, signatures, columns), s, KnownBefore(rule, k));
  }

  lemma ArgumentsSound(call: Call, signatures: Signatures, vars: VarTypes, s: Valuation, known: set<Name>)
    requires Sound(s, vars, known) && CallFits(call, signatures, vars)
    requires forall i :: 0 <= i < |call.args| ==> OperandKnown(call.args[i], known)
    ensures forall i :: 0 <= i < |call.args| ==> Bound(call.args[i], s)
    ensures RowTyped(Arguments(call.args, s), signatures[call.function_].parameters)
  {
    forall i | 0 <= i < |call.args|
      ensures Bound(call.args[i], s)
      ensures TypeOf(OperandValue(call.args[i], s)) == signatures[call.function_].parameters[i]
    {
      OperandSound(call.args[i], s, vars, known);
    }
  }

  lemma ResultSound(rule: Rule, signatures: Signatures, columns: Columns, functions: Functions, s: Valuation, k: nat)
    requires ShapeOk(rule, signatures) && FunctionsTyped(functions, signatures) && k < |rule.calls|
    requires var call := rule.calls[k];
      call.output.Some? && Calls(functions, call, s) && call.function_ in signatures && RowTyped(Arguments(call.args, s), signatures[call.function_].parameters)
    ensures var x := rule.calls[k].output.value;
      x in s && x in TypesOf(rule, signatures, columns) && TypeOf(s[x]) == TypesOf(rule, signatures, columns)[x]
  {
    var x := rule.calls[k].output.value;
    OutputLast(rule, signatures, k);
    OutputsKept(rule, signatures, k + 1, |rule.calls|, x);
    assert rule.calls[..|rule.calls|] == rule.calls;
  }

  lemma OutputLast(rule: Rule, signatures: Signatures, k: nat)
    requires k < |rule.calls| && ShapeOk(rule, signatures) && rule.calls[k].output.Some?
    ensures var outputs, call := CallOutputs(rule.calls[..k + 1], signatures), rule.calls[k];
      call.output.value in outputs && call.function_ in signatures && signatures[call.function_].result == Some(outputs[call.output.value])
  {
    assert CallShaped(rule, signatures, k) && rule.calls[..k + 1][..k] == rule.calls[..k];
  }

  /** An expression that passed the check computes a value of its type, or divides by zero: it never computes with a
      symbol. */
  lemma ExpressionSound(e: Expression, s: Valuation, vars: VarTypes, known: set<Name>)
    requires Sound(s, vars, known) && ExpressionKnown(e, known) && CheckedType(e, vars).Some?
    ensures ExpressionBound(e, s) && Evaluate(e, s) != IllTyped
    ensures Evaluate(e, s).Result? ==> TypeOf(Evaluate(e, s).value) == CheckedType(e, vars).value
  {
    OperandSound(e.init, s, vars, known);
    forall i | 0 <= i < |e.rest|
      ensures Bound(e.rest[i].1, s) && TypeOf(OperandValue(e.rest[i].1, s)) == OrInteger(OperandType(e.rest[i].1, vars))
    {
      OperandSound(e.rest[i].1, s, vars, known);
    }
    if e.rest != [] {
      FoldSound(OperandValue(e.init, s), e.rest, s);
    }
  }

  lemma {:induction false} FoldSound(value: Value, rest: seq<(Datalog.ArithmeticOperator, Operand)>, s: Valuation)
    requires value.Number? && forall i :: 0 <= i < |rest| ==> Bound(rest[i].1, s) && OperandValue(rest[i].1, s).Number?
    ensures Fold(value, rest, s) != IllTyped && (Fold(value, rest, s).Result? ==> Fold(value, rest, s).value.Number?)
    decreases |rest|
  {
    if rest != [] {
      var next := Datalog.Apply(rest[0].0, value.n, OperandValue(rest[0].1, s).n);
      if next.Some? {
        FoldSound(Number(next.value), rest[1..], s);
      }
    }
  }

  /** A comparison that passed the check compares two values of a kind, and orders only numbers. */
  lemma ComparisonSound(rule: Rule, signatures: Signatures, columns: Columns, functions: Functions,
                        relations: Relations, s: Valuation, i: nat)
    requires Situation(rule, signatures, columns, functions, relations, s) && i < |rule.comparisons|
    ensures var c := rule.comparisons[i];
      && ExpressionBound(c.left, s) && ExpressionBound(c.right, s)
      && Evaluate(c.left, s) != IllTyped && Evaluate(c.right, s) != IllTyped
      && (Evaluate(c.left, s).Result? && Evaluate(c.right, s).Result? ==>
            TypeOf(Evaluate(c.left, s).value) == TypeOf(Evaluate(c.right, s).value) && (c.ordered ==> Evaluate(c.left, s).value.Number?))
  {
    var c, vars, known := rule.comparisons[i], TypesOf(rule, signatures, columns), KnownBefore(rule, |rule.calls|);
    NamesSound(rule, signatures, columns, functions, relations, s, |rule.calls|);
    assert ComparisonFits(c, vars);
    ExpressionSound(c.left, s, vars, known);
    ExpressionSound(c.right, s, vars, known);
  }

  /** What a rule sums or orders in an aggregate is a number. */
  lemma AggregateSound(rule: Rule, signatures: Signatures, columns: Columns, functions: Functions, relations: Relations,
                       s: Valuation, p: nat)
    requires Situation(rule, signatures, columns, functions, relations, s) && p < |rule.headArgs|
    requires rule.headArgs[p].HeadAggregate?
    ensures var arg := rule.headArgs[p];
      && ExpressionBound(arg.expression, s) && Evaluate(arg.expression, s) != IllTyped
      && (!arg.count && Evaluate(arg.expression, s).Result? ==> Evaluate(arg.expression, s).value.Number?)
  {
    var arg, vars := rule.headArgs[p], TypesOf(rule, signatures, columns);
    NamesSound(rule, signatures, columns, functions, relations, s, |rule.calls|);
    assert HeadArgFits(arg, vars, columns[rule.head][p]) && HeadArgKnown(arg, KnownBefore(rule, |rule.calls|));
    ExpressionSound(arg.expression, s, vars, KnownBefore(rule, |rule.calls|));
  }

  /** Every row a checked rule derives has its relation's column types. */
  lemma RowSound(rule: Rule, signatures: Signatures, columns: Columns, functions: Functions, relations: Relations,
                 s: Valuation, row: seq<Value>)
    requires Situation(rule, signatures, columns, functions, relations, s)
    requires Derives(rule, functions, relations, s, row)
    ensures rule.head in columns && RowTyped(row, columns[rule.head])
  {
    var vars, known := TypesOf(rule, signatures, columns), KnownBefore(rule, |rule.calls|);
    NamesSound(rule, signatures, columns, functions, relations, s, |rule.calls|);
    forall p | 0 <= p < |row|
      ensures TypeOf(row[p]) == columns[rule.head][p]
    {
      var arg := rule.headArgs[p];
      assert DerivesCell(arg, s, row[p]) && HeadArgFits(arg, vars, columns[rule.head][p]) && HeadArgKnown(arg, known);
      if arg.HeadExpression? {
        ExpressionSound(arg.expression, s, vars, known);
      }
    }
  }

  /** The relations with one more row, which some rule derives. */
  ghost predicate Extends(rules: seq<Rule>, functions: Functions, before: Relations, after: Relations) {
    exists k: nat, s, row :: k < |rules| && DerivesAdding(rules[k], functions, before, s, row, after)
  }

  ghost predicate DerivesAdding(rule: Rule, functions: Functions, before: Relations, s: Valuation, row: seq<Value>,
                                after: Relations)
  {
    && Derives(rule, functions, before, s, row)
    && after == before[rule.head := (if rule.head in before then before[rule.head] else {}) + {row}]
  }

  lemma ExtensionSound(rules: seq<Rule>, signatures: Signatures, columns: Columns, functions: Functions,
                       before: Relations, after: Relations)
    requires AllChecked(rules, signatures, columns) && forall k :: 0 <= k < |rules| ==> ShapeOk(rules[k], signatures)
    requires FunctionsTyped(functions, signatures) && Extends(rules, functions, before, after)
    requires WellTyped(before, columns)
    ensures WellTyped(after, columns)
  {
    var k: nat, s, row :| k < |rules| && DerivesAdding(rules[k], functions, before, s, row, after);
    RowSound(rules[k], signatures, columns, functions, before, s, row);
    MoreTyped(before, rules[k].head, row, columns);
  }

  lemma MoreTyped(before: Relations, head: Name, row: seq<Value>, columns: Columns)
    requires WellTyped(before, columns) && head in columns && RowTyped(row, columns[head])
    ensures WellTyped(before[head := (if head in before then before[head] else {}) + {row}], columns)
  {
  }

  /** Any order of deriving rows, from the input relations on. */
  ghost predicate Derivation(rules: seq<Rule>, functions: Functions, trace: seq<Relations>) {
    trace != [] && forall i :: 0 < i < |trace| ==> Extends(rules, functions, trace[i - 1], trace[i])
  }

  /** A program that passed the check, on well-typed inputs, never derives an ill-typed row. */
  lemma {:induction false} ProgramSound(rules: seq<Rule>, signatures: Signatures, columns: Columns,
                                        functions: Functions, trace: seq<Relations>)
    requires AllChecked(rules, signatures, columns) && forall k :: 0 <= k < |rules| ==> ShapeOk(rules[k], signatures)
    requires FunctionsTyped(functions, signatures) && Derivation(rules, functions, trace)
    requires WellTyped(trace[0], columns)
    ensures WellTyped(trace[|trace| - 1], columns)
  {
    var n := |trace| - 1;
    if n > 0 {
      ProgramSound(rules, signatures, columns, functions, trace[..n]);
      assert Extends(rules, functions, trace[n - 1], trace[n]);
      ExtensionSound(rules, signatures, columns, functions, trace[n - 1], trace[n]);
    }
  }
}

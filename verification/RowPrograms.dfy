/** Row programs: the row-local part of a rule, compiled to a register machine. */
module RowPrograms {
  import opened Wrappers
  import opened Datalog
  import opened Rules

  /** Where an instruction finds an operand: in the row it was given, among the values computed so far, or in itself. */
  datatype ValueRef = Input(index: nat) | Result(index: nat) | Literal(value: Val)

  datatype Step =
    | CallStep(name: string, arguments: seq<ValueRef>, output: Option<nat>, lenient: bool)
    | ArithmeticStep(init: ValueRef, rest: seq<(ArithmeticOperator, ValueRef)>, result: nat)
    | CompareStep(left: ValueRef, operator: ComparisonOperator, right: ValueRef)

  datatype RowProgram = RowProgram(inputVariables: seq<Var>, steps: seq<Step>, head: seq<ValueRef>, results: nat)

  /* ------------------------------------------------------------------ */
  /* Well-formed programs                                                 */
  /* ------------------------------------------------------------------ */

  predicate Readable(ref: ValueRef, inputs: nat, results: nat) {
    match ref
    case Input(index) => index < inputs
    case Result(index) => index < results
    case Literal(_) => true
  }

  predicate AllReadable(refs: seq<ValueRef>, inputs: nat, results: nat) {
    forall i :: 0 <= i < |refs| ==> Readable(refs[i], inputs, results)
  }

  predicate RestReadable(rest: seq<(ArithmeticOperator, ValueRef)>, inputs: nat, results: nat) {
    forall i :: 0 <= i < |rest| ==> Readable(rest[i].1, inputs, results)
  }

  function Writes(step: Step): nat {
    match step
    case CallStep(_, _, output, _) => if output.Some? then 1 else 0
    case ArithmeticStep(_, _, _) => 1
    case CompareStep(_, _, _) => 0
  }

  /** How many results a run of steps writes. */
  function Written(steps: seq<Step>): nat {
    if steps == [] then 0 else Written(steps[..|steps| - 1]) + Writes(steps[|steps| - 1])
  }

  /** The step reads only inputs and results in range, and writes the next free result, if any. */
  predicate StepOk(step: Step, inputs: nat, results: nat) {
    match step
    case CallStep(_, arguments, output, lenient) => AllReadable(arguments, inputs, results) && (output.Some? ==> output.value == results && !lenient)
    case ArithmeticStep(init, rest, result) => Readable(init, inputs, results) && RestReadable(rest, inputs, results) && result == results
    case CompareStep(left, _, right) => Readable(left, inputs, results) && Readable(right, inputs, results)
  }

  /** Every result a step reads was written by an earlier step, and every result is written once, in order. */
  predicate StepsOk(steps: seq<Step>, inputs: nat) {
    steps != [] ==> StepsOk(steps[..|steps| - 1], inputs) && StepOk(steps[|steps| - 1], inputs, Written(steps[..|steps| - 1]))
  }

  predicate ProgramOk(p: RowProgram) {
    StepsOk(p.steps, |p.inputVariables|) && p.results == Written(p.steps) && AllReadable(p.head, |p.inputVariables|, p.results)
  }

  lemma {:induction false} StepsOkWiden(steps: seq<Step>, inputs: nat, more: nat)
    requires StepsOk(steps, inputs) && inputs <= more
    ensures StepsOk(steps, more)
  {
    if steps != [] {
      StepsOkWiden(steps[..|steps| - 1], inputs, more);
    }
  }

  lemma StepsOkAppend(steps: seq<Step>, step: Step, inputs: nat)
    requires StepsOk(steps, inputs) && StepOk(step, inputs, Written(steps))
    ensures StepsOk(steps + [step], inputs) && Written(steps + [step]) == Written(steps) + Writes(step)
  {
    assert (steps + [step])[..|steps|] == steps;
  }

  /* ------------------------------------------------------------------ */
  /* What a program means: results as a list growing step by step         */
  /* ------------------------------------------------------------------ */

  function ValueOf(ref: ValueRef, input: Row, results: Row): Val
    requires Readable(ref, |input|, |results|)
  {
    match ref
    case Input(index) => input[index]
    case Result(index) => results[index]
    case Literal(value) => value
  }

  function ValuesOf(refs: seq<ValueRef>, input: Row, results: Row): (r: Row)
    requires AllReadable(refs, |input|, |results|)
    ensures |r| == |refs| && forall i :: 0 <= i < |r| ==> r[i] == ValueOf(refs[i], input, results)
  {
    seq(|refs|, i requires 0 <= i < |refs| => ValueOf(refs[i], input, results))
  }

  function Fold(value: Val, rest: seq<(ArithmeticOperator, ValueRef)>, input: Row, results: Row): Option<Val>
    requires RestReadable(rest, |input|, |results|)
    decreases |rest|
  {
    if rest == [] then
      Some(value)
    else
      var next :- Apply(rest[0].0, value, ValueOf(rest[0].1, input, results));
      Fold(next, rest[1..], input, results)
  }

  /** One step: the results with the one it writes, if any. */
  function RunStep(functions: Functions, step: Step, input: Row, results: Row): (r: Outcome<Row>)
    requires StepOk(step, |input|, |results|)
    ensures r.Kept? ==> |r.value| == |results| + Writes(step)
  {
    match step
    case CallStep(name, arguments, output, lenient) =>
      var key := (name, ValuesOf(arguments, input, results));
      if key !in functions then
        if lenient then Kept(results) else Fault
      else if output.Some? then
        Kept(results + [functions[key]])
      else
        Verdict(functions[key], results)
    case ArithmeticStep(init, rest, _) =>
      var value := Fold(ValueOf(init, input, results), rest, input, results);
      if value.Some? then Kept(results + [value.value]) else Fault
    case CompareStep(left, operator, right) =>
      if CompareInts(ValueOf(left, input, results), operator, ValueOf(right, input, results)) then Kept(results) else Dropped
  }

  function RunSteps(functions: Functions, steps: seq<Step>, input: Row): (r: Outcome<Row>)
    requires StepsOk(steps, |input|)
    ensures r.Kept? ==> |r.value| == Written(steps)
  {
    if steps == [] then
      Kept([])
    else
      var results :- RunSteps(functions, steps[..|steps| - 1], input);
      RunStep(functions, steps[|steps| - 1], input, results)
  }

  function RunProgram(functions: Functions, p: RowProgram, input: Row): Outcome<Row>
    requires ProgramOk(p) && |input| == |p.inputVariables|
  {
    var results :- RunSteps(functions, p.steps, input);
    Kept(ValuesOf(p.head, input, results))
  }

  /* ------------------------------------------------------------------ */
  /* The interpreter                                                      */
  /* ------------------------------------------------------------------ */

  /** What a joined pair offers: its key and its sides' values, where the join has them. */
  datatype Sides = Sides(key: Option<Row>, left: Option<Row>, right: Option<Row>)

  function SourceOf(sides: Sides, fromRight: bool, fromValue: bool): Option<Row> {
    if !fromValue then sides.key else if fromRight then sides.right else sides.left
  }

  /** What a program reads its columns from: a stored row, or a joined pair read in place, each column named by the side
      it comes from: (from the right side, from a value, column). */
  datatype Columns = Stored(row: Row) | Joined(sides: Sides, extracts: seq<(bool, bool, nat)>)

  function Arity(input: Columns): nat {
    match input
    case Stored(row) => |row|
    case Joined(_, extracts) => |extracts|
  }

  /** Every column's side is there. A missing one is a panic. */
  predicate Supplied(input: Columns) {
    input.Joined? ==> forall i :: 0 <= i < |input.extracts| ==> HasColumn(input.sides, input.extracts[i])
  }

  predicate HasColumn(sides: Sides, extract: (bool, bool, nat)) {
    var source := SourceOf(sides, extract.0, extract.1);
    source.Some? && extract.2 < |source.value|
  }

  function Column(input: Columns, id: nat): Val
    requires Supplied(input) && id < Arity(input)
  {
    match input
    case Stored(row) => row[id]
    case Joined(sides, extracts) => SourceOf(sides, extracts[id].0, extracts[id].1).value[extracts[id].2]
  }

  /** The row the columns make up. */
  function Materialized(input: Columns): (row: Row)
    requires Supplied(input)
    ensures |row| == Arity(input) && forall i :: 0 <= i < |row| ==> row[i] == Column(input, i)
  {
    seq(Arity(input), i requires 0 <= i < Arity(input) => Column(input, i))
  }

  method Value(ref: ValueRef, input: Columns, results: array<Val>) returns (value: Val)
    requires Supplied(input) && Readable(ref, Arity(input), results.Length)
    ensures value == ValueOf(ref, Materialized(input), results[..])
  {
    match ref
    case Input(index) => value := Column(input, index);
    case Result(index) => value := results[index];
    case Literal(constant) => value := constant;
  }

  /** Arithmetic, left to right. */
  method RunArithmetic(init: ValueRef, rest: seq<(ArithmeticOperator, ValueRef)>, input: Columns, results: array<Val>)
    returns (value: Option<Val>)
    requires Supplied(input) && Readable(init, Arity(input), results.Length)
    requires RestReadable(rest, Arity(input), results.Length)
    ensures value == Fold(ValueOf(init, Materialized(input), results[..]), rest, Materialized(input), results[..])
  {
    var running := Value(init, input, results);
    ghost var row := Materialized(input);
    for i := 0 to |rest|
      invariant Fold(running, rest[i..], row, results[..]) ==
        Fold(ValueOf(init, row, results[..]), rest, row, results[..])
    {
      var operand := Value(rest[i].1, input, results);
      assert rest[i..][0] == rest[i] && rest[i..][1..] == rest[i + 1..];
      var next := Apply(rest[i].0, running, operand);
      if next.None? {
        return None;
      }
      running := next.value;
    }
    assert rest[|rest|..] == [];
    return Some(running);
  }

  /** Reading a prefix of the buffer reads the results written so far. */
  lemma ValuePrefix(ref: ValueRef, input: Row, buffer: Row, written: nat)
    requires written <= |buffer| && Readable(ref, |input|, written)
    ensures Readable(ref, |input|, |buffer|) && ValueOf(ref, input, buffer) == ValueOf(ref, input, buffer[..written])
  {
  }

  lemma {:induction false} FoldPrefix(value: Val, rest: seq<(ArithmeticOperator, ValueRef)>, input: Row, buffer: Row,
                                      written: nat)
    requires written <= |buffer| && RestReadable(rest, |input|, written)
    ensures RestReadable(rest, |input|, |buffer|)
    ensures Fold(value, rest, input, buffer) == Fold(value, rest, input, buffer[..written])
    decreases |rest|
  {
    if rest != [] {
      var next := Apply(rest[0].0, value, ValueOf(rest[0].1, input, buffer));
      if next.Some? {
        FoldPrefix(next.value, rest[1..], input, buffer, written);
      }
    }
  }

  lemma ValuesPrefix(refs: seq<ValueRef>, input: Row, buffer: Row, written: nat)
    requires written <= |buffer| && AllReadable(refs, |input|, written)
    ensures AllReadable(refs, |input|, |buffer|)
    ensures ValuesOf(refs, input, buffer) == ValuesOf(refs, input, buffer[..written])
  {
    forall i | 0 <= i < |refs|
      ensures Readable(refs[i], |input|, |buffer|)
      ensures ValueOf(refs[i], input, buffer) == ValueOf(refs[i], input, buffer[..written])
    {
      ValuePrefix(refs[i], input, buffer, written);
    }
  }

  method CallArguments(arguments: seq<ValueRef>, input: Columns, results: array<Val>) returns (cells: Row)
    requires Supplied(input) && AllReadable(arguments, Arity(input), results.Length)
    ensures cells == ValuesOf(arguments, Materialized(input), results[..])
  {
    cells := [];
    for i := 0 to |arguments|
      invariant |cells| == i
      invariant forall j :: 0 <= j < i ==> cells[j] == ValueOf(arguments[j], Materialized(input), results[..])
    {
      var cell := Value(arguments[i], input, results);
      cells := cells + [cell];
    }
  }

  /** Runs one step on the results buffer, overwriting the one result it names. */
  method ExecuteStep(functions: Functions, step: Step, input: Columns, results: array<Val>, ghost written: nat)
    returns (r: Outcome<()>)
    requires Supplied(input) && StepOk(step, Arity(input), written) && written + Writes(step) <= results.Length
    modifies results
    ensures var run := RunStep(functions, step, Materialized(input), old(results[..written]));
      && r.Fault? == run.Fault? && r.Dropped? == run.Dropped?
      && (run.Kept? ==> results[..written + Writes(step)] == run.value)
  {
    ghost var row := Materialized(input);
    match step {
      case CallStep(name, arguments, output, lenient) =>
        ValuesPrefix(arguments, row, results[..], written);
        var cells := CallArguments(arguments, input, results);
        if (name, cells) !in functions {
          return if lenient then Kept(()) else Fault;
        }
        var value := functions[(name, cells)];
        match output {
          case Some(index) => results[index] := value;
          case None => return Verdict(value, ());
        }
      case ArithmeticStep(init, rest, result) =>
        ValuePrefix(init, row, results[..], written);
        FoldPrefix(ValueOf(init, row, results[..]), rest, row, results[..], written);
        var value := RunArithmetic(init, rest, input, results);
        if value.None? {
          return Fault;
        }
        results[result] := value.value;
      case CompareStep(left, operator, right) =>
        ValuePrefix(left, row, results[..], written);
        ValuePrefix(right, row, results[..], written);
        var x := Value(left, input, results);
        var y := Value(right, input, results);
        if !CompareInts(x, operator, y) {
          return Dropped;
        }
    }
    return Kept(());
  }

  /** Runs a program on its input columns, on a buffer of zeros: as the program means it on the row they make up. */
  method EvaluateAs(functions: Functions, p: RowProgram, input: Columns) returns (r: Outcome<Row>)
    requires ProgramOk(p) && Supplied(input) && Arity(input) == |p.inputVariables|
    ensures r == RunProgram(functions, p, Materialized(input))
  {
    var results := new Val[p.results](_ => 0);
    assert p.steps[..|p.steps|] == p.steps;
    for k := 0 to |p.steps|
      invariant Stands(functions, p.steps, k, Materialized(input), p.results, results[..])
    {
      var step := ExecuteAt(functions, p, k, input, results);
      if !step.Kept? {
        return step.PropagateFailure();
      }
    }
    assert results[..p.results] == results[..];
    var head := CallArguments(p.head, input, results);
    return Kept(head);
  }

  /** Runs the program's next step; if it stops there, so does the program. */
  method ExecuteAt(functions: Functions, p: RowProgram, k: nat, input: Columns, results: array<Val>)
    returns (r: Outcome<()>)
    requires ProgramOk(p) && Supplied(input) && Arity(input) == |p.inputVariables| && k < |p.steps|
    requires Stands(functions, p.steps, k, Materialized(input), p.results, results[..])
    modifies results
    ensures r.Kept? ==> Stands(functions, p.steps, k + 1, Materialized(input), p.results, results[..])
    ensures r.Fault? ==> RunProgram(functions, p, Materialized(input)) == Fault
    ensures r.Dropped? ==> RunProgram(functions, p, Materialized(input)) == Dropped
  {
    StepStands(functions, p.steps, k, Materialized(input));
    r := ExecuteStep(functions, p.steps[k], input, results, Written(p.steps[..k]));
    if !r.Kept? {
      StoppedStays(functions, p.steps, k + 1, Materialized(input));
    }
  }

  /** The first `k` steps have run, and the buffer begins with their results. */
  ghost predicate Stands(functions: Functions, steps: seq<Step>, k: nat, row: Row, results: nat, buffer: Row)
    requires k <= |steps|
  {
    && StepsOk(steps[..k], |row|) && Written(steps[..k]) <= results == |buffer|
    && RunSteps(functions, steps[..k], row) == Kept(buffer[..Written(steps[..k])])
  }

  lemma StepStands(functions: Functions, steps: seq<Step>, k: nat, row: Row)
    requires k < |steps| && StepsOk(steps, |row|)
    ensures StepsOk(steps[..k], |row|) && StepOk(steps[k], |row|, Written(steps[..k])) && StepsOk(steps[..k + 1], |row|)
    ensures Written(steps[..k + 1]) == Written(steps[..k]) + Writes(steps[k]) <= Written(steps)
    ensures RunSteps(functions, steps[..k + 1], row) ==
      var results :- RunSteps(functions, steps[..k], row);
      RunStep(functions, steps[k], row, results)
  {
    PrefixOk(steps, k + 1, |row|);
    assert steps[..k + 1][..k] == steps[..k];
  }

  lemma {:induction false} PrefixOk(steps: seq<Step>, k: nat, inputs: nat)
    requires k <= |steps| && StepsOk(steps, inputs)
    ensures StepsOk(steps[..k], inputs) && Written(steps[..k]) <= Written(steps)
  {
    if k < |steps| {
      PrefixOk(steps[..|steps| - 1], k, inputs);
      assert steps[..|steps| - 1][..k] == steps[..k];
    } else {
      assert steps[..k] == steps;
    }
  }

  /** A run stopped by a prefix stays stopped. */
  lemma {:induction false} StoppedStays(functions: Functions, steps: seq<Step>, k: nat, input: Row)
    requires k <= |steps| && StepsOk(steps, |input|) && StepsOk(steps[..k], |input|)
    requires !RunSteps(functions, steps[..k], input).Kept?
    ensures RunSteps(functions, steps, input).Fault? == RunSteps(functions, steps[..k], input).Fault?
    ensures !RunSteps(functions, steps, input).Kept?
  {
    if k == |steps| {
      assert steps[..k] == steps;
    } else {
      assert steps[..|steps| - 1][..k] == steps[..k];
      StoppedStays(functions, steps[..|steps| - 1], k, input);
    }
  }

  /* ------------------------------------------------------------------ */
  /* What the compiler promises                                           */
  /* ------------------------------------------------------------------ */

  /** Where each name of a rule is held. */
  datatype Places = Places(inputs: seq<Var>, results: map<Var, nat>)

  /** The reference reads the place of the name: its result, if a call binds it. */
  predicate Denotes(ref: ValueRef, x: Var, places: Places) {
    match ref
    case Input(index) => x !in places.results && index < |places.inputs| && places.inputs[index] == x
    case Result(index) => x in places.results && places.results[x] == index
    case Literal(_) => false
  }

  predicate DenotesFactor(ref: ValueRef, factor: Factor<Var>, places: Places) {
    match factor
    case Label(x) => Denotes(ref, x, places)
    case Literal(value) => ref == ValueRef.Literal(value)
  }

  predicate DenotesTerms(rest: seq<(ArithmeticOperator, ValueRef)>, terms: seq<Term<Var>>, places: Places) {
    |rest| == |terms| && forall i :: 0 <= i < |rest| ==> rest[i].0 == terms[i].operator && DenotesFactor(rest[i].1, terms[i].factor, places)
  }

  /** The input row and the results hold the values of the names. */
  ghost predicate Holding(places: Places, input: Row, results: Row, s: Valuation) {
    && |input| >= |places.inputs|
    && (forall i :: 0 <= i < |places.inputs| && places.inputs[i] !in places.results ==> input[i] == At(s, places.inputs[i]))
    && (forall x :: x in places.results ==> places.results[x] < |results| && results[places.results[x]] == At(s, x))
  }

  lemma DenotesValue(ref: ValueRef, factor: Factor<Var>, places: Places, input: Row, results: Row, s: Valuation)
    requires DenotesFactor(ref, factor, places) && Holding(places, input, results, s)
    ensures Readable(ref, |input|, |results|) && ValueOf(ref, input, results) == FactorValue(factor, Env(s))
  {
  }

  lemma {:induction false} DenotesFold(value: Val, rest: seq<(ArithmeticOperator, ValueRef)>, terms: seq<Term<Var>>,
                                       places: Places, input: Row, results: Row, s: Valuation)
    requires DenotesTerms(rest, terms, places) && Holding(places, input, results, s)
    ensures RestReadable(rest, |input|, |results|)
    ensures Fold(value, rest, input, results) == EvaluateTerms(value, terms, Env(s))
    decreases |rest|
  {
    forall i | 0 <= i < |rest|
      ensures Readable(rest[i].1, |input|, |results|)
      ensures ValueOf(rest[i].1, input, results) == FactorValue(terms[i].factor, Env(s))
    {
      DenotesValue(rest[i].1, terms[i].factor, places, input, results, s);
    }
    if rest != [] {
      var next := Apply(rest[0].0, value, ValueOf(rest[0].1, input, results));
      if next.Some? {
        DenotesFold(next.value, rest[1..], terms[1..], places, input, results, s);
      }
    }
  }

  /** The rule's own evaluation, up to some calls, some comparisons and some expressions. */
  function Direct(functions: Functions, calls: seq<CallPredicate>, computed: seq<Comparison<Var>>,
                  exprs: seq<Arithmetic<Var>>,
                  s: Valuation): Outcome<(Valuation, Row)> {
    var called :- RunCalls(functions, calls, s);
    var compared :- RunComparisons(computed, called);
    var row :- HeadRow(exprs, compared);
    Kept((compared, row))
  }

  /** A run of steps ends as the rule does; where both go on, it holds every name's value and every expression's. */
  ghost predicate Simulates(run: Outcome<Row>, direct: Outcome<(Valuation, Row)>, places: Places, refs: seq<ValueRef>,
                            input: Row, s: Valuation)
  {
    match direct
    case Fault => run.Fault?
    case Dropped => run.Dropped?
    case Kept((t, row)) =>
      && run.Kept? && Holding(places, input, run.value, t)
      && AllReadable(refs, |input|, |run.value|) && ValuesOf(refs, input, run.value) == row
      && (forall x :: x !in places.results ==> At(t, x) == At(s, x))
  }

  ghost predicate Starts(input: Row, inputs: seq<Var>, s: Valuation) {
    |input| >= |inputs| && forall i :: 0 <= i < |inputs| ==> input[i] == At(s, inputs[i])
  }

  /** The work a compiled run of steps stands for. */
  datatype Work = Work(calls: seq<CallPredicate>, computed: seq<Comparison<Var>>, exprs: seq<Arithmetic<Var>>)

  /** On every input, the steps do the work: same drops, same faults, same values. */
  ghost predicate Follows(steps: seq<Step>, places: Places, work: Work, refs: seq<ValueRef>) {
    && StepsOk(steps, |places.inputs|) && AllReadable(refs, |places.inputs|, Written(steps))
    && (forall x :: x in places.results ==> places.results[x] < Written(steps))
    && (forall i :: 0 <= i < |places.inputs| ==> places.inputs[i] !in places.results)
    && (forall functions, input, s :: Starts(input, places.inputs, s) ==> FollowsOn(functions, steps, places, work, refs, input, s))
  }

  ghost predicate FollowsOn(functions: Functions, steps: seq<Step>, places: Places, work: Work, refs: seq<ValueRef>,
                            input: Row, s: Valuation)
  {
    && StepsOk(steps, |input|)
    && Simulates(RunSteps(functions, steps, input), Direct(functions, work.calls, work.computed, work.exprs, s), places, refs, input, s)
  }

  /** Names are only ever added to the inputs. */
  ghost predicate Grown(p: Places, q: Places) {
    && p.results == q.results && p.inputs <= q.inputs
    && forall i :: 0 <= i < |q.inputs| ==> q.inputs[i] !in q.results
  }

  lemma FollowsGrown(steps: seq<Step>, p: Places, q: Places, work: Work, refs: seq<ValueRef>)
    requires Follows(steps, p, work, refs) && Grown(p, q)
    ensures Follows(steps, q, work, refs)
  {
    StepsOkWiden(steps, |p.inputs|, |q.inputs|);
    forall functions, input, s | Starts(input, q.inputs, s)
      ensures FollowsOn(functions, steps, q, work, refs, input, s)
    {
      assert Starts(input, p.inputs, s);
      assert FollowsOn(functions, steps, p, work, refs, input, s);
    }
  }

  lemma FollowsNothing(places: Places)
    requires places.results == map[]
    ensures Follows([], places, Work([], [], []), [])
  {
    forall functions, input, s | Starts(input, places.inputs, s)
      ensures FollowsOn(functions, [], places, Work([], [], []), [], input, s)
    {
    }
  }

  predicate DenotesAll(refs: seq<ValueRef>, factors: seq<Factor<Var>>, places: Places) {
    |refs| == |factors| && forall i :: 0 <= i < |refs| ==> DenotesFactor(refs[i], factors[i], places)
  }

  /** The step a call becomes, and the places after it. */
  predicate CompilesCall(step: Step, call: CallPredicate, places: Places, places': Places, written: nat) {
    && step.CallStep? && step.name == call.call.name && DenotesAll(step.arguments, call.call.args, places)
    && step.lenient == call.Prefilter?
    && places'.inputs == places.inputs
    && match call
       case Bind(output, _) => step.output == Some(written) && output !in places.results && places'.results == places.results[output := written]
       case _ => step.output == None && places'.results == places.results
  }

  lemma DenotesReadable(ref: ValueRef, factor: Factor<Var>, places: Places, written: nat)
    requires DenotesFactor(ref, factor, places) && forall x :: x in places.results ==> places.results[x] < written
    ensures Readable(ref, |places.inputs|, written)
  {
  }

  lemma FollowsCall(steps: seq<Step>, places: Places, calls: seq<CallPredicate>, call: CallPredicate, step: Step,
                    places': Places)
    requires Follows(steps, places, Work(calls, [], []), [])
    requires CompilesCall(step, call, places, places', Written(steps))
    requires call.Bind? ==> call.output !in places.inputs
    ensures Follows(steps + [step], places', Work(calls + [call], [], []), [])
  {
    forall i | 0 <= i < |step.arguments|
      ensures Readable(step.arguments[i], |places.inputs|, Written(steps))
    {
      DenotesReadable(step.arguments[i], call.call.args[i], places, Written(steps));
    }
    StepsOkAppend(steps, step, |places.inputs|);
    forall functions, input, s | Starts(input, places.inputs, s)
      ensures FollowsOn(functions, steps + [step], places', Work(calls + [call], [], []), [], input, s)
    {
      assert FollowsOn(functions, steps, places, Work(calls, [], []), [], input, s);
      StepsOkWiden(steps + [step], |places.inputs|, |input|);
      CallOn(functions, steps, places, calls, call, step, places', input, s);
    }
  }

  lemma CallOn(functions: Functions, steps: seq<Step>, places: Places, calls: seq<CallPredicate>, call: CallPredicate,
               step: Step, places': Places, input: Row, s: Valuation)
    requires FollowsOn(functions, steps, places, Work(calls, [], []), [], input, s) && StepsOk(steps + [step], |input|)
    requires CompilesCall(step, call, places, places', Written(steps))
    requires call.Bind? ==> call.output !in places.inputs
    ensures FollowsOn(functions, steps + [step], places', Work(calls + [call], [], []), [], input, s)
  {
    assert (steps + [step])[..|steps|] == steps && (calls + [call])[..|calls|] == calls;
    var run, direct := RunSteps(functions, steps, input), RunCalls(functions, calls, s);
    if direct.Kept? {
      CallValue(functions, places, call, step, places', input, run.value, direct.value);
    }
  }

  /** The step does what the call does. */
  lemma CallValue(functions: Functions, places: Places, call: CallPredicate, step: Step, places': Places, input: Row,
                  results: Row, t: Valuation)
    requires Holding(places, input, results, t) && StepOk(step, |input|, |results|)
    requires CompilesCall(step, call, places, places', |results|)
    requires call.Bind? ==> call.output !in places.inputs
    ensures var run', t' := RunStep(functions, step, input, results), RunCall(functions, call, t);
      match t'
      case Fault => run'.Fault?
      case Dropped => run'.Dropped?
      case Kept(t') => run'.Kept? && Holding(places', input, run'.value, t') && forall x :: x !in places'.results || x in places.results ==> At(t', x) == At(t, x)
  {
    forall i | 0 <= i < |step.arguments|
      ensures ValueOf(step.arguments[i], input, results) == FactorValue(call.call.args[i], Env(t))
    {
      DenotesValue(step.arguments[i], call.call.args[i], places, input, results, t);
    }
    assert ValuesOf(step.arguments, input, results) == Arguments(call.call.args, t);
  }

  /** Where an expression's value is found: its one factor's place, or the result of a step added for it. */
  predicate CompilesExpression(steps: seq<Step>, steps': seq<Step>, ref: ValueRef, a: Arithmetic<Var>, places: Places) {
    if a.rest == [] then
      steps' == steps && DenotesFactor(ref, a.init, places)
    else
      && |steps'| == |steps| + 1 && steps'[..|steps|] == steps && ref == Result(Written(steps))
      && var last := steps'[|steps|];
         last.ArithmeticStep? && last.result == Written(steps) && DenotesFactor(last.init, a.init, places) && DenotesTerms(last.rest, a.rest, places)
  }

  lemma StepCompiles(steps: seq<Step>, init: ValueRef, rest: seq<(ArithmeticOperator, ValueRef)>, a: Arithmetic<Var>,
                     places: Places)
    requires a.rest != [] && DenotesFactor(init, a.init, places) && DenotesTerms(rest, a.rest, places)
    ensures var steps' := steps + [ArithmeticStep(init, rest, Written(steps))];
      CompilesExpression(steps, steps', Result(Written(steps)), a, places) && Written(steps') == Written(steps) + 1
  {
    var last := ArithmeticStep(init, rest, Written(steps));
    assert (steps + [last])[..|steps|] == steps && (steps + [last])[|steps|] == last;
  }

  lemma FollowsExpression(steps: seq<Step>, steps': seq<Step>, places: Places, work: Work, refs: seq<ValueRef>,
                          ref: ValueRef, a: Arithmetic<Var>)
    requires Follows(steps, places, work, refs) && CompilesExpression(steps, steps', ref, a, places)
    ensures Follows(steps', places, work.(exprs := work.exprs + [a]), refs + [ref])
  {
    ExpressionOk(steps, steps', places, ref, a);
    forall functions, input, s | Starts(input, places.inputs, s)
      ensures FollowsOn(functions, steps', places, work.(exprs := work.exprs + [a]), refs + [ref], input, s)
    {
      assert FollowsOn(functions, steps, places, work, refs, input, s);
      StepsOkWiden(steps', |places.inputs|, |input|);
      ExpressionOn(functions, steps, steps', places, work, refs, ref, a, input, s);
    }
  }

  lemma ExpressionOk(steps: seq<Step>, steps': seq<Step>, places: Places, ref: ValueRef, a: Arithmetic<Var>)
    requires StepsOk(steps, |places.inputs|) && CompilesExpression(steps, steps', ref, a, places)
    requires forall x :: x in places.results ==> places.results[x] < Written(steps)
    ensures StepsOk(steps', |places.inputs|) && Written(steps) <= Written(steps')
    ensures Readable(ref, |places.inputs|, Written(steps'))
  {
    if a.rest == [] {
      DenotesReadable(ref, a.init, places, Written(steps));
    } else {
      var last := steps'[|steps|];
      DenotesReadable(last.init, a.init, places, Written(steps));
      forall i | 0 <= i < |last.rest|
        ensures Readable(last.rest[i].1, |places.inputs|, Written(steps))
      {
        DenotesReadable(last.rest[i].1, a.rest[i].factor, places, Written(steps));
      }
      StepsOkAppend(steps, last, |places.inputs|);
      assert steps' == steps + [last];
    }
  }

  lemma DirectExpression(functions: Functions, work: Work, a: Arithmetic<Var>, s: Valuation)
    ensures Direct(functions, work.calls, work.computed, work.exprs + [a], s) ==
      var d :- Direct(functions, work.calls, work.computed, work.exprs, s);
      var v :- Compute(a, Env(d.0));
      Kept((d.0, d.1 + [v]))
  {
    assert (work.exprs + [a])[..|work.exprs|] == work.exprs;
  }

  lemma ExpressionOn(functions: Functions, steps: seq<Step>, steps': seq<Step>, places: Places, work: Work,
                     refs: seq<ValueRef>, ref: ValueRef,
                     a: Arithmetic<Var>, input: Row, s: Valuation)
    requires FollowsOn(functions, steps, places, work, refs, input, s) && StepsOk(steps', |input|)
    requires CompilesExpression(steps, steps', ref, a, places)
    ensures FollowsOn(functions, steps', places, work.(exprs := work.exprs + [a]), refs + [ref], input, s)
  {
    DirectExpression(functions, work, a, s);
    var run, direct := RunSteps(functions, steps, input), Direct(functions, work.calls, work.computed, work.exprs, s);
    if direct.Kept? {
      ExpressionValue(functions, steps, steps', places, ref, a, input, run.value, direct.value.0);
      if Compute(a, Env(direct.value.0)).Kept? {
        var run' := RunSteps(functions, steps', input);
        assert forall i :: 0 <= i < |refs| ==> ValueOf(refs[i], input, run'.value) == ValueOf(refs[i], input, run.value);
      }
    }
  }

  /** The compiled expression faults when the expression does, and otherwise its reference reads its value. */
  lemma ExpressionValue(functions: Functions, steps: seq<Step>, steps': seq<Step>, places: Places, ref: ValueRef,
                        a: Arithmetic<Var>,
                        input: Row, results: Row, t: Valuation)
    requires CompilesExpression(steps, steps', ref, a, places) && StepsOk(steps, |input|) && StepsOk(steps', |input|)
    requires RunSteps(functions, steps, input) == Kept(results) && Holding(places, input, results, t)
    ensures var run' := RunSteps(functions, steps', input);
      match Compute(a, Env(t))
      case Kept(v) => run'.Kept? && results <= run'.value && Readable(ref, |input|, |run'.value|) && ValueOf(ref, input, run'.value) == v
      case _ => run'.Fault?
  {
    if a.rest == [] {
      DenotesValue(ref, a.init, places, input, results, t);
    } else {
      var last := steps'[|steps|];
      DenotesValue(last.init, a.init, places, input, results, t);
      DenotesFold(FactorValue(a.init, Env(t)), last.rest, a.rest, places, input, results, t);
    }
  }

  lemma FollowsComparison(steps: seq<Step>, places: Places, calls: seq<CallPredicate>, computed: seq<Comparison<Var>>,
                          c: Comparison<Var>, left: ValueRef, right: ValueRef)
    requires Follows(steps, places, Work(calls, computed, [c.left, c.right]), [left, right])
    ensures Follows(steps + [CompareStep(left, c.operator, right)], places, Work(calls, computed + [c], []), [])
  {
    var step := CompareStep(left, c.operator, right);
    assert Readable([left, right][0], |places.inputs|, Written(steps)) && Readable([left, right][1], |places.inputs|, Written(steps));
    StepsOkAppend(steps, step, |places.inputs|);
    forall functions, input, s | Starts(input, places.inputs, s)
      ensures FollowsOn(functions, steps + [step], places, Work(calls, computed + [c], []), [], input, s)
    {
      assert FollowsOn(functions, steps, places, Work(calls, computed, [c.left, c.right]), [left, right], input, s);
      StepsOkWiden(steps + [step], |places.inputs|, |input|);
      ComparisonOn(functions, steps, places, calls, computed, c, left, right, input, s);
    }
  }

  lemma BothSides(c: Comparison<Var>, t: Valuation)
    ensures HeadRow([c.left, c.right], t) ==
      var left :- Compute(c.left, Env(t));
      var right :- Compute(c.right, Env(t));
      Kept([left, right])
  {
    var two, one, none: Row := [c.left, c.right], [c.left], [];
    assert two[..|two| - 1] == one && one[..|one| - 1] == [];
    var left, right := Compute(c.left, Env(t)), Compute(c.right, Env(t));
    assert HeadRow(one[..|one| - 1], t) == Kept(none) && one[|one| - 1] == c.left;
    if left.Kept? {
      assert none + [left.value] == [left.value];
      assert HeadRow(one, t) == Kept([left.value]);
      if right.Kept? {
        assert [left.value] + [right.value] == [left.value, right.value];
      }
    } else {
      assert HeadRow(one, t) == left.PropagateFailure();
    }
  }

  lemma ComparisonOn(functions: Functions, steps: seq<Step>, places: Places, calls: seq<CallPredicate>,
                     computed: seq<Comparison<Var>>, c: Comparison<Var>,
                     left: ValueRef, right: ValueRef, input: Row, s: Valuation)
    requires FollowsOn(functions, steps, places, Work(calls, computed, [c.left, c.right]), [left, right], input, s)
    requires StepsOk(steps + [CompareStep(left, c.operator, right)], |input|)
    ensures FollowsOn(functions, steps + [CompareStep(left, c.operator, right)], places, Work(calls, computed + [c], []), [], input, s)
  {
    var step := CompareStep(left, c.operator, right);
    RunOneMore(functions, steps, step, input);
    DirectComparison(functions, calls, computed, c, s);
    var direct := Direct(functions, calls, computed, [c.left, c.right], s);
    if direct.Kept? {
      BothValues(left, right, input, RunSteps(functions, steps, input).value);
    }
  }

  lemma RunOneMore(functions: Functions, steps: seq<Step>, step: Step, input: Row)
    requires StepsOk(steps + [step], |input|)
    ensures StepsOk(steps, |input|) && StepOk(step, |input|, Written(steps))
    ensures RunSteps(functions, steps + [step], input) ==
      var results :- RunSteps(functions, steps, input);
      RunStep(functions, step, input, results)
  {
    assert (steps + [step])[..|steps|] == steps;
  }

  lemma DirectComparison(functions: Functions, calls: seq<CallPredicate>, computed: seq<Comparison<Var>>,
                         c: Comparison<Var>, s: Valuation)
    ensures Direct(functions, calls, computed + [c], [], s) ==
      var sides :- Direct(functions, calls, computed, [c.left, c.right], s);
      if CompareInts(sides.1[0], c.operator, sides.1[1]) then Kept((sides.0, [])) else Dropped
  {
    assert (computed + [c])[..|computed|] == computed;
    var called := RunCalls(functions, calls, s);
    if called.Kept? && RunComparisons(computed, called.value).Kept? {
      BothSides(c, RunComparisons(computed, called.value).value);
    }
  }

  lemma BothValues(left: ValueRef, right: ValueRef, input: Row, results: Row)
    requires Readable(left, |input|, |results|) && Readable(right, |input|, |results|)
    ensures AllReadable([left, right], |input|, |results|)
    ensures ValuesOf([left, right], input, results) == [ValueOf(left, input, results), ValueOf(right, input, results)]
  {
  }

  /* ------------------------------------------------------------------ */
  /* The compiler                                                         */
  /* ------------------------------------------------------------------ */

  /** The state of one compilation. */
  class Builder {
    var inputVariables: seq<Var>
    var inputIndices: map<Var, nat>
    var resultIndices: map<Var, nat>
    var results: nat
    var steps: seq<Step>
    const positiveVariables: set<Var>

    constructor (positives: set<Var>)
      ensures Valid() && positiveVariables == positives
      ensures places() == Places([], map[]) && steps == []
      ensures Follows(steps, places(), Work([], [], []), [])
    {
      inputVariables, inputIndices, resultIndices, results, steps := [], map[], map[], 0, [];
      positiveVariables := positives;
      new;
      FollowsNothing(places());
    }

    function places(): Places
      reads this
    {
      Places(inputVariables, resultIndices)
    }

    ghost predicate Valid()
      reads this
    {
      && (forall x :: x in inputIndices ==> inputIndices[x] < |inputVariables| && inputVariables[inputIndices[x]] == x)
      && (forall i :: 0 <= i < |inputVariables| ==> inputVariables[i] in inputIndices && inputVariables[i] in positiveVariables)
      && (forall x :: x in resultIndices ==> x !in positiveVariables)
      && results == Written(steps)
    }

    /** The variable's input column, added if it is new. */
    method InputOf(x: Var) returns (ref: ValueRef)
      requires Valid() && x in positiveVariables
      modifies this`inputVariables, this`inputIndices
      ensures Valid() && Denotes(ref, x, places()) && Grown(old(places()), places())
    {
      if x !in inputIndices {
        inputIndices := inputIndices[x := |inputVariables|];
        inputVariables := inputVariables + [x];
      }
      ref := Input(inputIndices[x]);
    }

    method Variable(x: Var) returns (ref: ValueRef)
      requires Valid() && x in positiveVariables + resultIndices.Keys
      modifies this`inputVariables, this`inputIndices
      ensures Valid() && Denotes(ref, x, places()) && Grown(old(places()), places())
    {
      if x in resultIndices {
        ref := Result(resultIndices[x]);
      } else {
        ref := InputOf(x);
      }
    }

    /** The next free result, held by a call's output. */
    method Bind(output: Var) returns (index: nat)
      requires Valid() && output !in positiveVariables && output !in resultIndices
      modifies this`results, this`resultIndices
      ensures index == old(results) && results == old(results) + 1
      ensures resultIndices == old(resultIndices)[output := index]
    {
      index := results;
      results := results + 1;
      resultIndices := resultIndices[output := index];
    }

    method FactorOf(factor: Factor<Var>) returns (ref: ValueRef)
      requires Valid() && (factor.Label? ==> factor.place in positiveVariables + resultIndices.Keys)
      modifies this`inputVariables, this`inputIndices
      ensures Valid() && DenotesFactor(ref, factor, places()) && Grown(old(places()), places())
    {
      match factor
      case Label(x) => ref := Variable(x);
      case Literal(value) => ref := ValueRef.Literal(value);
    }

    method CallArgumentsOf(args: seq<Factor<Var>>) returns (refs: seq<ValueRef>)
      requires Valid() && FactorsBound(args, positiveVariables + resultIndices.Keys)
      modifies this`inputVariables, this`inputIndices
      ensures Valid() && DenotesAll(refs, args, places()) && Grown(old(places()), places())
    {
      refs := [];
      for i := 0 to |args|
        invariant Valid() && DenotesAll(refs, args[..i], places()) && Grown(old(places()), places())
      {
        var ref := FactorOf(args[i]);
        refs := refs + [ref];
      }
      assert args[..|args|] == args;
    }

    method TermsOf(terms: seq<Term<Var>>) returns (rest: seq<(ArithmeticOperator, ValueRef)>)
      requires Valid()
      requires forall i :: 0 <= i < |terms| && terms[i].factor.Label? ==>
        terms[i].factor.place in positiveVariables + resultIndices.Keys
      modifies this`inputVariables, this`inputIndices
      ensures Valid() && DenotesTerms(rest, terms, places()) && Grown(old(places()), places())
    {
      rest := [];
      for i := 0 to |terms|
        invariant Valid() && DenotesTerms(rest, terms[..i], places()) && Grown(old(places()), places())
      {
        var operand := FactorOf(terms[i].factor);
        rest := rest + [(terms[i].operator, operand)];
      }
      assert terms[..|terms|] == terms;
    }

    /** An expression's value: its one factor's place, or the result of a new step. */
    method Expression(a: Arithmetic<Var>) returns (ref: ValueRef)
      requires Valid() && ArithmeticVariables(a) <= positiveVariables + resultIndices.Keys
      modifies this`inputVariables, this`inputIndices, this`results, this`steps
      ensures Valid() && Grown(old(places()), places())
      ensures CompilesExpression(old(steps), steps, ref, a, places())
    {
      LabelsOfTerms(a);
      if a.rest == [] {
        ref := FactorOf(a.init);
        return;
      }
      var init := FactorOf(a.init);
      var rest := TermsOf(a.rest);
      StepCompiles(steps, init, rest, a, places());
      var output := results;
      results := results + 1;
      steps := steps + [ArithmeticStep(init, rest, output)];
      ref := Result(output);
    }
  }

  lemma {:induction false} TermLabelsAt(rest: seq<Term<Var>>, i: nat)
    requires i < |rest| && rest[i].factor.Label?
    ensures rest[i].factor.place in TermLabels(rest)
  {
    if i > 0 {
      TermLabelsAt(rest[1..], i - 1);
    }
  }

  lemma LabelsOfTerms(a: Arithmetic<Var>)
    ensures a.init.Label? ==> a.init.place in ArithmeticVariables(a)
    ensures forall i :: 0 <= i < |a.rest| && a.rest[i].factor.Label? ==>
      a.rest[i].factor.place in ArithmeticVariables(a)
  {
    if a.init.Label? {
      assert Labels(a)[0] == a.init.place;
    }
    forall i | 0 <= i < |a.rest| && a.rest[i].factor.Label?
      ensures a.rest[i].factor.place in ArithmeticVariables(a)
    {
      TermLabelsAt(a.rest, i);
    }
  }

  /** An expression compiled over grown places does its work too. */
  lemma FollowsCompiled(steps: seq<Step>, steps': seq<Step>, p: Places, q: Places, work: Work, refs: seq<ValueRef>,
                        ref: ValueRef, a: Arithmetic<Var>)
    requires Follows(steps, p, work, refs) && Grown(p, q) && CompilesExpression(steps, steps', ref, a, q)
    ensures Follows(steps', q, work.(exprs := work.exprs + [a]), refs + [ref])
  {
    FollowsGrown(steps, p, q, work, refs);
    FollowsExpression(steps, steps', q, work, refs, ref, a);
  }

  /* ------------------------------------------------------------------ */
  /* Compiling a rule                                                     */
  /* ------------------------------------------------------------------ */

  /** A call, compiled to one step. */
  method CompileCall(b: Builder, call: CallPredicate, ghost calls: seq<CallPredicate>)
    requires b.Valid() && FactorsBound(call.call.args, b.positiveVariables + b.resultIndices.Keys)
    requires call.Bind? ==> call.output !in b.positiveVariables + b.resultIndices.Keys
    requires Follows(b.steps, b.places(), Work(calls, [], []), [])
    modifies b
    ensures b.Valid() && Follows(b.steps, b.places(), Work(calls + [call], [], []), [])
    ensures b.resultIndices.Keys == old(b.resultIndices.Keys) + if call.Bind? then {call.output} else {}
  {
    ghost var steps0, places0 := b.steps, b.places();
    var arguments := b.CallArgumentsOf(call.call.args);
    FollowsGrown(steps0, places0, b.places(), Work(calls, [], []), []);
    ghost var places1 := b.places();
    var output: Option<nat> := None;
    if call.Bind? {
      var index := b.Bind(call.output);
      output := Some(index);
    }
    var step := CallStep(call.call.name, arguments, output, call.Prefilter?);
    FollowsCall(steps0, places1, calls, call, step, b.places());
    assert (b.steps + [step])[..|b.steps|] == b.steps;
    b.steps := b.steps + [step];
  }

  lemma FollowsBothSides(steps0: seq<Step>, steps1: seq<Step>, steps2: seq<Step>, places0: Places, places1: Places,
                         places2: Places,
                         calls: seq<CallPredicate>, computed: seq<Comparison<Var>>, c: Comparison<Var>, left: ValueRef,
                         right: ValueRef)
    requires Follows(steps0, places0, Work(calls, computed, []), [])
    requires Grown(places0, places1) && CompilesExpression(steps0, steps1, left, c.left, places1)
    requires Grown(places1, places2) && CompilesExpression(steps1, steps2, right, c.right, places2)
    ensures Follows(steps2 + [CompareStep(left, c.operator, right)], places2, Work(calls, computed + [c], []), [])
  {
    var none: seq<Arithmetic<Var>>, unread: seq<ValueRef> := [], [];
    assert none + [c.left] == [c.left] && [c.left] + [c.right] == [c.left, c.right];
    assert unread + [left] == [left] && [left] + [right] == [left, right];
    FollowsCompiled(steps0, steps1, places0, places1, Work(calls, computed, none), unread, left, c.left);
    FollowsCompiled(steps1, steps2, places1, places2, Work(calls, computed, [c.left]), [left], right, c.right);
    FollowsComparison(steps2, places2, calls, computed, c, left, right);
  }

  method CompileComparison(b: Builder, c: Comparison<Var>, ghost calls: seq<CallPredicate>,
                           ghost computed: seq<Comparison<Var>>)
    requires b.Valid() && ComparisonVariables(c) <= b.positiveVariables + b.resultIndices.Keys
    requires Follows(b.steps, b.places(), Work(calls, computed, []), [])
    modifies b
    ensures b.Valid() && Follows(b.steps, b.places(), Work(calls, computed + [c], []), [])
    ensures b.resultIndices == old(b.resultIndices)
  {
    ghost var steps0, places0 := b.steps, b.places();
    var left := b.Expression(c.left);
    ghost var steps1, places1 := b.steps, b.places();
    var right := b.Expression(c.right);
    FollowsBothSides(steps0, steps1, b.steps, places0, places1, b.places(), calls, computed, c, left, right);
    assert (b.steps + [CompareStep(left, c.operator, right)])[..|b.steps|] == b.steps;
    b.steps := b.steps + [CompareStep(left, c.operator, right)];
  }

  method CompileHead(b: Builder, head: seq<Arithmetic<Var>>, ghost calls: seq<CallPredicate>,
                     ghost computed: seq<Comparison<Var>>) returns (refs: seq<ValueRef>)
    requires b.Valid() && Follows(b.steps, b.places(), Work(calls, computed, []), [])
    requires forall i :: 0 <= i < |head| ==> ArithmeticVariables(head[i]) <= b.positiveVariables + b.resultIndices.Keys
    modifies b
    ensures b.Valid() && Follows(b.steps, b.places(), Work(calls, computed, head), refs)
  {
    refs := [];
    for i := 0 to |head|
      invariant b.Valid() && b.resultIndices == old(b.resultIndices)
      invariant Follows(b.steps, b.places(), Work(calls, computed, head[..i]), refs)
    {
      ghost var steps0, places0 := b.steps, b.places();
      var ref := b.Expression(head[i]);
      FollowsCompiled(steps0, b.steps, places0, b.places(), Work(calls, computed, head[..i]), refs, ref, head[i]);
      assert head[..i + 1] == head[..i] + [head[i]];
      refs := refs + [ref];
    }
    assert head[..|head|] == head;
  }

  /** Whether the rule computes anything after its joins. */
  predicate NeedsProgram(rule: Rule) {
    Calls(rule.body) != [] || ComputedComparisons(rule) != [] || exists i :: 0 <= i < |rule.head| && HeadComputes(rule.head[i])
  }

  predicate HeadComputes(arg: HeadArg) {
    match arg
    case HeadVariable(_) => false
    case HeadArithmetic(_) => true
    case HeadAggregate(a) => !(a.init.Label? && a.rest == [])
  }

  /** On every row of its inputs' values, the program does what the rule does: the same head row, drop or fault. */
  ghost predicate Compiled(p: RowProgram, rule: Rule) {
    && ProgramOk(p)
    && forall functions, s :: RunProgram(functions, p, Image(s, p.inputVariables)) == EvaluateSolution(functions, rule, s)
  }

  /** The calls in order, then the comparisons over their results. */
  method CompileBody(b: Builder, calls: seq<CallPredicate>, computed: seq<Comparison<Var>>)
    requires b.Valid() && b.resultIndices == map[] && Follows(b.steps, b.places(), Work([], [], []), [])
    requires CallsOk(calls, b.positiveVariables)
    requires forall i :: 0 <= i < |computed| ==>
      ComparisonVariables(computed[i]) <= b.positiveVariables + Outputs(calls)
    modifies b
    ensures b.Valid() && b.resultIndices.Keys == Outputs(calls)
    ensures Follows(b.steps, b.places(), Work(calls, computed, []), [])
  {
    CompileCalls(b, calls);
    CompileComparisons(b, calls, computed);
  }

  method CompileCalls(b: Builder, calls: seq<CallPredicate>)
    requires b.Valid() && b.resultIndices == map[] && Follows(b.steps, b.places(), Work([], [], []), [])
    requires CallsOk(calls, b.positiveVariables)
    modifies b
    ensures b.Valid() && b.resultIndices.Keys == Outputs(calls)
    ensures Follows(b.steps, b.places(), Work(calls, [], []), [])
  {
    for k := 0 to |calls|
      invariant b.Valid() && b.resultIndices.Keys == Outputs(calls[..k])
      invariant Follows(b.steps, b.places(), Work(calls[..k], [], []), [])
    {
      CompileCall(b, calls[k], calls[..k]);
      assert calls[..k + 1] == calls[..k] + [calls[k]];
      OutputsOfLast(calls[..k + 1]);
      assert calls[..k + 1][..k] == calls[..k];
    }
    assert calls[..|calls|] == calls;
  }

  method CompileComparisons(b: Builder, ghost calls: seq<CallPredicate>, computed: seq<Comparison<Var>>)
    requires b.Valid() && b.resultIndices.Keys == Outputs(calls)
    requires Follows(b.steps, b.places(), Work(calls, [], []), [])
    requires forall i :: 0 <= i < |computed| ==>
      ComparisonVariables(computed[i]) <= b.positiveVariables + Outputs(calls)
    modifies b
    ensures b.Valid() && b.resultIndices.Keys == Outputs(calls)
    ensures Follows(b.steps, b.places(), Work(calls, computed, []), [])
  {
    for k := 0 to |computed|
      invariant b.Valid() && b.resultIndices.Keys == Outputs(calls)
      invariant Follows(b.steps, b.places(), Work(calls, computed[..k], []), [])
    {
      CompileComparison(b, computed[k], calls, computed[..k]);
      assert computed[..k + 1] == computed[..k] + [computed[k]];
    }
    assert computed[..|computed|] == computed;
  }

  /** Compiles what a rule does to each solution. There is a program exactly when the rule needs one; it reads
      relational variables only, and at least one whenever the body binds any: `driver` is borrowed when nothing is
      read. */
  method FromRule(rule: Rule, driver: Option<Var>) returns (r: Option<RowProgram>)
    requires WellShaped(rule)
    requires driver.Some? ==> driver.value in Relational(Positives(rule.body))
    requires driver.None? ==> Relational(Positives(rule.body)) == {}
    ensures r.Some? <==> NeedsProgram(rule)
    ensures r.Some? ==> Compiled(r.value, rule)
    ensures r.Some? ==> forall i :: 0 <= i < |r.value.inputVariables| ==>
      r.value.inputVariables[i] in Relational(Positives(rule.body))
    ensures r.Some? && r.value.inputVariables == [] ==> Relational(Positives(rule.body)) == {}
  {
    if !NeedsProgram(rule) {
      return None;
    }
    var calls, computed, head := Calls(rule.body), ComputedComparisons(rule), HeadExpressions(rule.head);
    var b := new Builder(Relational(Positives(rule.body)));
    CompileBody(b, calls, computed);
    var refs := CompileHead(b, head, calls, computed);
    if b.inputVariables == [] && driver.Some? {
      ghost var places0 := b.places();
      var borrowed := b.InputOf(driver.value);
      FollowsGrown(b.steps, places0, b.places(), Work(calls, computed, head), refs);
    }
    r := Some(RowProgram(b.inputVariables, b.steps, refs, b.results));
    FollowsCompilesRule(b.places(), r.value, rule);
  }

  lemma FollowsCompilesRule(places: Places, p: RowProgram, rule: Rule)
    requires p.inputVariables == places.inputs && p.results == Written(p.steps)
    requires Follows(p.steps, places, Work(Calls(rule.body), ComputedComparisons(rule), HeadExpressions(rule.head)), p.head)
    ensures Compiled(p, rule)
  {
    forall functions, s
      ensures RunProgram(functions, p, Image(s, p.inputVariables)) == EvaluateSolution(functions, rule, s)
    {
      var input := Image(s, p.inputVariables);
      assert Starts(input, places.inputs, s);
      assert FollowsOn(functions, p.steps, places, Work(Calls(rule.body), ComputedComparisons(rule), HeadExpressions(rule.head)), p.head, input, s);
    }
  }

  lemma {:induction false} PlainHead(head: seq<HeadArg>, s: Valuation)
    requires forall i :: 0 <= i < |head| ==> !HeadComputes(head[i])
    ensures HeadRow(HeadExpressions(head), s) == Kept(Image(s, HeadVariables(head)))
  {
    if head != [] {
      var front := head[..|head| - 1];
      PlainHead(front, s);
      assert HeadExpressions(head)[..|head| - 1] == HeadExpressions(front);
      assert HeadVariables(head)[..|head| - 1] == HeadVariables(front);
      assert Image(s, HeadVariables(head)) == Image(s, HeadVariables(front)) + [At(s, HeadVariables(head)[|head| - 1])];
    }
  }

  /** The variables a head without computation projects. */
  function HeadVariables(head: seq<HeadArg>): seq<Var>
    requires forall i :: 0 <= i < |head| ==> !HeadComputes(head[i])
  {
    seq(|head|, i requires 0 <= i < |head| => assert !HeadComputes(head[i]); HeadExpression(head[i]).init.place)
  }

  /** A rule without a program projects its head directly. */
  lemma NoProgram(functions: Functions, rule: Rule, s: Valuation)
    requires !NeedsProgram(rule)
    ensures EvaluateSolution(functions, rule, s) == Kept(Image(s, HeadVariables(rule.head)))
  {
    PlainHead(rule.head, s);
  }

  /** What the relational plan projects: the program's inputs, or the head itself. */
  ghost predicate Projects(program: Option<RowProgram>, rule: Rule, head: seq<Var>) {
    match program
    case None => !NeedsProgram(rule) && head == HeadVariables(rule.head)
    case Some(p) => Compiled(p, rule) && head == p.inputVariables
  }
}

/** Rules, rows and values: the syntax the planner reads, and what a body means. */
module Datalog {
  import opened Wrappers

  type Var = string

  /** A cell of a row. Arithmetic over cells wraps at 64 bits (see `Apply`). */
  type Val = int

  type Row = seq<Val>

  type Database = map<string, set<Row>>

  /** An assignment of cells to variables. A variable it does not mention is 0. */
  type Valuation = map<Var, Val>

  datatype Arg = Variable(name: Var) | Constant(value: Val) | Wildcard

  datatype Atom = Atom(relation: string, args: seq<Arg>)

  datatype ArithmeticOperator = Plus | Minus | Multiply | Divide | Modulo

  datatype ComparisonOperator = Equals | NotEquals | GreaterThan | GreaterEqualThan | LessThan | LessEqualThan

  /** One operand: a place the value is read from (a variable, a signature or a column), or a literal. */
  datatype Factor<T> = Label(place: T) | Literal(value: Val)

  /** Left-to-right arithmetic: no operator binds tighter than another. */
  datatype Arithmetic<T> = Arithmetic(init: Factor<T>, rest: seq<Term<T>>)

  datatype Term<T> = Term(operator: ArithmeticOperator, factor: Factor<T>)

  datatype Comparison<T> = Comparison(left: Arithmetic<T>, operator: ComparisonOperator, right: Arithmetic<T>)

  const MODULUS: int := 0x1_0000_0000_0000_0000
  const VAL_MAX: int := 0x7fff_ffff_ffff_ffff
  const VAL_MIN: int := -0x8000_0000_0000_0000

  /** The 64-bit two's complement value congruent to `x`. */
  function Wrap(x: int): (r: Val)
    ensures VAL_MIN <= r <= VAL_MAX
    ensures VAL_MIN <= x <= VAL_MAX ==> r == x
  {
    (x - VAL_MIN) % MODULUS + VAL_MIN
  }

  /** Division rounding toward zero. */
  function TruncatedQuotient(a: int, b: int): int
    requires b != 0
  {
    if a >= 0 then
      if b > 0 then a / b else -(a / -b)
    else
      if b > 0 then -((-a) / b) else (-a) / (-b)
  }

  /** Applies an operator to two 64-bit values; overflow wraps around, and dividing by zero has no result. */
  function Apply(operator: ArithmeticOperator, left: Val, right: Val): Option<Val> {
    match operator
    case Plus => Some(Wrap(left + right))
    case Minus => Some(Wrap(left - right))
    case Multiply => Some(Wrap(left * right))
    case Divide => if right == 0 then None else Some(Wrap(TruncatedQuotient(left, right)))
    case Modulo => if right == 0 then None else Some(Wrap(left - right * TruncatedQuotient(left, right)))
  }

  predicate CompareInts(x: Val, operator: ComparisonOperator, y: Val) {
    match operator
    case Equals => x == y
    case NotEquals => x != y
    case GreaterThan => x > y
    case GreaterEqualThan => x >= y
    case LessThan => x < y
    case LessEqualThan => x <= y
  }

  function FactorValue<T>(factor: Factor<T>, env: T -> Val): Val {
    match factor
    case Label(place) => env(place)
    case Literal(value) => value
  }

  /** Runs the remaining terms on a running result. */
  function EvaluateTerms<T>(result: Val, rest: seq<Term<T>>, env: T -> Val): Option<Val>
    decreases |rest|
  {
    if rest == [] then
      Some(result)
    else
      var next :- Apply(rest[0].operator, result, FactorValue(rest[0].factor, env));
      EvaluateTerms(next, rest[1..], env)
  }

  /** `None` when a divisor is zero. */
  function Evaluate<T>(a: Arithmetic<T>, env: T -> Val): Option<Val> {
    EvaluateTerms(FactorValue(a.init, env), a.rest, env)
  }

  /** Whether a comparison keeps a row. A zero divisor drops the row (and ends the evaluation). */
  predicate Holds<T>(c: Comparison<T>, env: T -> Val) {
    var left, right := Evaluate(c.left, env), Evaluate(c.right, env);
    left.Some? && right.Some? && CompareInts(left.value, c.operator, right.value)
  }

  function FactorLabels<T>(factor: Factor<T>): seq<T> {
    match factor
    case Label(place) => [place]
    case Literal(_) => []
  }

  function TermLabels<T>(rest: seq<Term<T>>): seq<T> {
    if rest == [] then [] else FactorLabels(rest[0].factor) + TermLabels(rest[1..])
  }

  /** Every place an expression reads, in order, repetitions included. */
  function Labels<T>(a: Arithmetic<T>): seq<T> {
    FactorLabels(a.init) + TermLabels(a.rest)
  }

  function ArithmeticVariables(a: Arithmetic<Var>): set<Var> {
    set x | x in Labels(a)
  }

  function ComparisonVariables(c: Comparison<Var>): set<Var> {
    ArithmeticVariables(c.left) + ArithmeticVariables(c.right)
  }

  function RelabelTerms<T, U>(rest: seq<Term<T>>, labels: seq<U>): (r: seq<Term<U>>)
    requires |labels| == |TermLabels(rest)|
    ensures |r| == |rest|
  {
    if rest == [] then
      []
    else
      match rest[0].factor
      case Label(_) => [Term(rest[0].operator, Label(labels[0]))] + RelabelTerms(rest[1..], labels[1..])
      case Literal(value) => [Term(rest[0].operator, Literal(value))] + RelabelTerms(rest[1..], labels)
  }

  /** The same expression reading its operands from `labels`, one per place, in order. */
  function Relabel<T, U>(a: Arithmetic<T>, labels: seq<U>): Arithmetic<U>
    requires |labels| == |Labels(a)|
  {
    match a.init
    case Label(_) => Arithmetic(Label(labels[0]), RelabelTerms(a.rest, labels[1..]))
    case Literal(value) => Arithmetic(Literal(value), RelabelTerms(a.rest, labels))
  }

  lemma {:induction false} RelabelTermsLabels<T, U>(rest: seq<Term<T>>, labels: seq<U>)
    requires |labels| == |TermLabels(rest)|
    ensures TermLabels(RelabelTerms(rest, labels)) == labels
  {
    if rest != [] {
      var tail := if rest[0].factor.Label? then labels[1..] else labels;
      RelabelTermsLabels(rest[1..], tail);
      var r := RelabelTerms(rest, labels);
      assert r[1..] == RelabelTerms(rest[1..], tail);
    }
  }

  /** Relabelling puts exactly the given labels in place, so relabelling can be repeated. */
  lemma RelabelLabels<T, U>(a: Arithmetic<T>, labels: seq<U>)
    requires |labels| == |Labels(a)|
    ensures Labels(Relabel(a, labels)) == labels
  {
    RelabelTermsLabels(a.rest, if a.init.Label? then labels[1..] else labels);
  }

  lemma {:induction false} RelabelTermsEvaluate<T, U>(result: Val, rest: seq<Term<T>>, labels: seq<U>, env: T -> Val,
                                                      newEnv: U -> Val)
    requires |labels| == |TermLabels(rest)|
    requires forall i :: 0 <= i < |labels| ==> newEnv(labels[i]) == env(TermLabels(rest)[i])
    ensures EvaluateTerms(result, RelabelTerms(rest, labels), newEnv) == EvaluateTerms(result, rest, env)
    decreases |rest|, 1
  {
    if rest != [] {
      var head, tail := FactorLabels(rest[0].factor), if rest[0].factor.Label? then labels[1..] else labels;
      var r := RelabelTerms(rest, labels);
      assert r[0].operator == rest[0].operator && r[1..] == RelabelTerms(rest[1..], tail);
      assert TermLabels(rest) == head + TermLabels(rest[1..]);
      forall i | 0 <= i < |tail|
        ensures newEnv(tail[i]) == env(TermLabels(rest[1..])[i])
      {
        assert labels[i + |head|] == tail[i];
      }
      assert FactorValue(r[0].factor, newEnv) == FactorValue(rest[0].factor, env) by {
        if rest[0].factor.Label? {
          assert newEnv(labels[0]) == env(TermLabels(rest)[0]);
        }
      }
      RelabelTermsTail(result, rest, labels, env, newEnv, r, tail);
    }
  }

  lemma RelabelTermsTail<T, U>(result: Val, rest: seq<Term<T>>, labels: seq<U>, env: T -> Val, newEnv: U -> Val,
                               r: seq<Term<U>>, tail: seq<U>)
    requires rest != [] && r != [] && r[0].operator == rest[0].operator
    requires FactorValue(r[0].factor, newEnv) == FactorValue(rest[0].factor, env)
    requires |tail| == |TermLabels(rest[1..])| && r[1..] == RelabelTerms(rest[1..], tail)
    requires forall i :: 0 <= i < |tail| ==> newEnv(tail[i]) == env(TermLabels(rest[1..])[i])
    ensures EvaluateTerms(result, r, newEnv) == EvaluateTerms(result, rest, env)
    decreases |rest|, 0
  {
    var next := Apply(rest[0].operator, result, FactorValue(rest[0].factor, env));
    if next.Some? {
      RelabelTermsEvaluate(next.value, rest[1..], tail, env, newEnv);
    }
  }

  /** An expression relabelled to places holding the same values evaluates to the same result. */
  lemma RelabelEvaluate<T, U>(a: Arithmetic<T>, labels: seq<U>, env: T -> Val, newEnv: U -> Val)
    requires |labels| == |Labels(a)|
    requires forall i :: 0 <= i < |labels| ==> newEnv(labels[i]) == env(Labels(a)[i])
    ensures Evaluate(Relabel(a, labels), newEnv) == Evaluate(a, env)
  {
    var tail := if a.init.Label? then labels[1..] else labels;
    assert forall i :: 0 <= i < |tail| ==> TermLabels(a.rest)[i] == Labels(a)[i + |labels| - |tail|];
    RelabelTermsEvaluate(FactorValue(a.init, env), a.rest, tail, env, newEnv);
  }

  /** Expressions read nothing but their labels. */
  lemma EvaluateAgrees<T>(a: Arithmetic<T>, env: T -> Val, newEnv: T -> Val)
    requires forall x :: x in Labels(a) ==> env(x) == newEnv(x)
    ensures Evaluate(a, env) == Evaluate(a, newEnv)
  {
    RelabelEvaluate(a, Labels(a), env, newEnv);
    RelabelEvaluate(a, Labels(a), newEnv, newEnv);
  }

  /* ------------------------------------------------------------------ */
  /* Atoms and valuations                                                 */
  /* ------------------------------------------------------------------ */

  function At(s: Valuation, x: Var): Val {
    if x in s then s[x] else 0
  }

  /** The valuation, as an environment expressions read. */
  function Env(s: Valuation): Var -> Val {
    x => At(s, x)
  }

  /** The row a list of variables stands for under a valuation. */
  function Image(s: Valuation, xs: seq<Var>): (r: Row)
    ensures |r| == |xs|
    ensures forall i :: 0 <= i < |xs| ==> r[i] == At(s, xs[i])
  {
    seq(|xs|, i requires 0 <= i < |xs| => At(s, xs[i]))
  }

  /** `s` on `xs`, and `t` everywhere else. */
  function Combine(s: Valuation, t: Valuation, xs: set<Var>): (r: Valuation)
    ensures forall x :: At(r, x) == At(if x in xs then s else t, x)
  {
    map x | x in xs + t.Keys :: if x in xs then At(s, x) else At(t, x)
  }

  ghost predicate AgreeOn(s: Valuation, t: Valuation, xs: set<Var>) {
    forall x :: x in xs ==> At(s, x) == At(t, x)
  }

  function Variables(atom: Atom): (xs: set<Var>)
    ensures forall i :: 0 <= i < |atom.args| && atom.args[i].Variable? ==> atom.args[i].name in xs
    ensures forall x :: x in xs ==> Variable(x) in atom.args
  {
    set i | 0 <= i < |atom.args| && atom.args[i].Variable? :: atom.args[i].name
  }

  predicate MatchesArg(arg: Arg, s: Valuation, cell: Val) {
    match arg
    case Variable(x) => cell == At(s, x)
    case Constant(value) => cell == value
    case Wildcard => true
  }

  predicate Matches(atom: Atom, s: Valuation, row: Row) {
    |row| == |atom.args| && forall i :: 0 <= i < |row| ==> MatchesArg(atom.args[i], s, row[i])
  }

  function Rows(db: Database, relation: string): set<Row> {
    if relation in db then db[relation] else {}
  }

  /** Some row of the atom's relation matches it. */
  ghost predicate AtomHolds(db: Database, atom: Atom, s: Valuation) {
    exists row :: row in Rows(db, atom.relation) && Matches(atom, s, row)
  }

  predicate ComparisonHolds(c: Comparison<Var>, s: Valuation) {
    Holds(c, Env(s))
  }

  /** An atom reads nothing but its variables. */
  lemma AtomHoldsAgrees(db: Database, atom: Atom, s: Valuation, t: Valuation)
    requires AgreeOn(s, t, Variables(atom))
    ensures AtomHolds(db, atom, s) <==> AtomHolds(db, atom, t)
  {
    assert forall row :: Matches(atom, s, row) <==> Matches(atom, t, row);
  }

  lemma ComparisonHoldsAgrees(c: Comparison<Var>, s: Valuation, t: Valuation)
    requires AgreeOn(s, t, ComparisonVariables(c))
    ensures ComparisonHolds(c, s) <==> ComparisonHolds(c, t)
  {
    EvaluateAgrees(c.left, Env(s), Env(t));
    EvaluateAgrees(c.right, Env(s), Env(t));
  }

  /** Every row of the relation has the atom's width. */
  predicate Fits(db: Database, atom: Atom) {
    forall row :: row in Rows(db, atom.relation) ==> |row| == |atom.args|
  }
}

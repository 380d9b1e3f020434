/** Running a join: the wider side on the left, only the columns each side has, and the row program in place. */
module JoinExec {
  import opened Wrappers
  import opened Datalog
  import opened Catalogs
  import opened Flows
  import opened Rules
  import opened RowPrograms

  /* ------------------------------------------------------------------ */
  /* Swapping the sides                                                   */
  /* ------------------------------------------------------------------ */

  /** The same column once the sides have been swapped. */
  function Flip(arg: FlowArg): FlowArg
    requires arg.Jn?
  {
    Jn(!arg.fromRight, arg.fromValue, arg.id)
  }

  predicate AllJn(args: seq<FlowArg>) {
    forall i :: 0 <= i < |args| ==> args[i].Jn?
  }

  function FlipAll(args: seq<FlowArg>): (r: seq<FlowArg>)
    requires AllJn(args)
    ensures |r| == |args| && forall i :: 0 <= i < |r| ==> r[i] == Flip(args[i])
  {
    seq(|args|, i requires 0 <= i < |args| => Flip(args[i]))
  }

  predicate FactorOk(factor: Factor<FlowArg>) {
    factor.Label? ==> factor.place.Jn?
  }

  predicate ArithmeticOk(a: Arithmetic<FlowArg>) {
    FactorOk(a.init) && forall i :: 0 <= i < |a.rest| ==> FactorOk(a.rest[i].factor)
  }

  predicate JnFlow(flow: Flow) {
    && flow.JnToKV? && AllJn(flow.key) && AllJn(flow.value)
    && forall i :: 0 <= i < |flow.compares| ==> ArithmeticOk(flow.compares[i].left) && ArithmeticOk(flow.compares[i].right)
  }

  function FlipFactor(factor: Factor<FlowArg>): Factor<FlowArg>
    requires FactorOk(factor)
  {
    match factor
    case Label(arg) => Label(Flip(arg))
    case Literal(value) => Factor.Literal(value)
  }

  function FlipArithmetic(a: Arithmetic<FlowArg>): Arithmetic<FlowArg>
    requires ArithmeticOk(a)
  {
    Arithmetic(FlipFactor(a.init), seq(|a.rest|, i requires 0 <= i < |a.rest| => Term(a.rest[i].operator, FlipFactor(a.rest[i].factor))))
  }

  function FlipComparison(c: Comparison<FlowArg>): Comparison<FlowArg>
    requires ArithmeticOk(c.left) && ArithmeticOk(c.right)
  {
    Comparison(FlipArithmetic(c.left), c.operator, FlipArithmetic(c.right))
  }

  function JnFlip(flow: Flow): (r: Flow)
    requires JnFlow(flow)
    ensures JnFlow(r)
  {
    JnToKV(FlipAll(flow.key), FlipAll(flow.value), seq(|flow.compares|, i requires 0 <= i < |flow.compares| => FlipComparison(flow.compares[i])))
  }

  /** Flipping twice changes nothing. */
  lemma FlipTwice(flow: Flow)
    requires JnFlow(flow)
    ensures JnFlip(JnFlip(flow)) == flow
  {
    var once, twice := JnFlip(flow), JnFlip(JnFlip(flow));
    assert twice.key == flow.key && twice.value == flow.value;
    forall i | 0 <= i < |flow.compares|
      ensures twice.compares[i] == flow.compares[i]
    {
      FlipArithmeticTwice(flow.compares[i].left);
      FlipArithmeticTwice(flow.compares[i].right);
    }
    assert twice.compares == flow.compares;
  }

  lemma FlipArithmeticTwice(a: Arithmetic<FlowArg>)
    requires ArithmeticOk(a)
    ensures ArithmeticOk(FlipArithmetic(a)) && FlipArithmetic(FlipArithmetic(a)) == a
  {
    assert FlipArithmetic(FlipArithmetic(a)).rest == a.rest;
  }

  /** With the sides swapped, a flipped expression has the value it had: the same cell, or the same zero divisor. */
  lemma FlipEvaluate(a: Arithmetic<FlowArg>, key: Row, left: Row, right: Row)
    requires ArithmeticOk(a)
    ensures Evaluate(FlipArithmetic(a), PairEnv(key, right, left)) == Evaluate(a, PairEnv(key, left, right))
  {
    FlipTermsEvaluate(FactorValue(a.init, PairEnv(key, left, right)), a.rest, FlipArithmetic(a).rest, key, left, right);
  }

  lemma {:induction false} FlipTermsEvaluate(value: Val, rest: seq<Term<FlowArg>>, flipped: seq<Term<FlowArg>>,
                                             key: Row, left: Row, right: Row)
    requires |flipped| == |rest|
    requires forall i :: 0 <= i < |rest| ==>
      FactorOk(rest[i].factor) && flipped[i] == Term(rest[i].operator, FlipFactor(rest[i].factor))
    ensures EvaluateTerms(value, flipped, PairEnv(key, right, left)) ==
      EvaluateTerms(value, rest, PairEnv(key, left, right))
    decreases |rest|
  {
    if rest != [] {
      var next := Apply(rest[0].operator, value, FactorValue(rest[0].factor, PairEnv(key, left, right)));
      if next.Some? {
        FlipTermsEvaluate(next.value, rest[1..], flipped[1..], key, left, right);
      }
    }
  }

  /** Swapping the sides and flipping the flow joins a pair as before: the same verdicts, and the same record. */
  lemma FlipJoins(flow: Flow, key: Row, left: Row, right: Row)
    requires JnFlow(flow)
    ensures AllHold(JnFlip(flow).compares, PairEnv(key, right, left)) <==>
      AllHold(flow.compares, PairEnv(key, left, right))
    ensures Laid(JnFlip(flow), PairEnv(key, right, left)) == Laid(flow, PairEnv(key, left, right))
  {
    forall i | 0 <= i < |flow.compares|
      ensures Holds(JnFlip(flow).compares[i], PairEnv(key, right, left)) <==>
        Holds(flow.compares[i], PairEnv(key, left, right))
    {
      FlipEvaluate(flow.compares[i].left, key, left, right);
      FlipEvaluate(flow.compares[i].right, key, left, right);
    }
    FlipExtract(flow.key, key, left, right);
    FlipExtract(flow.value, key, left, right);
  }

  lemma FlipExtract(args: seq<FlowArg>, key: Row, left: Row, right: Row)
    requires AllJn(args)
    ensures Extract(FlipAll(args), PairEnv(key, right, left)) == Extract(args, PairEnv(key, left, right))
  {
  }

  /* ------------------------------------------------------------------ */
  /* The columns a join has                                               */
  /* ------------------------------------------------------------------ */

  /** The number of key columns, and of value columns on each side. */
  datatype Widths = Widths(key: nat, left: nat, right: nat)

  predicate InRange(arg: FlowArg, w: Widths) {
    arg.Jn? && arg.id < if !arg.fromValue then w.key else if arg.fromRight then w.right else w.left
  }

  predicate FactorInRange(factor: Factor<FlowArg>, w: Widths) {
    factor.Label? ==> InRange(factor.place, w)
  }

  predicate ArithmeticInRange(a: Arithmetic<FlowArg>, w: Widths) {
    FactorInRange(a.init, w) && forall i :: 0 <= i < |a.rest| ==> FactorInRange(a.rest[i].factor, w)
  }

  predicate AllInRange(args: seq<FlowArg>, w: Widths) {
    forall i :: 0 <= i < |args| ==> InRange(args[i], w)
  }

  predicate CompareInRange(c: Comparison<FlowArg>, w: Widths) {
    ArithmeticInRange(c.left, w) && ArithmeticInRange(c.right, w)
  }

  /** Every column the flow reads is there. */
  predicate Fits(flow: Flow, w: Widths) {
    && flow.JnToKV? && AllInRange(flow.key + flow.value, w)
    && forall i :: 0 <= i < |flow.compares| ==> CompareInRange(flow.compares[i], w)
  }

  /** Keys are read from the left side. */
  predicate KeysLeft(flow: Flow)
    requires flow.JnToKV?
  {
    forall i :: 0 <= i < |flow.key + flow.value| ==> (flow.key + flow.value)[i].Jn? && ((flow.key + flow.value)[i].fromValue || !(flow.key + flow.value)[i].fromRight)
  }

  function WidthsOf(left: Collection, right: Collection): Widths {
    Widths(|left.keys|, |left.values|, |right.values|)
  }

  lemma MapInRange(left: Collection, right: Collection, sig: Signature)
    requires sig in JoinArgumentFlowMap(left, right)
    ensures InRange(JoinArgumentFlowMap(left, right)[sig], WidthsOf(left, right))
    ensures var arg := JoinArgumentFlowMap(left, right)[sig]; arg.fromValue || !arg.fromRight
  {
  }

  /** The planner's flows fit the collections they join. */
  lemma JoinFlowFits(left: Collection, right: Collection, output: Collection, cs: seq<Comparison<Signature>>)
    requires forall sig :: sig in output.keys + output.values ==> sig in JoinArgumentFlowMap(left, right)
    requires forall c :: c in cs ==> CanFlow(JoinArgumentFlowMap(left, right), c)
    ensures var flow := JoinFlow(left, right, output, cs); Fits(flow, WidthsOf(left, right)) && KeysLeft(flow)
  {
    var m, w, flow := JoinArgumentFlowMap(left, right), WidthsOf(left, right), JoinFlow(left, right, output, cs);
    var args, sigs := flow.key + flow.value, output.keys + output.values;
    forall i | 0 <= i < |args|
      ensures InRange(args[i], w) && (args[i].fromValue || !args[i].fromRight)
    {
      assert args[i] == m[sigs[i]] && sigs[i] in sigs;
      MapInRange(left, right, sigs[i]);
    }
    forall i | 0 <= i < |cs|
      ensures CompareInRange(flow.compares[i], w)
    {
      assert cs[i] in cs && CanFlow(m, cs[i]);
      RelabelInRange(left, right, cs[i].left);
      RelabelInRange(left, right, cs[i].right);
    }
  }

  lemma RelabelInRange(left: Collection, right: Collection, a: Arithmetic<Signature>)
    requires forall sig :: sig in Labels(a) ==> sig in JoinArgumentFlowMap(left, right)
    ensures ArithmeticInRange(Relabel(a, FlowOverSignatures(JoinArgumentFlowMap(left, right), Labels(a))), WidthsOf(left, right))
  {
    var args := FlowOverSignatures(JoinArgumentFlowMap(left, right), Labels(a));
    forall i | 0 <= i < |args|
      ensures InRange(args[i], WidthsOf(left, right))
    {
      MapInRange(left, right, Labels(a)[i]);
    }
    var b := Relabel(a, args);
    TermsInRange(a.rest, if a.init.Label? then args[1..] else args, WidthsOf(left, right));
  }

  lemma {:induction false} TermsInRange(rest: seq<Term<Signature>>, labels: seq<FlowArg>, w: Widths)
    requires |labels| == |TermLabels(rest)| && AllInRange(labels, w)
    ensures forall i :: 0 <= i < |rest| ==> FactorInRange(RelabelTerms(rest, labels)[i].factor, w)
  {
    if rest != [] {
      TermsInRange(rest[1..], if rest[0].factor.Label? then labels[1..] else labels, w);
    }
  }

  lemma FitsIsJn(flow: Flow, w: Widths)
    requires Fits(flow, w)
    ensures JnFlow(flow)
  {
    assert forall i :: 0 <= i < |flow.key| ==> (flow.key + flow.value)[i] == flow.key[i];
    assert forall i :: 0 <= i < |flow.value| ==> (flow.key + flow.value)[|flow.key| + i] == flow.value[i];
    assert forall i :: 0 <= i < |flow.compares| ==> CompareInRange(flow.compares[i], w);
  }

  /** Flipped, the flow fits the swapped sides. */
  lemma FlipFits(flow: Flow, w: Widths)
    requires Fits(flow, w) && JnFlow(flow)
    ensures Fits(JnFlip(flow), Widths(w.key, w.right, w.left))
  {
    var w', flipped := Widths(w.key, w.right, w.left), JnFlip(flow);
    forall i | 0 <= i < |flipped.key + flipped.value|
      ensures InRange((flipped.key + flipped.value)[i], w')
    {
      assert InRange((flow.key + flow.value)[i], w);
    }
    forall i | 0 <= i < |flow.compares|
      ensures CompareInRange(flipped.compares[i], w')
    {
      assert CompareInRange(flow.compares[i], w);
      FlipArithmeticFits(flow.compares[i].left, w);
      FlipArithmeticFits(flow.compares[i].right, w);
    }
  }

  lemma FlipArithmeticFits(a: Arithmetic<FlowArg>, w: Widths)
    requires ArithmeticInRange(a, w) && ArithmeticOk(a)
    ensures ArithmeticInRange(FlipArithmetic(a), Widths(w.key, w.right, w.left))
  {
    forall i | 0 <= i < |a.rest|
      ensures FactorInRange(FlipArithmetic(a).rest[i].factor, Widths(w.key, w.right, w.left))
    {
      assert FactorInRange(a.rest[i].factor, w);
    }
  }

  /* ------------------------------------------------------------------ */
  /* One pair                                                             */
  /* ------------------------------------------------------------------ */

  /** A pair about to be joined: the shared key, and the two values. */
  datatype Pair = Pair(key: Row, left: Row, right: Row)

  function WidthsOfPair(p: Pair): Widths {
    Widths(|p.key|, |p.left|, |p.right|)
  }

  function EnvOf(p: Pair): FlowArg -> Val {
    PairEnv(p.key, p.left, p.right)
  }

  /** What the join passes along: a product has no key; otherwise a side without value columns has no value. */
  function SidesOf(p: Pair): Sides {
    if p.key == [] then Sides(None, Some(p.left), Some(p.right))
    else if p.right != [] then Sides(Some(p.key), Some(p.left), Some(p.right))
    else if p.left != [] then Sides(Some(p.key), Some(p.left), None)
    else Sides(Some(p.key), None, None)
  }

  function Triple(arg: FlowArg): (bool, bool, nat)
    requires arg.Jn?
  {
    (arg.fromRight, arg.fromValue, arg.id)
  }

  /** With the wider side on the left, every column a fitting flow reads has its side, and no lookup panics. */
  lemma SidesSuffice(p: Pair, arg: FlowArg)
    requires |p.left| >= |p.right| && InRange(arg, WidthsOfPair(p))
    ensures HasColumn(SidesOf(p), Triple(arg))
    ensures SourceOf(SidesOf(p), arg.fromRight, arg.fromValue).value[arg.id] == EnvOf(p)(arg)
  {
  }

  function JnFactor(sides: Sides, factor: Factor<FlowArg>): Val
    requires factor.Label? ==> factor.place.Jn? && HasColumn(sides, Triple(factor.place))
  {
    match factor
    case Label(arg) => SourceOf(sides, arg.fromRight, arg.fromValue).value[arg.id]
    case Literal(value) => value
  }

  lemma FactorSuffices(p: Pair, factor: Factor<FlowArg>)
    requires |p.left| >= |p.right| && FactorInRange(factor, WidthsOfPair(p))
    ensures factor.Label? ==> factor.place.Jn? && HasColumn(SidesOf(p), Triple(factor.place))
    ensures JnFactor(SidesOf(p), factor) == FactorValue(factor, EnvOf(p))
  {
    if factor.Label? {
      SidesSuffice(p, factor.place);
    }
  }

  /** An expression over a pair, left to right. */
  method JnArithmetic(p: Pair, a: Arithmetic<FlowArg>) returns (value: Option<Val>)
    requires |p.left| >= |p.right| && ArithmeticInRange(a, WidthsOfPair(p))
    ensures value == Evaluate(a, EnvOf(p))
  {
    var sides := SidesOf(p);
    FactorSuffices(p, a.init);
    var running := JnFactor(sides, a.init);
    for i := 0 to |a.rest|
      invariant EvaluateTerms(running, a.rest[i..], EnvOf(p)) == Evaluate(a, EnvOf(p))
    {
      FactorSuffices(p, a.rest[i].factor);
      assert a.rest[i..][0] == a.rest[i] && a.rest[i..][1..] == a.rest[i + 1..];
      var next := Apply(a.rest[i].operator, running, JnFactor(sides, a.rest[i].factor));
      if next.None? {
        return None;
      }
      running := next.value;
    }
    assert a.rest[|a.rest|..] == [];
    return Some(running);
  }

  method JnCompare(p: Pair, c: Comparison<FlowArg>) returns (holds: bool)
    requires |p.left| >= |p.right| && CompareInRange(c, WidthsOfPair(p))
    ensures holds == Holds(c, EnvOf(p))
  {
    var left := JnArithmetic(p, c.left);
    var right := JnArithmetic(p, c.right);
    holds := left.Some? && right.Some? && CompareInts(left.value, c.operator, right.value);
  }

  method AllCompare(p: Pair, compares: seq<Comparison<FlowArg>>) returns (hold: bool)
    requires |p.left| >= |p.right| && forall i :: 0 <= i < |compares| ==> CompareInRange(compares[i], WidthsOfPair(p))
    ensures hold == AllHold(compares, EnvOf(p))
  {
    for i := 0 to |compares|
      invariant forall j :: 0 <= j < i ==> Holds(compares[j], EnvOf(p))
    {
      var holds := JnCompare(p, compares[i]);
      if !holds {
        return false;
      }
    }
    return true;
  }

  /* ------------------------------------------------------------------ */
  /* Extracting the joined row                                            */
  /* ------------------------------------------------------------------ */

  /** Key and value columns on both sides: each argument as it is. */
  function JnDeconstructor(args: seq<FlowArg>): seq<(bool, bool, nat)> {
    if args == [] then []
    else JnDeconstructor(args[..|args| - 1]) + if args[|args| - 1].Jn? then [Triple(args[|args| - 1])] else []
  }

  /** A product: value columns only. */
  function CartesianDeconstructor(args: seq<FlowArg>): seq<(bool, nat)> {
    if args == [] then []
    else
      var last := args[|args| - 1];
      CartesianDeconstructor(args[..|args| - 1]) + if last.Jn? && last.fromValue then [(last.fromRight, last.id)] else []
  }

  /** No right values: it panics on a column of theirs. */
  function V1Deconstructor(args: seq<FlowArg>): seq<(bool, nat)>
    requires forall i :: 0 <= i < |args| && args[i].Jn? ==> !(args[i].fromRight && args[i].fromValue)
  {
    if args == [] then []
    else V1Deconstructor(args[..|args| - 1]) + if args[|args| - 1].Jn? then [(args[|args| - 1].fromValue, args[|args| - 1].id)] else []
  }

  /** No values: left key columns only. */
  function V2Deconstructor(args: seq<FlowArg>): seq<nat> {
    if args == [] then []
    else
      var last := args[|args| - 1];
      V2Deconstructor(args[..|args| - 1]) + if last.Jn? && !last.fromRight && !last.fromValue then [last.id] else []
  }

  /** The arguments a deconstructor keeps are all of them, where the widths rule the others out. */
  lemma {:induction false} JnKeepsAll(args: seq<FlowArg>)
    requires AllJn(args)
    ensures |JnDeconstructor(args)| == |args|
    ensures forall i :: 0 <= i < |args| ==> JnDeconstructor(args)[i] == Triple(args[i])
  {
    if args != [] {
      JnKeepsAll(args[..|args| - 1]);
    }
  }

  lemma {:induction false} CartesianKeepsAll(args: seq<FlowArg>)
    requires forall i :: 0 <= i < |args| ==> args[i].Jn? && args[i].fromValue
    ensures |CartesianDeconstructor(args)| == |args|
    ensures forall i :: 0 <= i < |args| ==> CartesianDeconstructor(args)[i] == (args[i].fromRight, args[i].id)
  {
    if args != [] {
      CartesianKeepsAll(args[..|args| - 1]);
    }
  }

  lemma {:induction false} V1KeepsAll(args: seq<FlowArg>)
    requires forall i :: 0 <= i < |args| ==> args[i].Jn? && !(args[i].fromRight && args[i].fromValue)
    ensures |V1Deconstructor(args)| == |args|
    ensures forall i :: 0 <= i < |args| ==> V1Deconstructor(args)[i] == (args[i].fromValue, args[i].id)
  {
    if args != [] {
      V1KeepsAll(args[..|args| - 1]);
    }
  }

  lemma {:induction false} V2KeepsAll(args: seq<FlowArg>)
    requires forall i :: 0 <= i < |args| ==> args[i].Jn? && !args[i].fromRight && !args[i].fromValue
    ensures |V2Deconstructor(args)| == |args| && forall i :: 0 <= i < |args| ==> V2Deconstructor(args)[i] == args[i].id
  {
    if args != [] {
      V2KeepsAll(args[..|args| - 1]);
    }
  }

  method JnExtractor(p: Pair, args: seq<FlowArg>) returns (row: Row)
    requires AllInRange(args, WidthsOfPair(p))
    ensures row == Extract(args, EnvOf(p))
  {
    var extracts := JnDeconstructor(args);
    JnKeepsAll(args);
    row := [];
    for i := 0 to |extracts|
      invariant row == Extract(args[..i], EnvOf(p))
    {
      assert InRange(args[i], WidthsOfPair(p)) && extracts[i] == Triple(args[i]);
      ExtractNext(args, EnvOf(p), i);
      if !extracts[i].1 {
        row := row + [p.key[extracts[i].2]];
      } else if !extracts[i].0 {
        row := row + [p.left[extracts[i].2]];
      } else {
        row := row + [p.right[extracts[i].2]];
      }
    }
    assert args[..|args|] == args;
  }

  lemma ExtractNext(args: seq<FlowArg>, env: FlowArg -> Val, i: nat)
    requires i < |args|
    ensures Extract(args[..i + 1], env) == Extract(args[..i], env) + [env(args[i])]
  {
  }

  method CartesianExtractor(p: Pair, args: seq<FlowArg>) returns (row: Row)
    requires AllInRange(args, WidthsOfPair(p)) && p.key == []
    ensures row == Extract(args, EnvOf(p))
  {
    assert forall i :: 0 <= i < |args| ==> InRange(args[i], WidthsOfPair(p));
    var extracts := CartesianDeconstructor(args);
    CartesianKeepsAll(args);
    row := [];
    for i := 0 to |extracts|
      invariant row == Extract(args[..i], EnvOf(p))
    {
      ExtractNext(args, EnvOf(p), i);
      if !extracts[i].0 {
        row := row + [p.left[extracts[i].1]];
      } else {
        row := row + [p.right[extracts[i].1]];
      }
    }
    assert args[..|args|] == args;
  }

  method V1Extractor(p: Pair, args: seq<FlowArg>) returns (row: Row)
    requires AllInRange(args, WidthsOfPair(p)) && p.right == []
    ensures row == Extract(args, EnvOf(p))
  {
    assert forall i :: 0 <= i < |args| ==> InRange(args[i], WidthsOfPair(p));
    var extracts := V1Deconstructor(args);
    V1KeepsAll(args);
    row := [];
    for i := 0 to |extracts|
      invariant row == Extract(args[..i], EnvOf(p))
    {
      ExtractNext(args, EnvOf(p), i);
      if !extracts[i].0 {
        row := row + [p.key[extracts[i].1]];
      } else {
        row := row + [p.left[extracts[i].1]];
      }
    }
    assert args[..|args|] == args;
  }

  method V2Extractor(p: Pair, args: seq<FlowArg>) returns (row: Row)
    requires AllInRange(args, WidthsOfPair(p)) && p.left == p.right == []
    requires forall i :: 0 <= i < |args| ==> args[i].Jn? && !args[i].fromRight
    ensures row == Extract(args, EnvOf(p))
  {
    assert forall i :: 0 <= i < |args| ==> InRange(args[i], WidthsOfPair(p));
    var extracts := V2Deconstructor(args);
    V2KeepsAll(args);
    row := [];
    for i := 0 to |extracts|
      invariant row == Extract(args[..i], EnvOf(p))
    {
      ExtractNext(args, EnvOf(p), i);
      row := row + [p.key[extracts[i]]];
    }
    assert args[..|args|] == args;
  }

  /* ------------------------------------------------------------------ */
  /* The join                                                             */
  /* ------------------------------------------------------------------ */

  /** What a join makes of a pair: its key and value columns in one row, if the pair passes the comparisons. */
  function JoinedRow(flow: Flow, p: Pair): Option<Row>
    requires flow.JnToKV?
  {
    if AllHold(flow.compares, EnvOf(p)) then Some(Extract(flow.key + flow.value, EnvOf(p))) else None
  }

  /** The pair with its wider side on the left, and the flow to match; keys need no side unless neither has values. */
  ghost predicate Oriented(flow: Flow, p: Pair) {
    && Fits(flow, WidthsOfPair(p)) && |p.left| >= |p.right|
    && (p.left == [] ==> forall i :: 0 <= i < |flow.key + flow.value| ==> (flow.key + flow.value)[i].Jn? && !(flow.key + flow.value)[i].fromRight)
  }

  /** Swaps the sides if the right one is wider, flipping the flow. */
  method Orient(flow: Flow, p: Pair) returns (flow': Flow, p': Pair)
    requires Fits(flow, WidthsOfPair(p)) && KeysLeft(flow)
    ensures Oriented(flow', p') && JoinedRow(flow', p') == JoinedRow(flow, p)
    ensures |flow'.key + flow'.value| == |flow.key + flow.value|
  {
    flow', p' := flow, p;
    if |p.left| < |p.right| {
      FitsIsJn(flow, WidthsOfPair(p));
      FlipFits(flow, WidthsOfPair(p));
      FlipJoins(flow, p.key, p.left, p.right);
      flow', p' := JnFlip(flow), Pair(p.key, p.right, p.left);
      ExtractConcat(flow.key, flow.value, EnvOf(p));
      ExtractConcat(flow'.key, flow'.value, EnvOf(p'));
    } else if p.left == [] {
      var args := flow.key + flow.value;
      forall i | 0 <= i < |args|
        ensures args[i].Jn? && !args[i].fromRight
      {
        assert InRange(args[i], WidthsOfPair(p));
      }
    }
  }

  lemma ExtractConcat(a: seq<FlowArg>, b: seq<FlowArg>, env: FlowArg -> Val)
    ensures Extract(a + b, env) == Extract(a, env) + Extract(b, env)
  {
  }

  /** Joins one pair: sides swapped so the wider one is left, comparisons over the columns there are, and the extractor
      of the columns there are. It gives what the flow says of the sides as they came. */
  method JoinPair(flow0: Flow, p0: Pair) returns (row: Option<Row>)
    requires Fits(flow0, WidthsOfPair(p0)) && KeysLeft(flow0)
    ensures row == JoinedRow(flow0, p0)
  {
    var flow, p := Orient(flow0, p0);
    var hold := AllCompare(p, flow.compares);
    if !hold {
      return None;
    }
    var args := flow.key + flow.value;
    var extracted: Row;
    if p.key == [] {
      extracted := CartesianExtractor(p, args);
    } else if p.right != [] {
      extracted := JnExtractor(p, args);
    } else if p.left != [] {
      extracted := V1Extractor(p, args);
    } else {
      extracted := V2Extractor(p, args);
    }
    return Some(extracted);
  }

  /** The columns a fused program reads in place, named as the pair's extractor names them. */
  function ViewExtracts(p: Pair, args: seq<FlowArg>): seq<(bool, bool, nat)> {
    if p.key == [] then
      var columns := CartesianDeconstructor(args);
      seq(|columns|, i requires 0 <= i < |columns| => (columns[i].0, true, columns[i].1))
    else if p.left != [] then
      JnDeconstructor(args)
    else
      var columns := V2Deconstructor(args);
      seq(|columns|, i requires 0 <= i < |columns| => (false, false, columns[i]))
  }

  /** The view is the row the join would have made. */
  lemma ViewIsRow(flow: Flow, p: Pair)
    requires Oriented(flow, p)
    ensures var view := Joined(SidesOf(p), ViewExtracts(p, flow.key + flow.value));
      Supplied(view) && Materialized(view) == Extract(flow.key + flow.value, EnvOf(p))
  {
    var args := flow.key + flow.value;
    assert forall i :: 0 <= i < |args| ==> InRange(args[i], WidthsOfPair(p));
    if p.key == [] {
      CartesianKeepsAll(args);
    } else if p.left != [] {
      JnKeepsAll(args);
    } else {
      V2KeepsAll(args);
    }
    forall i | 0 <= i < |args|
      ensures HasColumn(SidesOf(p), Triple(args[i])) && ViewExtracts(p, args)[i] == Triple(args[i])
      ensures SourceOf(SidesOf(p), args[i].fromRight, args[i].fromValue).value[args[i].id] == EnvOf(p)(args[i])
    {
      SidesSuffice(p, args[i]);
    }
  }

  /** Joins one pair and runs the row program on it in place: exactly the join followed by the program. */
  method JoinAndRun(functions: Functions, program: RowProgram, flow0: Flow, p0: Pair) returns (r: Outcome<Row>)
    requires Fits(flow0, WidthsOfPair(p0)) && KeysLeft(flow0)
    requires ProgramOk(program) && |flow0.key + flow0.value| == |program.inputVariables|
    ensures r == match JoinedRow(flow0, p0)
      case None => Dropped
      case Some(row) => RunProgram(functions, program, row)
  {
    var flow, p := Orient(flow0, p0);
    var hold := AllCompare(p, flow.compares);
    if !hold {
      return Dropped;
    }
    ViewIsRow(flow, p);
    r := EvaluateAs(functions, program, Joined(SidesOf(p), ViewExtracts(p, flow.key + flow.value)));
  }

  /** A surviving antijoin record, projected. */
  method ProjectSurvivor(flow: Flow, key: Row, value: Row) returns (row: Row)
    requires Fits(flow, Widths(|key|, |value|, 0)) && KeysLeft(flow)
    ensures row == Laid(flow, PairEnv(key, value, [])).key + Laid(flow, PairEnv(key, value, [])).value
  {
    var p, args := Pair(key, value, []), flow.key + flow.value;
    ExtractConcat(flow.key, flow.value, EnvOf(p));
    if value != [] {
      row := V1Extractor(p, args);
    } else {
      assert forall i :: 0 <= i < |args| ==> InRange(args[i], WidthsOfPair(p));
      row := V2Extractor(p, args);
    }
  }

  /** A join's records are the rows its pairs make, cut after the key columns. */
  lemma JoinRuns(left: Transformation, right: Transformation, output: Collection, cs: seq<Comparison<Signature>>,
                 db: Database, rec: Record)
    requires forall sig :: sig in output.keys + output.values ==> sig in JoinArgumentFlowMap(left.output, right.output)
    requires forall c :: c in cs ==> CanFlow(JoinArgumentFlowMap(left.output, right.output), c)
    ensures var t := MakeJoin(left, right, output, cs);
      rec in Eval(t, db) <==> |rec.key| == |t.flow.key| && exists l, r :: l in Eval(left, db) && r in Eval(right, db) && Makes(t.flow, l, r, rec)
  {
    var t := MakeJoin(left, right, output, cs);
    if rec in Eval(t, db) {
      var l, r :| l in Eval(left, db) && r in Eval(right, db) && l.key == r.key
        && AllHold(t.flow.compares, PairEnv(l.key, l.value, r.value))
        && rec == Laid(t.flow, PairEnv(l.key, l.value, r.value));
      ExtractConcat(t.flow.key, t.flow.value, PairEnv(l.key, l.value, r.value));
      assert Makes(t.flow, l, r, rec);
    }
    if l, r :| l in Eval(left, db) && r in Eval(right, db) && Makes(t.flow, l, r, rec) && |rec.key| == |t.flow.key| {
      MadeLaid(t.flow, l, r, rec);
    }
  }

  /** The two records share their key, and their row is the record's key and value. */
  predicate Makes(flow: Flow, l: Record, r: Record, rec: Record) {
    flow.JnToKV? && l.key == r.key && JoinedRow(flow, Pair(l.key, l.value, r.value)) == Some(rec.key + rec.value)
  }

  lemma MadeLaid(flow: Flow, l: Record, r: Record, rec: Record)
    requires Makes(flow, l, r, rec) && |rec.key| == |flow.key|
    ensures AllHold(flow.compares, PairEnv(l.key, l.value, r.value))
    ensures rec == Laid(flow, PairEnv(l.key, l.value, r.value))
  {
    var env := PairEnv(l.key, l.value, r.value);
    ExtractConcat(flow.key, flow.value, env);
    assert rec.key == (rec.key + rec.value)[..|flow.key|] == Extract(flow.key, env);
    assert rec.value == (rec.key + rec.value)[|flow.key|..] == Extract(flow.value, env);
  }
}

/** The operator algebra: collections, flows, and what a transformation computes. */
module Flows {
  import opened Datalog
  import opened Catalogs

  /** A column of an operator's input: `KV` for a unary operator, `Jn` for a binary one. */
  datatype FlowArg = KV(fromValue: bool, id: nat) | Jn(fromRight: bool, fromValue: bool, id: nat)

  datatype Flow =
    | KVToKV(key: seq<FlowArg>, value: seq<FlowArg>, constants: seq<(FlowArg, Val)>,
             equalities: seq<(FlowArg, FlowArg)>, compares: seq<Comparison<FlowArg>>)
    | JnToKV(key: seq<FlowArg>, value: seq<FlowArg>, compares: seq<Comparison<FlowArg>>)

  /** The columns of a keyed collection, each named by the argument position it came from. */
  datatype Collection = Collection(keys: seq<Signature>, values: seq<Signature>)

  datatype Record = Record(key: Row, value: Row)

  datatype Transformation =
    | FromAtom(relation: string, input: Collection, output: Collection, flow: Flow)
    | Join(left: Transformation, right: Transformation, output: Collection, flow: Flow)
    | Antijoin(left: Transformation, right: Transformation, output: Collection, flow: Flow)

  /** The relation an operator's leftmost leaf reads. */
  function Leftmost(t: Transformation): string {
    match t
    case FromAtom(relation, _, _, _) => relation
    case Join(left, _, _, _) => Leftmost(left)
    case Antijoin(left, _, _, _) => Leftmost(left)
  }

  /** The operator is the base, or the base with antijoins on top. */
  predicate Over(t: Transformation, base: Transformation) {
    t == base || (t.Antijoin? && Over(t.left, base))
  }

  /** The operator joins the two sides, with antijoins on top. */
  predicate JoinsSides(t: Transformation, left: Transformation, right: Transformation) {
    match t
    case FromAtom(_, _, _, _) => false
    case Join(l, r, _, _) => l == left && r == right
    case Antijoin(below, _, _, _) => JoinsSides(below, left, right)
  }

  lemma {:induction false} OverKeeps(t: Transformation, base: Transformation, left: Transformation,
                                     right: Transformation)
    requires Over(t, base)
    ensures Leftmost(t) == Leftmost(base) && (JoinsSides(base, left, right) ==> JoinsSides(t, left, right))
  {
    if t != base {
      OverKeeps(t.left, base, left, right);
    }
  }

  type FlowMap = map<Signature, FlowArg>

  /** The last position of a signature: a map built in order keeps the last entry of a key. */
  function LastIndex(sigs: seq<Signature>, sig: Signature): (i: nat)
    requires sig in sigs
    ensures i < |sigs| && sigs[i] == sig
  {
    if sigs[|sigs| - 1] == sig then |sigs| - 1 else LastIndex(sigs[..|sigs| - 1], sig)
  }

  function KvArgumentFlowMap(input: Collection): FlowMap {
    map sig | sig in input.keys + input.values ::
      if sig in input.values then KV(true, LastIndex(input.values, sig)) else KV(false, LastIndex(input.keys, sig))
  }

  /** The right keys are not mapped: they equal the left ones. */
  function JoinArgumentFlowMap(left: Collection, right: Collection): FlowMap {
    map sig | sig in left.keys + left.values + right.values ::
      if sig in right.values then Jn(true, true, LastIndex(right.values, sig))
      else if sig in left.values then Jn(false, true, LastIndex(left.values, sig))
      else Jn(false, false, LastIndex(left.keys, sig))
  }

  /** The columns a list of signatures is read from. A signature no input has is a planner panic. */
  function FlowOverSignatures(m: FlowMap, sigs: seq<Signature>): (r: seq<FlowArg>)
    requires forall sig :: sig in sigs ==> sig in m
    ensures |r| == |sigs| && forall i :: 0 <= i < |sigs| ==> r[i] == m[sigs[i]]
  {
    seq(|sigs|, i requires 0 <= i < |sigs| => m[sigs[i]])
  }

  predicate CanFlow(m: FlowMap, c: Comparison<Signature>) {
    && (forall sig :: sig in Labels(c.left) ==> sig in m)
    && (forall sig :: sig in Labels(c.right) ==> sig in m)
  }

  function FlowComparison(m: FlowMap, c: Comparison<Signature>): Comparison<FlowArg>
    requires CanFlow(m, c)
  {
    Comparison(Relabel(c.left, FlowOverSignatures(m, Labels(c.left))), c.operator,
               Relabel(c.right, FlowOverSignatures(m, Labels(c.right))))
  }

  function FlowComparisons(m: FlowMap, cs: seq<Comparison<Signature>>): seq<Comparison<FlowArg>>
    requires forall c :: c in cs ==> CanFlow(m, c)
  {
    seq(|cs|, i requires 0 <= i < |cs| => FlowComparison(m, cs[i]))
  }

  function ConstPositions(atom: Atom): seq<nat> {
    Positions(|atom.args|, (i: nat) => i < |atom.args| && atom.args[i].Constant?)
  }

  /** The later occurrences of variables an atom repeats. */
  function RepeatPositions(atom: Atom): seq<nat> {
    Positions(|atom.args|, (i: nat) => i < |atom.args| && atom.args[i].Variable? && First(atom.args, atom.args[i].name) != i)
  }

  /** The constants of an atom, by position. */
  function ConstSignatures(positive: bool, rhs: nat, atom: Atom): (r: seq<(Signature, Val)>)
    ensures |r| == |ConstPositions(atom)|
    ensures forall k :: 0 <= k < |r| ==>
      var i := ConstPositions(atom)[k]; i < |atom.args| && atom.args[i] == Constant(r[k].1) && r[k].0 == Signature(positive, rhs, i)
  {
    var ps := ConstPositions(atom);
    assert forall k :: 0 <= k < |ps| ==> ps[k] in ps;
    seq(|ps|, k requires 0 <= k < |ps| => (Signature(positive, rhs, ps[k]), atom.args[ps[k]].value))
  }

  /** The repeated variables of an atom: (first occurrence, repeat). */
  function VarEqSignatures(positive: bool, rhs: nat, atom: Atom): (r: seq<(Signature, Signature)>)
    ensures |r| == |RepeatPositions(atom)|
    ensures forall k :: 0 <= k < |r| ==>
      var i := RepeatPositions(atom)[k];
      i < |atom.args| && atom.args[i].Variable? && r[k].1 == Signature(positive, rhs, i)
      && r[k].0 == Signature(positive, rhs, First(atom.args, atom.args[i].name))
  {
    var ps := RepeatPositions(atom);
    assert forall k :: 0 <= k < |ps| ==> ps[k] in ps;
    seq(|ps|, k requires 0 <= k < |ps| =>
      (Signature(positive, rhs, First(atom.args, atom.args[ps[k]].name)), Signature(positive, rhs, ps[k])))
  }

  /* ------------------------------------------------------------------ */
  /* Constructors                                                         */
  /* ------------------------------------------------------------------ */

  function AtomCollection(cat: Catalog, positive: bool, rhs: nat): Collection
    requires rhs < |Atoms(cat, positive)|
  {
    Collection([], ArgumentSignatures(cat, positive, rhs))
  }

  /** In a base row, argument `i` is value column `i`. */
  function AtomFlowMap(cat: Catalog, positive: bool, rhs: nat): (m: FlowMap)
    requires rhs < |Atoms(cat, positive)|
    ensures forall i: nat :: i < |Atoms(cat, positive)[rhs].args| ==>
      Signature(positive, rhs, i) in m && m[Signature(positive, rhs, i)] == KV(true, i)
    ensures forall sig :: sig in m <==> sig in ArgumentSignatures(cat, positive, rhs)
  {
    var sigs := ArgumentSignatures(cat, positive, rhs);
    assert forall i: nat :: i < |sigs| ==> sigs[i] == Signature(positive, rhs, i);
    KvArgumentFlowMap(AtomCollection(cat, positive, rhs))
  }

  /** The signatures are variable positions of one atom. */
  predicate OfAtom(cat: Catalog, positive: bool, rhs: nat, sigs: seq<Signature>) {
    forall sig :: sig in sigs ==> ValidSignature(cat, sig) && sig.positive == positive && sig.rhs == rhs
  }

  predicate ReadsAtom(cat: Catalog, positive: bool, rhs: nat, d: Comparison<Signature>) {
    OfAtom(cat, positive, rhs, Labels(d.left)) && OfAtom(cat, positive, rhs, Labels(d.right))
  }

  /** A leaf that can be built: its outputs and comparisons read the atom's variables. */
  ghost predicate LeafOk(cat: Catalog, positive: bool, rhs: nat, output: Collection, ds: seq<Comparison<Signature>>) {
    && rhs < |Atoms(cat, positive)|
    && OfAtom(cat, positive, rhs, output.keys + output.values)
    && forall d :: d in ds ==> ReadsAtom(cat, positive, rhs, d)
  }

  lemma OfAtomArguments(cat: Catalog, positive: bool, rhs: nat, sigs: seq<Signature>)
    requires rhs < |Atoms(cat, positive)| && OfAtom(cat, positive, rhs, sigs)
    ensures forall sig :: sig in sigs ==> sig in ArgumentSignatures(cat, positive, rhs) && sig in AtomFlowMap(cat, positive, rhs)
  {
    forall sig | sig in sigs
      ensures sig in ArgumentSignatures(cat, positive, rhs) && sig in AtomFlowMap(cat, positive, rhs)
    {
      assert ArgumentSignatures(cat, positive, rhs)[sig.arg] == sig;
    }
  }

  lemma LeafCanFlow(cat: Catalog, positive: bool, rhs: nat, output: Collection, ds: seq<Comparison<Signature>>)
    requires LeafOk(cat, positive, rhs, output, ds)
    ensures forall sig :: sig in output.keys + output.values ==> sig in ArgumentSignatures(cat, positive, rhs)
    ensures forall d :: d in ds ==> CanFlow(AtomFlowMap(cat, positive, rhs), d)
  {
    OfAtomArguments(cat, positive, rhs, output.keys + output.values);
    forall d | d in ds
      ensures CanFlow(AtomFlowMap(cat, positive, rhs), d)
    {
      OfAtomArguments(cat, positive, rhs, Labels(d.left));
      OfAtomArguments(cat, positive, rhs, Labels(d.right));
    }
  }

  /** A base atom filtered by its constants, repeats and comparisons, and laid out as `output`. */
  function KvToKv(cat: Catalog, positive: bool, rhs: nat, output: Collection,
                  cs: seq<Comparison<Signature>>): Transformation
    requires LeafOk(cat, positive, rhs, output, cs)
  {
    LeafCanFlow(cat, positive, rhs, output, cs);
    var input := AtomCollection(cat, positive, rhs);
    var m := AtomFlowMap(cat, positive, rhs);
    var constants := ConstSignatures(positive, rhs, Atoms(cat, positive)[rhs]);
    var equalities := VarEqSignatures(positive, rhs, Atoms(cat, positive)[rhs]);
    FromAtom(Atoms(cat, positive)[rhs].relation, input, output,
             KVToKV(FlowOverSignatures(m, output.keys), FlowOverSignatures(m, output.values),
                    seq(|constants|, i requires 0 <= i < |constants| => (m[constants[i].0], constants[i].1)),
                    seq(|equalities|, i requires 0 <= i < |equalities| => (m[equalities[i].0], m[equalities[i].1])),
                    FlowComparisons(m, cs)))
  }

  function JoinFlow(left: Collection, right: Collection, output: Collection, cs: seq<Comparison<Signature>>): Flow
    requires forall sig :: sig in output.keys + output.values ==> sig in JoinArgumentFlowMap(left, right)
    requires forall c :: c in cs ==> CanFlow(JoinArgumentFlowMap(left, right), c)
  {
    var m := JoinArgumentFlowMap(left, right);
    JnToKV(FlowOverSignatures(m, output.keys), FlowOverSignatures(m, output.values), FlowComparisons(m, cs))
  }

  function MakeJoin(left: Transformation, right: Transformation, output: Collection,
                    cs: seq<Comparison<Signature>>): Transformation
    requires forall sig :: sig in output.keys + output.values ==> sig in JoinArgumentFlowMap(left.output, right.output)
    requires forall c :: c in cs ==> CanFlow(JoinArgumentFlowMap(left.output, right.output), c)
  {
    Join(left, right, output, JoinFlow(left.output, right.output, output, cs))
  }

  function MakeAntijoin(left: Transformation, right: Transformation, output: Collection): Transformation
    requires forall sig :: sig in output.keys + output.values ==> sig in JoinArgumentFlowMap(left.output, right.output)
    requires right.output.values == []
  {
    Antijoin(left, right, output, JoinFlow(left.output, right.output, output, []))
  }

  /* ------------------------------------------------------------------ */
  /* Evaluation                                                           */
  /* ------------------------------------------------------------------ */

  function Cell(row: Row, id: nat): Val {
    if id < |row| then row[id] else 0
  }

  /** A column of one record. */
  function KvColumn(key: Row, value: Row, arg: FlowArg): Val {
    match arg
    case KV(fromValue, id) => Cell(if fromValue then value else key, id)
    case Jn(_, _, _) => 0
  }

  /** A column of a joined pair: the shared key, or one side's value. */
  function JnColumn(key: Row, left: Row, right: Row, arg: FlowArg): Val {
    match arg
    case KV(_, _) => 0
    case Jn(fromRight, fromValue, id) => Cell(if !fromValue then key else if fromRight then right else left, id)
  }

  function Extract(args: seq<FlowArg>, env: FlowArg -> Val): (r: Row)
    ensures |r| == |args| && forall i :: 0 <= i < |args| ==> r[i] == env(args[i])
  {
    seq(|args|, i requires 0 <= i < |args| => env(args[i]))
  }

  function Laid(flow: Flow, env: FlowArg -> Val): Record {
    Record(Extract(flow.key, env), Extract(flow.value, env))
  }

  predicate AllHold(compares: seq<Comparison<FlowArg>>, env: FlowArg -> Val) {
    forall i :: 0 <= i < |compares| ==> Holds(compares[i], env)
  }

  predicate ConstantsHold(constants: seq<(FlowArg, Val)>, env: FlowArg -> Val) {
    forall i :: 0 <= i < |constants| ==> env(constants[i].0) == constants[i].1
  }

  predicate EqualitiesHold(equalities: seq<(FlowArg, FlowArg)>, env: FlowArg -> Val) {
    forall i :: 0 <= i < |equalities| ==> env(equalities[i].0) == env(equalities[i].1)
  }

  /** Whether a base row passes the constants, repeats and comparisons of a flow. */
  predicate Passes(flow: Flow, env: FlowArg -> Val)
    requires flow.KVToKV?
  {
    && ConstantsHold(flow.constants, env)
    && EqualitiesHold(flow.equalities, env)
    && AllHold(flow.compares, env)
  }

  function RowEnv(row: Row): FlowArg -> Val {
    arg => KvColumn([], row, arg)
  }

  function PairEnv(key: Row, left: Row, right: Row): FlowArg -> Val {
    arg => JnColumn(key, left, right, arg)
  }

  /** The records a transformation produces. An antijoin subtracts whole records and projects the survivors. */
  function Eval(t: Transformation, db: Database): set<Record> {
    match t
    case FromAtom(relation, _, _, flow) =>
      if !flow.KVToKV? then {} else
      set row | row in Rows(db, relation) && Passes(flow, RowEnv(row)) :: Laid(flow, RowEnv(row))
    case Join(left, right, _, flow) =>
      set l, r | l in Eval(left, db) && r in Eval(right, db) && l.key == r.key
                 && AllHold(flow.compares, PairEnv(l.key, l.value, r.value))
        :: Laid(flow, PairEnv(l.key, l.value, r.value))
    case Antijoin(left, right, _, flow) =>
      var matched := set l, r | l in Eval(left, db) && r in Eval(right, db) && l.key == r.key :: l;
      set l | l in Eval(left, db) - matched :: Laid(flow, PairEnv(l.key, l.value, []))
  }
}

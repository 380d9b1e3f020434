/** The per-rule catalog: where every variable of a rule can be read from. */
module Catalogs {
  import opened Wrappers
  import opened Datalog

  /** One argument position of one body atom. */
  datatype Signature = Signature(positive: bool, rhs: nat, arg: nat)

  /** The relational part of a rule body. */
  datatype Catalog = Catalog(positives: seq<Atom>, negatives: seq<Atom>, comparisons: seq<Comparison<Var>>)

  /** The positions below `n` satisfying `p`, in order. */
  function Positions(n: nat, p: nat -> bool): (r: seq<nat>)
    ensures forall i: nat :: i in r <==> i < n && p(i)
    ensures forall i, j :: 0 <= i < j < |r| ==> r[i] < r[j]
  {
    if n == 0 then
      []
    else
      var front := Positions(n - 1, p);
      assert forall i :: 0 <= i < |front| ==> front[i] in front;
      if p(n - 1) then front + [n - 1] else front
  }

  /** The first position of a variable in an argument list. */
  function First(args: seq<Arg>, x: Var): (i: nat)
    requires Variable(x) in args
    ensures i < |args| && args[i] == Variable(x)
    ensures forall j :: 0 <= j < i ==> args[j] != Variable(x)
  {
    if args[0] == Variable(x) then 0 else 1 + First(args[1..], x)
  }

  /** Positions that only filter a row: a constant, a wildcard, or a repeated variable. */
  predicate IsFilter(atom: Atom, i: nat)
    requires i < |atom.args|
  {
    !atom.args[i].Variable? || First(atom.args, atom.args[i].name) != i
  }

  /** The first occurrence of each variable of an atom, in order. */
  function VarPositions(atom: Atom): (r: seq<nat>)
    ensures forall i: nat :: i in r <==> i < |atom.args| && !IsFilter(atom, i)
    ensures forall i, j :: 0 <= i < j < |r| ==> r[i] < r[j]
    ensures forall k :: 0 <= k < |r| ==> r[k] < |atom.args| && atom.args[r[k]].Variable? && First(atom.args, atom.args[r[k]].name) == r[k]
  {
    var r := Positions(|atom.args|, (i: nat) => i < |atom.args| && !IsFilter(atom, i));
    assert forall k :: 0 <= k < |r| ==> r[k] in r;
    r
  }

  /** The variables of an atom, each once, by first occurrence. */
  function OrderedVariables(atom: Atom): (r: seq<Var>)
    ensures forall x :: x in r <==> x in Variables(atom)
    ensures forall i, j :: 0 <= i < j < |r| ==> r[i] != r[j]
  {
    var ps := VarPositions(atom);
    var r := seq(|ps|, k requires 0 <= k < |ps| => atom.args[ps[k]].name);
    assert forall x :: x in r ==> x in Variables(atom);
    assert forall x :: x in Variables(atom) ==> x in r by {
      forall x | x in Variables(atom)
        ensures x in r
      {
        var p := First(atom.args, x);
        assert p in ps;
        var k :| 0 <= k < |ps| && ps[k] == p;
        assert r[k] == x;
      }
    }
    assert forall i, j :: 0 <= i < j < |r| ==> ps[i] < ps[j];
    r
  }

  function Atoms(cat: Catalog, positive: bool): seq<Atom> {
    if positive then cat.positives else cat.negatives
  }

  predicate ValidSignature(cat: Catalog, sig: Signature) {
    && sig.rhs < |Atoms(cat, sig.positive)|
    && sig.arg < |Atoms(cat, sig.positive)[sig.rhs].args|
    && Atoms(cat, sig.positive)[sig.rhs].args[sig.arg].Variable?
  }

  /** The variable a signature stands for. */
  function NameOf(cat: Catalog, sig: Signature): Var {
    if ValidSignature(cat, sig) then Atoms(cat, sig.positive)[sig.rhs].args[sig.arg].name else ""
  }

  function Names(cat: Catalog, sigs: seq<Signature>): (r: seq<Var>)
    ensures |r| == |sigs| && forall i :: 0 <= i < |r| ==> r[i] == NameOf(cat, sigs[i])
  {
    seq(|sigs|, i requires 0 <= i < |sigs| => NameOf(cat, sigs[i]))
  }

  /** Every argument position of an atom. */
  function ArgumentSignatures(cat: Catalog, positive: bool, rhs: nat): seq<Signature>
    requires rhs < |Atoms(cat, positive)|
  {
    seq(|Atoms(cat, positive)[rhs].args|, (i: nat) => Signature(positive, rhs, i))
  }

  /** The positions of an atom that bind a variable, without constants, wildcards and repeats. */
  function VarSignatures(cat: Catalog, positive: bool, rhs: nat): (r: seq<Signature>)
    requires rhs < |Atoms(cat, positive)|
    ensures Names(cat, r) == OrderedVariables(Atoms(cat, positive)[rhs])
    ensures forall sig :: sig in r ==> ValidSignature(cat, sig) && sig.positive == positive && sig.rhs == rhs
  {
    var atom := Atoms(cat, positive)[rhs];
    var ps := VarPositions(atom);
    var r := seq(|ps|, k requires 0 <= k < |ps| => Signature(positive, rhs, ps[k]));
    assert forall k :: 0 <= k < |ps| ==> NameOf(cat, r[k]) == atom.args[ps[k]].name;
    assert Names(cat, r) == OrderedVariables(atom);
    r
  }

  predicate ValidScope(cat: Catalog, scope: seq<nat>) {
    forall i :: 0 <= i < |scope| ==> scope[i] < |cat.positives|
  }

  /** The variables of a list of positive atoms. */
  function VarsOf(cat: Catalog, scope: seq<nat>): (xs: set<Var>)
    requires ValidScope(cat, scope)
    ensures forall i, x :: 0 <= i < |scope| && x in Variables(cat.positives[scope[i]]) ==> x in xs
    ensures forall x :: x in xs ==> exists i :: 0 <= i < |scope| && x in Variables(cat.positives[scope[i]])
  {
    set i, x | 0 <= i < |scope| && x in Variables(cat.positives[scope[i]]) :: x
  }

  lemma VarsOfConcat(cat: Catalog, a: seq<nat>, b: seq<nat>)
    requires ValidScope(cat, a) && ValidScope(cat, b)
    ensures ValidScope(cat, a + b) && VarsOf(cat, a + b) == VarsOf(cat, a) + VarsOf(cat, b)
  {
    forall x | x in VarsOf(cat, a + b)
      ensures x in VarsOf(cat, a) + VarsOf(cat, b)
    {
      var i :| 0 <= i < |a + b| && x in Variables(cat.positives[(a + b)[i]]);
      assert (a + b)[i] == if i < |a| then a[i] else b[i - |a|];
    }
    forall x | x in VarsOf(cat, a)
      ensures x in VarsOf(cat, a + b)
    {
      var i :| 0 <= i < |a| && x in Variables(cat.positives[a[i]]);
      assert (a + b)[i] == a[i];
    }
    forall x | x in VarsOf(cat, b)
      ensures x in VarsOf(cat, a + b)
    {
      var i :| 0 <= i < |b| && x in Variables(cat.positives[b[i]]);
      assert (a + b)[|a| + i] == b[i];
    }
  }

  lemma VarsOfHead(cat: Catalog, scope: seq<nat>)
    requires ValidScope(cat, scope) && scope != []
    ensures ValidScope(cat, scope[1..])
    ensures VarsOf(cat, scope) == Variables(cat.positives[scope[0]]) + VarsOf(cat, scope[1..])
  {
    assert scope == scope[..1] + scope[1..];
    VarsOfConcat(cat, scope[..1], scope[1..]);
    assert VarsOf(cat, scope[..1]) == Variables(cat.positives[scope[0]]);
  }

  /** The first occurrence of a variable in the first atom of the list that mentions it. */
  function Trace(cat: Catalog, x: Var, scope: seq<nat>): (sig: Signature)
    requires ValidScope(cat, scope) && x in VarsOf(cat, scope)
    ensures ValidSignature(cat, sig) && NameOf(cat, sig) == x
    ensures sig.positive && sig.rhs in scope
    ensures sig.arg == First(cat.positives[sig.rhs].args, x)
  {
    VarsOfHead(cat, scope);
    if x in Variables(cat.positives[scope[0]]) then
      Signature(true, scope[0], First(cat.positives[scope[0]].args, x))
    else
      Trace(cat, x, scope[1..])
  }

  /** `Trace` for a list of variables. */
  function TopDownTrace(cat: Catalog, xs: seq<Var>, scope: seq<nat>): (r: seq<Signature>)
    requires ValidScope(cat, scope) && forall x :: x in xs ==> x in VarsOf(cat, scope)
    ensures |r| == |xs| && forall i :: 0 <= i < |xs| ==> r[i] == Trace(cat, xs[i], scope)
    ensures Names(cat, r) == xs
  {
    seq(|xs|, i requires 0 <= i < |xs| => Trace(cat, xs[i], scope))
  }

  /** A variable the front of a list already mentions is traced into the front. */
  lemma {:induction false} TraceFront(cat: Catalog, x: Var, a: seq<nat>, b: seq<nat>)
    requires ValidScope(cat, a) && ValidScope(cat, b) && x in VarsOf(cat, a)
    ensures ValidScope(cat, a + b) && x in VarsOf(cat, a + b)
    ensures Trace(cat, x, a + b) == Trace(cat, x, a)
  {
    assert ValidScope(cat, a + b) && x in VarsOf(cat, a + b) by {
      VarsOfConcat(cat, a, b);
    }
    assert (a + b)[0] == a[0] && (a + b)[1..] == a[1..] + b;
    if x !in Variables(cat.positives[a[0]]) {
      assert ValidScope(cat, a[1..]) && x in VarsOf(cat, a[1..]) by {
        VarsOfHead(cat, a);
      }
      TraceFront(cat, x, a[1..], b);
    }
  }

  /** A variable the front does not mention is traced into the back. */
  lemma {:induction false} TraceBack(cat: Catalog, x: Var, a: seq<nat>, b: seq<nat>)
    requires ValidScope(cat, a) && ValidScope(cat, b) && x !in VarsOf(cat, a) && x in VarsOf(cat, b)
    ensures ValidScope(cat, a + b) && x in VarsOf(cat, a + b)
    ensures Trace(cat, x, a + b) == Trace(cat, x, b)
  {
    VarsOfConcat(cat, a, b);
    if a == [] {
      assert a + b == b;
    } else {
      assert (a + b)[0] == a[0];
      assert (a + b)[1..] == a[1..] + b;
      VarsOfHead(cat, a);
      TraceBack(cat, x, a[1..], b);
    }
  }

  /** The place of a variable in a negated atom, reading its arguments left to right. `None` is the
      planner's refusal: an argument that is no variable stands before the place. */
  function TraceNegatedFrom(args: seq<Arg>, x: Var, rhs: nat, from: nat): (r: Option<Signature>)
    requires from <= |args| && Variable(x) in args[from..]
    ensures r.Some? ==> !r.value.positive && r.value.rhs == rhs && from <= r.value.arg < |args| && args[r.value.arg] == Variable(x)
    ensures r.Some? <==> forall j :: from <= j < from + First(args[from..], x) ==> args[j].Variable?
    decreases |args| - from
  {
    var rest := args[from..];
    assert rest[0] == args[from] && args[from + 1..] == rest[1..];
    if !args[from].Variable? then
      None
    else if args[from].name == x then
      Some(Signature(false, rhs, from))
    else
      assert First(rest, x) == 1 + First(rest[1..], x);
      TraceNegatedFrom(args, x, rhs, from + 1)
  }
}

/** Which positive atoms of a rule are joined, and which are subsumed by another. */
module CoreAtoms {
  import opened Datalog

  function VariableSets(atoms: seq<Atom>): (r: seq<set<Var>>)
    ensures |r| == |atoms| && forall i :: 0 <= i < |r| ==> r[i] == Variables(atoms[i])
  {
    seq(|atoms|, i requires 0 <= i < |atoms| => Variables(atoms[i]))
  }

  /** No other atom has all of its variables - unless it has exactly the same ones and comes later. */
  predicate IsCore(variables: seq<set<Var>>, i: nat)
    requires i < |variables|
  {
    forall j :: 0 <= j < |variables| && j != i && variables[i] <= variables[j] ==> variables[i] == variables[j] && i < j
  }

  lemma SubsetSizes<T>(a: set<T>, b: set<T>)
    requires a <= b
    ensures |a| <= |b| && (|a| < |b| <==> a != b)
  {
    assert |b| == |a| + |b - a| by {
      assert b == a + (b - a);
    }
    if |b - a| == 0 {
      assert b - a == {};
    }
  }

  /** The atom a pair demotes: the one with fewer variables, or the later of two with the same. */
  predicate Demotes(variables: seq<set<Var>>, i: nat, j: nat, k: nat)
    requires i < |variables| && j < |variables|
  {
    && i != j && variables[i] <= variables[j]
    && k == if variables[i] != variables[j] then i else if i > j then i else j
  }

  lemma CoreIsNeverDemoted(variables: seq<set<Var>>, k: nat)
    requires k < |variables|
    ensures IsCore(variables, k) <==> forall i: nat, j: nat :: i < |variables| && j < |variables| ==>
      !Demotes(variables, i, j, k)
  {
    if !IsCore(variables, k) {
      var j :| 0 <= j < |variables| && j != k && variables[k] <= variables[j] && !(variables[k] == variables[j] && k < j);
      assert Demotes(variables, k, j, k);
    }
  }

  /** The bitmap of core atoms, cleared pair by pair. */
  method PopulateIsCoreAtomBitmap(variables: seq<set<Var>>) returns (bitmap: seq<bool>)
    ensures |bitmap| == |variables|
    ensures forall k :: 0 <= k < |variables| ==> (bitmap[k] <==> IsCore(variables, k))
  {
    var n := |variables|;
    var core := new bool[n](_ => true);
    for i := 0 to n
      invariant forall k :: 0 <= k < n ==> (core[k] <==> forall a: nat, b: nat :: a < i && b < n ==> !Demotes(variables, a, b, k))
    {
      for j := 0 to n
        invariant forall k :: 0 <= k < n ==>
          (core[k] <==> (forall a: nat, b: nat :: a < i && b < n ==> !Demotes(variables, a, b, k)) && (forall b: nat :: b < j ==> !Demotes(variables, i, b, k)))
      {
        ghost var before := core[..];
        if i != j && variables[i] <= variables[j] {
          SubsetSizes(variables[i], variables[j]);
          if |variables[i]| < |variables[j]| {
            core[i] := false;
          } else {
            core[if i > j then i else j] := false;
          }
        }
        assert forall k :: 0 <= k < n ==> (core[k] <==> before[k] && !Demotes(variables, i, j, k));
      }
    }
    forall k | 0 <= k < n
      ensures core[k] <==> IsCore(variables, k)
    {
      CoreIsNeverDemoted(variables, k);
    }
    bitmap := core[..];
  }

  function LargestSize(variables: seq<set<Var>>): (m: nat)
    ensures forall i :: 0 <= i < |variables| ==> |variables[i]| <= m
  {
    if variables == [] then
      0
    else
      var front := LargestSize(variables[..|variables| - 1]);
      var last := |variables[|variables| - 1]|;
      if front < last then last else front
  }

  /** Every atom is subsumed by some core atom, so the core atoms bind every variable. */
  lemma {:induction false} SubsumedByCore(variables: seq<set<Var>>, i: nat) returns (c: nat)
    requires i < |variables|
    ensures c < |variables| && IsCore(variables, c) && variables[i] <= variables[c]
    decreases LargestSize(variables) - |variables[i]|, i
  {
    if IsCore(variables, i) {
      c := i;
    } else {
      var j :| 0 <= j < |variables| && j != i && variables[i] <= variables[j] && !(variables[i] == variables[j] && i < j);
      SubsetSizes(variables[i], variables[j]);
      c := SubsumedByCore(variables, j);
    }
  }

  /** No core atom has all variables of another core atom, so none of them could take another's place. */
  lemma CoreAntichain(variables: seq<set<Var>>, i: nat, j: nat)
    requires i < |variables| && j < |variables| && i != j && IsCore(variables, i) && IsCore(variables, j)
    ensures !(variables[i] <= variables[j]) && !(variables[j] <= variables[i])
  {
  }

  /** The core atoms are the only ones of which that holds and in which every atom lies, keeping the first of equals:
      any such choice of atoms is theirs. */
  lemma CoreIsOnly(variables: seq<set<Var>>, chosen: set<nat>, i: nat)
    requires forall k :: k in chosen ==> k < |variables|
    requires forall k: nat :: k < |variables| ==> exists c :: c in chosen && variables[k] <= variables[c]
    requires forall k, c :: k in chosen && c in chosen && k != c ==> !(variables[k] <= variables[c])
    requires forall k, c: nat :: k in chosen && c < k ==> variables[c] != variables[k]
    requires i < |variables|
    ensures i in chosen <==> IsCore(variables, i)
  {
    assert variables[i] <= variables[i];
    if i in chosen {
      forall j: nat | j < |variables| && j != i && variables[i] <= variables[j]
        ensures variables[i] == variables[j] && i < j
      {
        var c :| c in chosen && variables[j] <= variables[c];
        assert variables[i] <= variables[c] && c == i;
      }
    }
    if IsCore(variables, i) {
      var c :| c in chosen && variables[i] <= variables[c];
      assert c == i;
    }
  }

  /** The active atoms the variables bind, and the bitmap with them cleared. */
  ghost predicate Taken(atoms: seq<Atom>, xs: set<Var>, active: seq<bool>, active': seq<bool>, taken: seq<nat>)
    requires |active| == |active'| == |atoms|
  {
    && (forall i: nat :: i in taken <==> i < |atoms| && active[i] && Variables(atoms[i]) <= xs)
    && (forall i :: 0 <= i < |atoms| ==> active'[i] == (active[i] && !(Variables(atoms[i]) <= xs)))
  }

  /** Takes the active atoms a set of variables binds, marking them consumed. */
  method TakeContained(atoms: seq<Atom>, xs: set<Var>, active: array<bool>) returns (taken: seq<nat>)
    requires active.Length == |atoms|
    modifies active
    ensures Taken(atoms, xs, old(active[..]), active[..], taken)
  {
    taken := [];
    for i := 0 to |atoms|
      invariant forall j: nat :: j in taken <==> j < i && old(active[j]) && Variables(atoms[j]) <= xs
      invariant forall j :: 0 <= j < i ==> active[j] == (old(active[j]) && !(Variables(atoms[j]) <= xs))
      invariant forall j :: i <= j < |atoms| ==> active[j] == old(active[j])
    {
      if Variables(atoms[i]) <= xs && active[i] {
        active[i] := false;
        taken := taken + [i];
      }
    }
  }
}

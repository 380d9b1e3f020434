/** Which rules the planner refuses, by their own literals, and what becomes of a refusal when the rule is rewritten. */
module Refusals {
  import opened Wrappers
  import opened Datalog
  import opened AtomPlans
  import opened Rules
  import opened Bodies
  import opened RulePlans
  import Pushdown
  import Sideways

  /** A comparison over variables of the negated atom reads one that stands behind a constant or a wildcard. */
  ghost predicate Offends(atom: Atom, c: Comparison<Var>) {
    ComparisonVariables(c) <= Variables(atom) && exists x :: x in ComparisonVariables(c) && !TraceableNegated(atom, x)
  }

  /** The negated atom has no variable, or some comparison of the body offends it. */
  ghost predicate AtomRefused(body: seq<Literal>, atom: Atom) {
    Variables(atom) == {} || exists c :: Compare(c) in body && Offends(atom, c)
  }

  ghost predicate BodyRefused(body: seq<Literal>) {
    exists atom :: Negative(atom) in body && AtomRefused(body, atom)
  }

  /** A rule is refused if and only if its body has such an atom: no comparison over computed values is to blame. */
  lemma RefusedIs(rule: Rule)
    requires WellShaped(rule)
    ensures Refused(RelationalPart(rule)) <==> BodyRefused(rule.body)
  {
    var cat := RelationalPart(rule);
    if Refused(cat) {
      var n: nat :| n < |cat.negatives| && Refuses(cat, n, AllComparisons(cat));
      NegatedMember(rule, n);
      if Variables(cat.negatives[n]) != {} {
        var c := Blamed(rule, n);
      }
      assert AtomRefused(rule.body, cat.negatives[n]);
    }
    if BodyRefused(rule.body) {
      var atom :| Negative(atom) in rule.body && AtomRefused(rule.body, atom);
      var n := NegatedPosition(rule, atom);
      if Variables(atom) == {} {
        assert Refuses(cat, n, AllComparisons(cat));
      } else {
        var c :| Compare(c) in rule.body && Offends(atom, c);
        OffendedRefuses(rule, n, c);
      }
    }
  }

  lemma NegatedMember(rule: Rule, n: nat)
    requires n < |RelationalPart(rule).negatives|
    ensures Negative(RelationalPart(rule).negatives[n]) in rule.body
  {
  }

  lemma NegatedPosition(rule: Rule, atom: Atom) returns (n: nat)
    requires Negative(atom) in rule.body
    ensures n < |RelationalPart(rule).negatives| && RelationalPart(rule).negatives[n] == atom
  {
    assert atom in Negatives(rule.body);
    n :| n < |Negatives(rule.body)| && Negatives(rule.body)[n] == atom;
  }

  /** The comparison a refused atom is refused for. */
  lemma Blamed(rule: Rule, n: nat) returns (c: Comparison<Var>)
    requires n < |RelationalPart(rule).negatives| && Variables(RelationalPart(rule).negatives[n]) != {}
    requires Refuses(RelationalPart(rule), n, AllComparisons(RelationalPart(rule)))
    ensures Compare(c) in rule.body && Offends(RelationalPart(rule).negatives[n], c)
  {
    var cat := RelationalPart(rule);
    var ids := Contained(cat, AllComparisons(cat), Variables(cat.negatives[n]));
    var k :| 0 <= k < |ids| && !TraceableComparison(cat, cat.comparisons[ids[k]], n);
    assert ids[k] in ids;
    c := cat.comparisons[ids[k]];
    RelationalMember(rule, ids[k]);
  }

  lemma OffendedRefuses(rule: Rule, n: nat, c: Comparison<Var>)
    requires WellShaped(rule) && n < |RelationalPart(rule).negatives| && Compare(c) in rule.body
    requires Offends(RelationalPart(rule).negatives[n], c)
    ensures Refused(RelationalPart(rule))
  {
    var cat := RelationalPart(rule);
    RelationalUnbound(rule);
    ComparisonsMembers(rule.body, Outputs(Calls(rule.body)), false);
    assert c in cat.comparisons;
    var i: nat :| i < |cat.comparisons| && cat.comparisons[i] == c;
    var x :| x in ComparisonVariables(c) && !TraceableNegated(cat.negatives[n], x);
    RefusedBehind(cat, n, i, x);
  }

  /* ------------------------------------------------------------------ */
  /* Passing a rule sideways                                              */
  /* ------------------------------------------------------------------ */

  /** Some rule of a rewrite is refused. */
  ghost predicate RewriteRefused(slices: seq<Rule>, last: Rule) {
    Refused(RelationalPart(last)) || exists i :: 0 <= i < |slices| && Refused(RelationalPart(slices[i]))
  }

  lemma RefusedInside(rule: Rule, inner: Rule)
    requires WellShaped(rule) && WellShaped(inner) && Sideways.TestsOf(rule, inner.body)
    requires Refused(RelationalPart(inner))
    ensures Refused(RelationalPart(rule))
  {
    RefusedIs(rule);
    RefusedIs(inner);
    var atom :| Negative(atom) in inner.body && AtomRefused(inner.body, atom);
    assert AtomRefused(rule.body, atom);
  }

  lemma CarriedRefused(rule: Rule, inner: Rule, atom: Atom)
    requires WellShaped(inner) && Sideways.Carries(rule, inner.body, atom) && AtomRefused(rule.body, atom)
    ensures Refused(RelationalPart(inner))
  {
    RefusedIs(inner);
    assert AtomRefused(inner.body, atom);
  }

  /** Passed sideways, a rule is refused if and only if it is refused as written. */
  lemma SidewaysRefuses(rule: Rule, slices: seq<Rule>, final: Rule)
    requires WellShaped(rule) && Sideways.AllShaped(slices) && WellShaped(final)
    requires Sideways.CarriesNegations(rule, slices, final)
    ensures RewriteRefused(slices, final) <==> Refused(RelationalPart(rule))
  {
    if Refused(RelationalPart(final)) {
      RefusedInside(rule, final);
    }
    forall i | 0 <= i < |slices| && Refused(RelationalPart(slices[i]))
      ensures Refused(RelationalPart(rule))
    {
      assert Sideways.SliceShaped(slices[i]);
      RefusedInside(rule, slices[i]);
    }
    if Refused(RelationalPart(rule)) {
      RefusedIs(rule);
      var atom :| Negative(atom) in rule.body && AtomRefused(rule.body, atom);
      if Sideways.Carries(rule, final.body, atom) {
        CarriedRefused(rule, final, atom);
      } else {
        var i :| 0 <= i < |slices| && Sideways.Carries(rule, slices[i].body, atom);
        assert Sideways.SliceShaped(slices[i]);
        CarriedRefused(rule, slices[i], atom);
      }
    }
  }

  /* ------------------------------------------------------------------ */
  /* Cutting a rule                                                       */
  /* ------------------------------------------------------------------ */

  /** A negated atom that is refused where the cuts put it: without variables, or with an offending comparison they put
      there as well. */
  ghost predicate RefusedAtHome(rule: Rule, slices: seq<Rule>, j: nat, atom: Atom) {
    && Negative(atom) in rule.body && Pushdown.Home(slices, Negative(atom), j)
    && (Variables(atom) == {} || exists c :: Compare(c) in rule.body && Offends(atom, c) && Pushdown.Home(slices, Compare(c), j))
  }

  /** Some refused atom of the rule has its offender with it, after the cuts as before. */
  ghost predicate RefusedTogether(rule: Rule, slices: seq<Rule>) {
    exists j: nat, atom :: j <= |slices| && RefusedAtHome(rule, slices, j, atom)
  }

  function PartOf(slices: seq<Rule>, last: Rule, j: nat): Rule
    requires j <= |slices|
  {
    if j < |slices| then slices[j] else last
  }

  lemma PartRefused(rule: Rule, slices: seq<Rule>, last: Rule, j: nat)
    requires Pushdown.TestsAtHome(rule, slices, last) && j <= |slices| && WellShaped(PartOf(slices, last, j))
    ensures Refused(RelationalPart(PartOf(slices, last, j))) <==> exists atom :: RefusedAtHome(rule, slices, j, atom)
  {
    var part := PartOf(slices, last, j);
    RefusedIs(part);
    forall atom
      ensures Negative(atom) in part.body && AtomRefused(part.body, atom) <==> RefusedAtHome(rule, slices, j, atom)
    {
      AtomAtHome(rule, slices, last, j, atom);
    }
    if exists atom :: RefusedAtHome(rule, slices, j, atom) {
      var atom :| RefusedAtHome(rule, slices, j, atom);
      assert Negative(atom) in part.body && AtomRefused(part.body, atom);
    }
  }

  lemma AtomAtHome(rule: Rule, slices: seq<Rule>, last: Rule, j: nat, atom: Atom)
    requires Pushdown.TestsAtHome(rule, slices, last) && j <= |slices|
    ensures Negative(atom) in PartOf(slices, last, j).body && AtomRefused(PartOf(slices, last, j).body, atom)
      <==> RefusedAtHome(rule, slices, j, atom)
  {
    var body := PartOf(slices, last, j).body;
    assert Pushdown.Tested(Negative(atom));
    forall c
      ensures Compare(c) in body <==> Compare(c) in rule.body && Pushdown.Home(slices, Compare(c), j)
    {
      assert Pushdown.Tested(Compare(c));
    }
  }

  ghost predicate PartsShaped(slices: seq<Rule>, last: Rule) {
    forall j: nat :: j <= |slices| ==> WellShaped(PartOf(slices, last, j))
  }

  lemma CutIsShaped(rule: Rule, sliceName: nat -> string, slices: seq<Rule>, last: Rule)
    requires Pushdown.CutsWell(rule, sliceName, Some((slices, last)))
    ensures PartsShaped(slices, last) && Pushdown.TestsAtHome(rule, slices, last)
  {
  }

  lemma TogetherRefused(rule: Rule, slices: seq<Rule>, last: Rule, j: nat, atom: Atom)
    requires WellShaped(rule) && PartsShaped(slices, last) && Pushdown.TestsAtHome(rule, slices, last)
    requires j <= |slices| && RefusedAtHome(rule, slices, j, atom)
    ensures Refused(RelationalPart(PartOf(slices, last, j))) && Refused(RelationalPart(rule))
  {
    PartRefused(rule, slices, last, j);
    RefusedIs(rule);
    assert AtomRefused(rule.body, atom);
  }

  /** Cut, a rule is refused if and only if some refused atom of it is put in the same rule as its offender; never if it
      was not refused before. */
  lemma CutRefuses(rule: Rule, slices: seq<Rule>, last: Rule)
    requires WellShaped(rule) && PartsShaped(slices, last) && Pushdown.TestsAtHome(rule, slices, last)
    ensures RewriteRefused(slices, last) <==> RefusedTogether(rule, slices)
    ensures RewriteRefused(slices, last) ==> Refused(RelationalPart(rule))
  {
    if RefusedTogether(rule, slices) {
      var j: nat, atom :| j <= |slices| && RefusedAtHome(rule, slices, j, atom);
      TogetherRefused(rule, slices, last, j, atom);
    }
    if RewriteRefused(slices, last) {
      var j := RefusedPart(slices, last);
      PartRefused(rule, slices, last, j);
      var atom :| RefusedAtHome(rule, slices, j, atom);
      TogetherRefused(rule, slices, last, j, atom);
    }
  }

  lemma RefusedPart(slices: seq<Rule>, last: Rule) returns (j: nat)
    requires RewriteRefused(slices, last)
    ensures j <= |slices| && Refused(RelationalPart(PartOf(slices, last, j)))
  {
    if Refused(RelationalPart(last)) {
      j := |slices|;
    } else {
      j :| 0 <= j < |slices| && Refused(RelationalPart(slices[j]));
    }
  }

  /** A cut parts a negated atom from an offending comparison if and only if its prefix binds the comparison and either
      the atom moves while the comparison, which can fault, stays, or the comparison moves while the atom stays. */
  lemma PartedBy(prefix: set<Var>, atom: Atom, c: Comparison<Var>)
    requires Offends(atom, c)
    ensures Pushdown.MovesAlone(prefix, Negative(atom)) != Pushdown.MovesAlone(prefix, Compare(c)) <==>
      ComparisonVariables(c) <= prefix && (Variables(atom) <= prefix <==> Pushdown.CanFault(c.left) || Pushdown.CanFault(c.right))
  {
  }
}

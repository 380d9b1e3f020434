/** Every order of a tree's children. */
module Permutations {
  import opened SpanningTrees

  /** Every permutation of a list, by choosing its first element. */
  function ListPermutations(s: seq<nat>): (r: seq<seq<nat>>)
    decreases |s|, 1, 0
  {
    if s == [] then [[]] else StartingFrom(s, |s|)
  }

  /** The permutations that start with one of the first `n` elements. */
  function StartingFrom(s: seq<nat>, n: nat): seq<seq<nat>>
    requires n <= |s|
    decreases |s|, 0, n
  {
    if n == 0 then
      []
    else
      StartingFrom(s, n - 1) + Prefixed(s[n - 1], ListPermutations(s[..n - 1] + s[n..]))
  }

  function Prefixed(x: nat, ps: seq<seq<nat>>): (r: seq<seq<nat>>)
    ensures |r| == |ps| && forall i :: 0 <= i < |r| ==> r[i] == [x] + ps[i]
  {
    seq(|ps|, i requires 0 <= i < |ps| => [x] + ps[i])
  }

  lemma WithoutOne(s: seq<nat>, i: nat)
    requires i < |s|
    ensures multiset(s) == multiset(s[..i] + s[i + 1..]) + multiset{s[i]}
  {
    assert s == s[..i] + [s[i]] + s[i + 1..];
  }

  lemma PrefixedHas(x: nat, ps: seq<seq<nat>>, p: seq<nat>)
    ensures p in Prefixed(x, ps) <==> p != [] && p[0] == x && p[1..] in ps
  {
    if p in Prefixed(x, ps) {
      var i :| 0 <= i < |ps| && Prefixed(x, ps)[i] == p;
      assert p[1..] == ps[i];
    }
    if p != [] && p[0] == x && p[1..] in ps {
      var i :| 0 <= i < |ps| && ps[i] == p[1..];
      assert Prefixed(x, ps)[i] == [x] + ps[i] == p;
    }
  }

  lemma Cancels(a: multiset<nat>, b: multiset<nat>, x: nat)
    ensures a + multiset{x} == b + multiset{x} <==> a == b
  {
    if a + multiset{x} == b + multiset{x} {
      assert a == a + multiset{x} - multiset{x};
      assert b == b + multiset{x} - multiset{x};
    }
  }

  /** A list is produced exactly when it holds the same elements as often. */
  lemma {:induction false} ListPermutationsAre(s: seq<nat>, p: seq<nat>)
    ensures p in ListPermutations(s) <==> multiset(p) == multiset(s)
    decreases |s|, 1, 0
  {
    if s == [] {
      assert multiset(p) == multiset(s) <==> |multiset(p)| == 0;
    } else {
      StartingFromAre(s, |s|, p);
      if multiset(p) == multiset(s) {
        assert |multiset(p)| == |p| && |multiset(s)| == |s|;
        assert p[0] in multiset(p);
        assert p[0] in multiset(s);
      }
    }
  }

  lemma {:induction false} StartingFromAre(s: seq<nat>, n: nat, p: seq<nat>)
    requires n <= |s|
    ensures p in StartingFrom(s, n) <==> multiset(p) == multiset(s) && p != [] && p[0] in s[..n]
    decreases |s|, 0, n
  {
    if n > 0 {
      var x, left := s[n - 1], s[..n - 1] + s[n..];
      StartingFromAre(s, n - 1, p);
      PrefixedHas(x, ListPermutations(left), p);
      WithoutOne(s, n - 1);
      assert s[..n] == s[..n - 1] + [x];
      if p != [] && p[0] == x {
        ListPermutationsAre(left, p[1..]);
        assert p == [x] + p[1..];
        Cancels(multiset(p[1..]), multiset(left), x);
      }
    }
  }

  /* ------------------------------------------------------------------ */
  /* Trees                                                                */
  /* ------------------------------------------------------------------ */

  type Tree = map<nat, seq<nat>>

  /** Every tree with the children of one node replaced by every option. */
  function Replaced(trees: seq<Tree>, parent: nat, options: seq<seq<nat>>): seq<Tree> {
    if options == [] then [] else Replaced(trees, parent, options[..|options| - 1]) + ReplacedBy(trees, parent, options[|options| - 1])
  }

  function ReplacedBy(trees: seq<Tree>, parent: nat, children: seq<nat>): (r: seq<Tree>)
    ensures |r| == |trees| && forall i :: 0 <= i < |r| ==> r[i] == trees[i][parent := children]
  {
    seq(|trees|, i requires 0 <= i < |trees| => trees[i][parent := children])
  }

  ghost predicate IsReplacement(trees: seq<Tree>, parent: nat, options: seq<seq<nat>>, t: Tree) {
    exists tree, children :: tree in trees && children in options && t == tree[parent := children]
  }

  lemma {:induction false} ReplacedHas(trees: seq<Tree>, parent: nat, options: seq<seq<nat>>, t: Tree)
    ensures t in Replaced(trees, parent, options) <==> IsReplacement(trees, parent, options, t)
  {
    if options != [] {
      var front, last := options[..|options| - 1], options[|options| - 1];
      ReplacedHas(trees, parent, front, t);
      assert options == front + [last];
      if IsReplacement(trees, parent, front, t) {
        var tree, children :| tree in trees && children in front && t == tree[parent := children];
        assert children in options;
      }
      if t in ReplacedBy(trees, parent, last) {
        var i :| 0 <= i < |trees| && ReplacedBy(trees, parent, last)[i] == t;
        assert trees[i] in trees && last in options && t == trees[i][parent := last];
      }
      if IsReplacement(trees, parent, options, t) {
        var tree, children :| tree in trees && children in options && t == tree[parent := children];
        if children == last {
          var i :| 0 <= i < |trees| && trees[i] == tree;
          assert ReplacedBy(trees, parent, last)[i] == t;
        } else {
          assert children in front;
        }
      }
    }
  }

  /** The nodes done so far have their children in some order; the others are as they were. */
  ghost predicate PermutedOn(tree: Tree, done: set<nat>, t: Tree) {
    && t.Keys == tree.Keys
    && (forall x :: x in tree && x in done ==> multiset(t[x]) == multiset(tree[x]))
    && (forall x :: x in tree && x !in done ==> t[x] == tree[x])
  }

  lemma PermutedNext(tree: Tree, done: set<nat>, trees: seq<Tree>, parent: nat, t: Tree)
    requires parent in tree && parent !in done && forall t :: t in trees <==> PermutedOn(tree, done, t)
    ensures t in Replaced(trees, parent, ListPermutations(tree[parent])) <==> PermutedOn(tree, done + {parent}, t)
  {
    ReplacedHas(trees, parent, ListPermutations(tree[parent]), t);
    if IsReplacement(trees, parent, ListPermutations(tree[parent]), t) {
      var before, children :| before in trees && children in ListPermutations(tree[parent]) && t == before[parent := children];
      ListPermutationsAre(tree[parent], children);
      PermutedForward(tree, done, parent, before, children);
    }
    if PermutedOn(tree, done + {parent}, t) {
      var before := t[parent := tree[parent]];
      PermutedBack(tree, done, parent, t);
      assert before in trees;
      ListPermutationsAre(tree[parent], t[parent]);
      assert t == before[parent := t[parent]];
    }
  }

  lemma PermutedForward(tree: Tree, done: set<nat>, parent: nat, before: Tree, children: seq<nat>)
    requires parent in tree && parent !in done && PermutedOn(tree, done, before)
    requires multiset(children) == multiset(tree[parent])
    ensures PermutedOn(tree, done + {parent}, before[parent := children])
  {
  }

  lemma PermutedBack(tree: Tree, done: set<nat>, parent: nat, t: Tree)
    requires parent in tree && parent !in done && PermutedOn(tree, done + {parent}, t)
    ensures PermutedOn(tree, done, t[parent := tree[parent]])
  {
  }

  lemma PermutedNone(tree: Tree, t: Tree)
    ensures PermutedOn(tree, {}, t) <==> t == tree
  {
  }

  /** Every tree with the same nodes below every node, in every order - and no other tree. */
  method TreePermutations(tree: Tree) returns (trees: seq<Tree>)
    ensures forall t :: t in trees <==> Permuted(tree, t)
  {
    trees := [tree];
    forall t {
      PermutedNone(tree, t);
    }
    var left := tree.Keys;
    ghost var done: set<nat> := {};
    while left != {}
      invariant left <= tree.Keys && done == tree.Keys - left
      invariant forall t :: t in trees <==> PermutedOn(tree, done, t)
    {
      var parent :| parent in left;
      forall t {
        PermutedNext(tree, done, trees, parent, t);
      }
      trees := Replaced(trees, parent, ListPermutations(tree[parent]));
      left, done := left - {parent}, done + {parent};
    }
  }
}

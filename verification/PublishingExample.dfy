/** The recursive rule `H(x, y, z) :- H(x, w, q), A(w, v), B(v, y), C(z), z > 0` passed sideways: the slice over `C` has
    one atom, so its rows are not a join's, and the scope never finds them. */
module PublishingExample {
  import opened Wrappers
  import opened Schedules
  import opened Publishing

  function Read(sig: Sig, relation: Sig): Tree {
    Leaf(sig, relation, Unary)
  }

  function Rows(sig: Sig, left: Tree, right: Tree): Tree {
    Node(sig, [left, right], JoinToRow)
  }

  // the forward slices f1(w, v), f2(v, y) and f3(z), the backward slices b3(z), b1(w, v) and b0(x, w, q), and the final
  // rule
  const F1 := Rows("A*H", Read("A.wv", "A"), Read("H.w", "H"))
  const F2 := Rows("B*f1", Read("B.vy", "B"), Read("f1.v", "f1"))
  const F3 := Read("C.z>0", "C")
  const B3 := Read("f3.z>0", "f3")
  const B1 := Rows("f1*f2", Read("f1.wv", "f1"), Read("f2.v", "f2"))
  const B0 := Rows("H*b1", Read("H.xwq", "H"), Read("b1.w", "b1"))
  const LEFT := Rows("b0*b1", Read("b0.xw", "b0"), Read("b1.wv", "b1"))
  const MIDDLE := Rows("b0*b1*f2", LEFT, Read("f2.vy", "f2"))
  const FINAL := Rows("b0*b1*f2*b3", MIDDLE, Read("b3.z>0", "b3"))

  const SLICES: set<Sig> := {"f1", "f2", "f3", "b3", "b1", "b0"}
  const RELATIONS: set<Sig> := {"A", "B", "C"}

  function Heads(): seq<Sig> {
    ["f1", "f2", "f3", "b3", "b1", "b0", "H"]
  }

  function Roots(): seq<Tree> {
    [F1, F2, F3, B3, B1, B0, FINAL]
  }

  function SipGroup(): Group {
    Group(true, Roots(), Heads(), SLICES)
  }

  /** The operator tree of every text. */
  function TreeOf(s: Sig): Tree {
    if s == "A*H" then F1 else if s == "A.wv" then Read("A.wv", "A") else if s == "H.w" then Read("H.w", "H")
    else if s == "B*f1" then F2 else if s == "B.vy" then Read("B.vy", "B") else if s == "f1.v" then Read("f1.v", "f1")
    else if s == "C.z>0" then F3 else if s == "f3.z>0" then B3
    else if s == "f1*f2" then B1 else if s == "f1.wv" then Read("f1.wv", "f1") else if s == "f2.v" then Read("f2.v", "f2")
    else if s == "H*b1" then B0 else if s == "H.xwq" then Read("H.xwq", "H") else if s == "b1.w" then Read("b1.w", "b1")
    else if s == "b0*b1" then LEFT else if s == "b0.xw" then Read("b0.xw", "b0") else if s == "b1.wv" then Read("b1.wv", "b1")
    else if s == "b0*b1*f2" then MIDDLE else if s == "f2.vy" then Read("f2.vy", "f2")
    else if s == "b3.z>0" then Read("b3.z>0", "b3") else FINAL
  }

  /** A text is longer than a relation's name, and names one tree. */
  predicate TextNames(t: Tree) {
    TreeOf(t.sig) == t && |t.sig| > 2 && (t.Leaf? ==> t.leafKind.Unary?)
  }

  ghost predicate Told(t: Tree) {
    forall u :: u in Subtrees(t) ==> TextNames(u)
  }

  lemma ToldLeaf(t: Tree)
    requires t.Leaf? && TextNames(t)
    ensures Told(t)
  {
  }

  lemma ToldRows(t: Tree, left: Tree, right: Tree)
    requires t.Node? && t.children == [left, right] && TextNames(t) && Told(left) && Told(right)
    ensures Told(t)
  {
    forall u | u in Subtrees(t)
      ensures TextNames(u)
    {
      RowsSubtree(t, left, right, u);
    }
  }

  lemma RowsSubtree(t: Tree, left: Tree, right: Tree, u: Tree)
    requires t.Node? && t.children == [left, right] && u in Subtrees(t)
    ensures u == t || u in Subtrees(left) || u in Subtrees(right)
  {
    if u != t {
      var i :| 0 <= i < |t.children| && u in Subtrees(t.children[i]);
      assert t.children[i] == if i == 0 then left else right;
    }
  }

  lemma RowsRead(t: Tree, left: Tree, right: Tree, s: Sig)
    requires t.Node? && t.children == [left, right] && s in Relations(t)
    ensures s in Relations(left) || s in Relations(right)
  {
    var i :| 0 <= i < |t.children| && s in Relations(t.children[i]);
    assert t.children[i] == if i == 0 then left else right;
  }

  lemma ToldPair(t: Tree, a: Sig, r: Sig, b: Sig, s: Sig)
    requires t.Node? && t.children == [Read(a, r), Read(b, s)] && TextNames(t)
    requires TreeOf(a) == Read(a, r) && |a| > 2 && TreeOf(b) == Read(b, s) && |b| > 2
    ensures Told(t)
  {
    ToldLeaf(Read(a, r));
    ToldLeaf(Read(b, s));
    ToldRows(t, Read(a, r), Read(b, s));
  }

  lemma ToldMore(t: Tree, left: Tree, b: Sig, s: Sig)
    requires t.Node? && t.children == [left, Read(b, s)] && TextNames(t) && Told(left) && TreeOf(b) == Read(b, s)
    requires |b| > 2
    ensures Told(t)
  {
    ToldLeaf(Read(b, s));
    ToldRows(t, left, Read(b, s));
  }

  lemma LeftTold()
    ensures Told(LEFT)
  {
    ToldPair(LEFT, "b0.xw", "b0", "b1.wv", "b1");
  }

  lemma MiddleText()
    ensures TextNames(MIDDLE) && TreeOf("f2.vy") == Read("f2.vy", "f2") && |"f2.vy"| > 2
  {
  }

  lemma FinalText()
    ensures TextNames(FINAL) && TreeOf("b3.z>0") == Read("b3.z>0", "b3") && |"b3.z>0"| > 2
  {
  }

  lemma MiddleTold()
    ensures Told(MIDDLE)
  {
    LeftTold();
    MiddleText();
    ToldMore(MIDDLE, LEFT, "f2.vy", "f2");
  }

  lemma FinalTold()
    ensures Told(FINAL)
  {
    MiddleTold();
    FinalText();
    ToldMore(FINAL, MIDDLE, "b3.z>0", "b3");
  }

  lemma F1Told()
    ensures Told(F1)
  {
    ToldPair(F1, "A.wv", "A", "H.w", "H");
  }

  lemma F2Told()
    ensures Told(F2)
  {
    ToldPair(F2, "B.vy", "B", "f1.v", "f1");
  }

  lemma B1Told()
    ensures Told(B1)
  {
    ToldPair(B1, "f1.wv", "f1", "f2.v", "f2");
  }

  lemma B0Told()
    ensures Told(B0)
  {
    ToldPair(B0, "H.xwq", "H", "b1.w", "b1");
  }

  lemma RootTold(j: nat)
    requires j < |Roots()|
    ensures Told(Roots()[j])
  {
    F1Told();
    F2Told();
    ToldLeaf(F3);
    ToldLeaf(B3);
    B1Told();
    B0Told();
    FinalTold();
  }

  function Position(s: Sig): nat {
    if s == "f1" then 0 else if s == "f2" then 1 else if s == "f3" then 2 else if s == "b3" then 3
    else if s == "b1" then 4 else if s == "b0" then 5 else 6
  }

  lemma Positions(i: nat)
    requires i < |Heads()|
    ensures Position(Heads()[i]) == i && |Heads()[i]| <= 2 && (Heads()[i] in SLICES <==> i < 6)
  {
    assert i == 0 || i == 1 || i == 2 || i == 3 || i == 4 || i == 5 || i == 6;
  }

  predicate KnownBefore(s: Sig, j: nat) {
    s in RELATIONS || s == "H" || (s in SLICES && Position(s) < j)
  }

  /** What a rule reads: relations, and slices of earlier rules. */
  ghost predicate ReadsEarlier(t: Tree, j: nat) {
    forall s :: s in Relations(t) ==> KnownBefore(s, j)
  }

  lemma PairReads(t: Tree, a: Sig, r: Sig, b: Sig, s: Sig, j: nat)
    requires t.Node? && t.children == [Read(a, r), Read(b, s)] && KnownBefore(r, j) && KnownBefore(s, j)
    ensures ReadsEarlier(t, j)
  {
    forall x | x in Relations(t)
      ensures KnownBefore(x, j)
    {
      RowsRead(t, Read(a, r), Read(b, s), x);
    }
  }

  lemma OneMoreReads(t: Tree, left: Tree, b: Sig, s: Sig, j: nat)
    requires t.Node? && t.children == [left, Read(b, s)] && ReadsEarlier(left, j) && KnownBefore(s, j)
    ensures ReadsEarlier(t, j)
  {
    forall x | x in Relations(t)
      ensures KnownBefore(x, j)
    {
      RowsRead(t, left, Read(b, s), x);
    }
  }

  lemma FinalReads()
    ensures ReadsEarlier(FINAL, 6)
  {
    PairReads(LEFT, "b0.xw", "b0", "b1.wv", "b1", 6);
    OneMoreReads(MIDDLE, LEFT, "f2.vy", "f2", 6);
    OneMoreReads(FINAL, MIDDLE, "b3.z>0", "b3", 6);
  }

  lemma RootReads(j: nat)
    requires j < |Roots()|
    ensures ReadsEarlier(Roots()[j], j)
  {
    match j
    case 0 => PairReads(F1, "A.wv", "A", "H.w", "H", 0);
    case 1 => PairReads(F2, "B.vy", "B", "f1.v", "f1", 1);
    case 2 =>
    case 3 =>
    case 4 => PairReads(B1, "f1.wv", "f1", "f2.v", "f2", 4);
    case 5 => PairReads(B0, "H.xwq", "H", "b1.w", "b1", 5);
    case _ => FinalReads();
  }

  lemma AllTold(t: Tree)
    requires t in AllTrees([SipGroup()])
    ensures TextNames(t)
  {
    var j :| 0 <= j < |SipGroup().roots| && t in Subtrees(SipGroup().roots[j]);
    RootTold(j);
    assert Told(Roots()[j]);
  }

  lemma SlicesEarlier()
    ensures SlicesFirst(SipGroup())
  {
    forall i: nat, j: nat | i < |Roots()| && j < |Roots()| && ReadsSlice(SipGroup(), i, j)
      ensures i < j
    {
      Positions(i);
      RootReads(j);
    }
    forall i: nat, j: nat | i < j < |Roots()|
      ensures Heads()[i] != Heads()[j]
    {
      Positions(i);
      Positions(j);
    }
  }

  lemma SipOk()
    ensures GroupOk(SipGroup(), RELATIONS)
  {
    forall s | s in SLICES
      ensures s in Named(Heads())
    {
      assert Heads()[Position(s)] == s;
    }
    forall k: nat | k < |Roots()|
      ensures Faithful(Subtrees(Roots()[k])) && Relations(Roots()[k]) <= RELATIONS + Named(Heads())
    {
      RootTold(k);
      RootReads(k);
      RootFaithful(Roots()[k]);
      EarlierKnown(Roots()[k], k);
    }
  }

  lemma RootFaithful(t: Tree)
    requires Told(t)
    ensures Faithful(Subtrees(t))
  {
    forall u, v | u in Subtrees(t) && v in Subtrees(t) && u.sig == v.sig
      ensures u == v
    {
      assert TextNames(u) && TextNames(v);
    }
  }

  lemma EarlierKnown(t: Tree, j: nat)
    requires ReadsEarlier(t, j)
    ensures Relations(t) <= RELATIONS + Named(Heads())
  {
    forall s | s in Relations(t)
      ensures s in RELATIONS + Named(Heads())
    {
      assert KnownBefore(s, j);
      assert s in RELATIONS || Heads()[Position(s)] == s;
    }
  }

  lemma NameShort(s: Sig)
    requires s in RELATIONS + Derived([SipGroup()])
    ensures |s| <= 2
  {
    if s !in RELATIONS {
      var i :| 0 <= i < |Heads()| && Heads()[i] == s;
      Positions(i);
    }
  }

  lemma SipNames(t: Tree)
    requires t in AllTrees([SipGroup()])
    ensures t.sig !in RELATIONS + Derived([SipGroup()]) && (t.Leaf? ==> t.leafKind.Unary?)
  {
    AllTold(t);
    if t.sig in RELATIONS + Derived([SipGroup()]) {
      NameShort(t.sig);
    }
  }

  lemma SipFaithful()
    ensures Faithful(AllTrees([SipGroup()]))
  {
    forall t, u | t in AllTrees([SipGroup()]) && u in AllTrees([SipGroup()]) && t.sig == u.sig
      ensures t == u
    {
      AllTold(t);
      AllTold(u);
    }
  }

  lemma SipStratified()
    ensures Stratified([SipGroup()], RELATIONS)
  {
    SipOk();
    assert [SipGroup()][..0] == [];
  }

  lemma SipWellFormed()
    ensures WellFormed([SipGroup()], RELATIONS)
  {
    SipStratified();
    SipFaithful();
    SlicesEarlier();
    forall t | t in AllTrees([SipGroup()])
      ensures t.sig !in RELATIONS + Derived([SipGroup()]) && (t.Leaf? ==> t.leafKind.Unary?)
    {
      SipNames(t);
    }
  }

  /** The backward slice over `z` reads the forward one, which reads `C` alone. */
  lemma SliceRead()
    ensures |SipGroup().heads| == |SipGroup().roots| == 7 && ReadsSlice(SipGroup(), 2, 3)
    ensures !OpOf(SipGroup().roots[2]).kind.JoinToRow?
  {
  }

  /** The rewritten rule, though a well-formed program, cannot be assembled, with sharing or without. */
  lemma SliceNeverPublished(groups: seq<Group>, sharing: bool)
    requires groups == [SipGroup()]
    ensures |SipGroup().heads| == |SipGroup().roots| && !ProgramPublishable(groups, sharing)
  {
    SliceRead();
    SliceRefused(groups, SipGroup(), 2, 3, sharing);
  }

  lemma SliceRefused(groups: seq<Group>, group: Group, i: nat, j: nat, sharing: bool)
    requires groups == [group] && group.recursive && |group.heads| == |group.roots| && i < |group.roots|
    requires j < |group.roots|
    requires ReadsSlice(group, i, j) && !OpOf(group.roots[i]).kind.JoinToRow?
    ensures !ProgramPublishable(groups, sharing)
  {
    UnpublishedSlice(groups, 0, i, j, sharing);
  }

  /** Assembling the rewritten rule fails. */
  method BuildSip(sharing: bool, fusable: Op -> bool) returns (r: Option<set<Sig>>)
    ensures r.None?
  {
    SipWellFormed();
    SliceNeverPublished([SipGroup()], sharing);
    r := BuildProgram([SipGroup()], sharing, fusable, RELATIONS);
  }
}

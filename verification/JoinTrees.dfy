/** Spanning trees over a rule's atoms. */
module JoinTrees {

  /** A node is a positive atom, by index; its children are joined to it from last to first. */
  datatype JoinTree = Node(atom: nat, children: seq<JoinTree>)

  function PreOrder(t: JoinTree): (r: seq<nat>)
    ensures r != [] && r[0] == t.atom
    decreases t, 1
  {
    [t.atom] + PreOrderAll(t.children)
  }

  function PreOrderAll(ts: seq<JoinTree>): seq<nat>
    decreases ts, 0
  {
    if ts == [] then [] else PreOrderAll(ts[..|ts| - 1]) + PreOrder(ts[|ts| - 1])
  }

  lemma PreOrderAllNext(ts: seq<JoinTree>, k: nat)
    requires k < |ts|
    ensures PreOrderAll(ts[..k + 1]) == PreOrderAll(ts[..k]) + PreOrder(ts[k])
  {
    assert ts[..k + 1][..k] == ts[..k];
  }

  /** The tree without its root's last child. */
  function Truncated(t: JoinTree): JoinTree
    requires t.children != []
  {
    Node(t.atom, t.children[..|t.children| - 1])
  }

  lemma PreOrderTruncated(t: JoinTree)
    requires t.children != []
    ensures PreOrder(t) == PreOrder(Truncated(t)) + PreOrder(t.children[|t.children| - 1])
  {
    assert [t.atom] + (PreOrderAll(t.children[..|t.children| - 1]) + PreOrder(t.children[|t.children| - 1]))
        == [t.atom] + PreOrderAll(t.children[..|t.children| - 1]) + PreOrder(t.children[|t.children| - 1]);
  }

  /** The pre-order of every node of a tree. */
  ghost predicate ExactSubTrees(t: JoinTree, subTrees: map<nat, seq<nat>>) {
    && t.atom in subTrees && subTrees[t.atom] == PreOrder(t)
    && forall i :: 0 <= i < |t.children| ==> ExactSubTrees(t.children[i], subTrees)
  }

  /** The same for a tree some of whose last children were peeled off: its root's entry still lists them. */
  ghost predicate PeeledSubTrees(t: JoinTree, subTrees: map<nat, seq<nat>>) {
    && t.atom in subTrees && PreOrder(t) <= subTrees[t.atom]
    && forall i :: 0 <= i < |t.children| ==> ExactSubTrees(t.children[i], subTrees)
  }

  lemma PeeledTruncated(t: JoinTree, subTrees: map<nat, seq<nat>>)
    requires t.children != [] && PeeledSubTrees(t, subTrees)
    ensures PeeledSubTrees(Truncated(t), subTrees)
    ensures PeeledSubTrees(t.children[|t.children| - 1], subTrees)
  {
    PreOrderTruncated(t);
    assert ExactSubTrees(t.children[|t.children| - 1], subTrees);
  }

  /** The root followed by the listed pre-orders of some children. */
  function ListedPreOrders(ts: seq<JoinTree>, subTrees: map<nat, seq<nat>>): seq<nat>
    requires forall i :: 0 <= i < |ts| ==> ts[i].atom in subTrees
  {
    if ts == [] then [] else ListedPreOrders(ts[..|ts| - 1], subTrees) + subTrees[ts[|ts| - 1].atom]
  }

  lemma {:induction false} ListedPreOrdersExact(ts: seq<JoinTree>, subTrees: map<nat, seq<nat>>)
    requires forall i :: 0 <= i < |ts| ==> ts[i].atom in subTrees && ExactSubTrees(ts[i], subTrees)
    ensures ListedPreOrders(ts, subTrees) == PreOrderAll(ts)
  {
    if ts != [] {
      ListedPreOrdersExact(ts[..|ts| - 1], subTrees);
    }
  }
}

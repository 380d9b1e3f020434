/** Spanning trees of the core atoms, grown along the largest overlaps. */
module Prim {
  import opened Wrappers
  import opened Datalog
  import opened SpanningTrees

  /** An edge offered to the tree: how much it overlaps, how deep its lower end is, and its ends. The root has no
      parent. */
  datatype Entry = Entry(overlap: nat, depth: nat, parent: Option<nat>, child: nat)

  /** The heap's order: more overlap first, then less depth, then larger ids. */
  predicate Above(a: Entry, b: Entry) {
    if a.overlap != b.overlap then a.overlap > b.overlap
    else if a.depth != b.depth then a.depth < b.depth
    else if a.parent != b.parent then a.parent.None? || (b.parent.Some? && a.parent.value > b.parent.value)
    else a.child > b.child
  }

  /** Takes a greatest entry out of the heap. */
  method Pop(heap: seq<Entry>) returns (top: Entry, rest: seq<Entry>)
    requires heap != []
    ensures multiset(heap) == multiset(rest) + multiset{top} && |rest| == |heap| - 1
    ensures forall e :: e in heap ==> !Above(e, top)
  {
    var best := 0;
    for i := 1 to |heap|
      invariant 0 <= best < |heap|
      invariant forall j :: 0 <= j < i ==> !Above(heap[j], heap[best])
    {
      if Above(heap[i], heap[best]) {
        best := i;
      }
    }
    top, rest := heap[best], heap[..best] + heap[best + 1..];
    assert heap == heap[..best] + [heap[best]] + heap[best + 1..];
  }

  /** The edge from the new node to a neighbour; one without overlap is offered from the root instead. */
  function Offer(sets: seq<set<Var>>, root: nat, child: nat, depth: nat, neighbor: nat): Entry
    requires child < |sets| && neighbor < |sets|
  {
    if Overlap(sets, child, neighbor) > 0 then Entry(Overlap(sets, child, neighbor), depth + 1, Some(child), neighbor) else Entry(0, 1, Some(root), neighbor)
  }

  /** The unvisited nodes below `n` were offered, and nothing else. */
  ghost predicate Pushed(sets: seq<set<Var>>, visited: seq<bool>, root: nat, child: nat, depth: nat, heap: seq<Entry>,
                         heap': seq<Entry>, n: nat)
    requires |sets| == |visited| && child < |sets| && n <= |sets|
  {
    && (forall e :: e in heap ==> e in heap')
    && (forall x: nat :: x < n && !visited[x] ==> Offer(sets, root, child, depth, x) in heap')
    && (forall e :: e in heap' && e !in heap ==> e.child < n && !visited[e.child] && e == Offer(sets, root, child, depth, e.child))
  }

  method PushNeighbors(sets: seq<set<Var>>, visited: seq<bool>, root: nat, child: nat, depth: nat, heap: seq<Entry>)
    returns (heap': seq<Entry>)
    requires |sets| == |visited| && child < |sets|
    ensures Pushed(sets, visited, root, child, depth, heap, heap', |sets|)
  {
    heap' := heap;
    for x := 0 to |sets|
      invariant Pushed(sets, visited, root, child, depth, heap, heap', x)
    {
      if !visited[x] {
        var overlap := Overlap(sets, child, x);
        if overlap > 0 {
          heap' := heap' + [Entry(overlap, depth + 1, Some(child), x)];
        } else {
          heap' := heap' + [Entry(0, 1, Some(root), x)];
        }
      }
    }
  }

  /** How deep the `i`-th node of the tree hangs. */
  ghost function Level(g: Growth, i: nat): nat
    requires Grown(g) && i < |g.order|
    decreases i
  {
    if i == 0 then 0 else Level(g, g.up[i]) + 1
  }

  /** The edge the `j`-th node of the tree offered for another node when it was visited. */
  ghost function OfferAt(sets: seq<set<Var>>, g: Growth, j: nat, x: nat): Entry
    requires Grown(g) && SpanningTrees.Within(sets, g.order) && j < |g.order| && x < |sets|
  {
    Offer(sets, g.order[0], g.order[j], Level(g, j), x)
  }

  /** One of the first `i` nodes offered the edge. */
  ghost predicate IsOffer(sets: seq<set<Var>>, g: Growth, i: nat, e: Entry)
    requires Grown(g) && SpanningTrees.Within(sets, g.order) && i <= |g.order|
  {
    e.child < |sets| && exists j :: 0 <= j < i && e == OfferAt(sets, g, j, e.child)
  }

  /** The edge below which the `i`-th node hangs. */
  ghost function EntryAt(sets: seq<set<Var>>, g: Growth, i: nat): Entry
    requires Grown(g) && SpanningTrees.Within(sets, g.order) && 0 < i < |g.order|
  {
    Entry(Overlap(sets, g.order[g.up[i]], g.order[i]), Level(g, i), Some(g.order[g.up[i]]), g.order[i])
  }

  /** A core atom not among the first `i` nodes. */
  predicate Waits(core: seq<bool>, g: Growth, i: nat, x: nat)
    requires i <= |g.order|
  {
    x < |core| && core[x] && x !in g.order[..i]
  }

  /** The `i`-th node hangs by an edge the nodes before it offered, and they offered no greater one to a core atom not
      among them. */
  ghost predicate Takes(sets: seq<set<Var>>, core: seq<bool>, g: Growth, i: nat)
    requires |sets| == |core| && Grown(g) && SpanningTrees.Within(sets, g.order) && 0 < i < |g.order|
  {
    && IsOffer(sets, g, i, EntryAt(sets, g, i))
    && forall j: nat, x: nat :: j < i && Waits(core, g, i, x) ==> !Above(OfferAt(sets, g, j, x), EntryAt(sets, g, i))
  }

  /** Every node took the greatest offer. */
  ghost predicate TakesAll(sets: seq<set<Var>>, core: seq<bool>, g: Growth)
    requires |sets| == |core| && Grown(g) && SpanningTrees.Within(sets, g.order)
  {
    forall i :: 0 < i < |g.order| ==> Takes(sets, core, g, i)
  }

  /** Prim's tree from a root: it spans the core atoms, and each node took the greatest offer in the heap's order. */
  ghost predicate IsPrim(sets: seq<set<Var>>, core: seq<bool>, root: nat, g: Growth) {
    && |sets| == |core| && Grown(g) && SpanningTrees.Within(sets, g.order) && g.order != [] && g.order[0] == root
    && g.up[0] == 0
    && (forall x: nat :: x in g.order <==> x < |core| && core[x])
    && TakesAll(sets, core, g)
  }

  lemma {:induction false} LevelSame(g: Growth, g': Growth, i: nat)
    requires Grown(g) && Grown(g') && i < |g.order| && i < |g'.order| && forall k :: 0 <= k <= i ==> g.up[k] == g'.up[k]
    ensures Level(g, i) == Level(g', i)
    decreases i
  {
    if i > 0 {
      LevelSame(g, g', g.up[i]);
    }
  }

  /** The first `n` nodes are the same, and hang alike. */
  ghost predicate SameTo(g: Growth, g': Growth, n: nat)
    requires Grown(g) && Grown(g')
  {
    n <= |g.order| && n <= |g'.order| && g.order[..n] == g'.order[..n] && g.up[..n] == g'.up[..n]
  }

  lemma OfferSame(sets: seq<set<Var>>, g: Growth, g': Growth, n: nat, j: nat, x: nat)
    requires Grown(g) && Grown(g') && SpanningTrees.Within(sets, g.order) && SpanningTrees.Within(sets, g'.order)
    requires SameTo(g, g', n) && j < n && x < |sets|
    ensures OfferAt(sets, g, j, x) == OfferAt(sets, g', j, x)
  {
    assert forall k :: 0 <= k < n ==> g.up[k] == g.up[..n][k] && g.order[k] == g.order[..n][k];
    assert forall k :: 0 <= k < n ==> g'.up[k] == g'.up[..n][k] && g'.order[k] == g'.order[..n][k];
    LevelSame(g, g', j);
  }

  /** Two of Prim's trees that agree so far take the same node next, and hang it alike. */
  lemma NextSame(sets: seq<set<Var>>, core: seq<bool>, root: nat, g: Growth, g': Growth, n: nat)
    requires IsPrim(sets, core, root, g) && IsPrim(sets, core, root, g') && SameTo(g, g', n) && 0 < n < |g.order|
    requires n < |g'.order|
    ensures SameTo(g, g', n + 1)
  {
    var e, e' := EntryAt(sets, g, n), EntryAt(sets, g', n);
    NotAbove(sets, core, root, g, g', n);
    NotAbove(sets, core, root, g', g, n);
    assert e == e';
    assert g.order[g.up[n]] == g.order[..n][g.up[n]] && g'.order[g'.up[n]] == g'.order[..n][g'.up[n]];
    assert g.order[g.up[n]] == g.order[g'.up[n]];
    assert g.order[..n + 1] == g.order[..n] + [g.order[n]] && g'.order[..n + 1] == g'.order[..n] + [g'.order[n]];
    assert g.up[..n + 1] == g.up[..n] + [g.up[n]] && g'.up[..n + 1] == g'.up[..n] + [g'.up[n]];
  }

  lemma NotAbove(sets: seq<set<Var>>, core: seq<bool>, root: nat, g: Growth, g': Growth, n: nat)
    requires IsPrim(sets, core, root, g) && IsPrim(sets, core, root, g') && SameTo(g, g', n) && 0 < n < |g.order|
    requires n < |g'.order|
    ensures !Above(EntryAt(sets, g, n), EntryAt(sets, g', n))
  {
    assert Takes(sets, core, g, n) && Takes(sets, core, g', n);
    var x := g.order[n];
    var j :| 0 <= j < n && EntryAt(sets, g, n) == OfferAt(sets, g, j, x);
    assert x !in g.order[..n];
    assert x in g.order && Waits(core, g', n, x);
    OfferSame(sets, g, g', n, j, x);
  }

  lemma {:induction false} PrimSameTo(sets: seq<set<Var>>, core: seq<bool>, root: nat, g: Growth, g': Growth, n: nat)
    requires IsPrim(sets, core, root, g) && IsPrim(sets, core, root, g') && 0 < n <= |g.order|
    ensures SameTo(g, g', n)
  {
    if n > 1 {
      PrimSameTo(sets, core, root, g, g', n - 1);
      var x := g.order[n - 1];
      assert x in g.order && x in g'.order && x !in g.order[..n - 1];
      assert g'.order[..|g'.order|] == g'.order;
      NextSame(sets, core, root, g, g', n - 1);
    }
  }

  /** There is only one such tree for each root: the heap's order leaves no choice. */
  lemma PrimUnique(sets: seq<set<Var>>, core: seq<bool>, root: nat, g: Growth, g': Growth)
    requires IsPrim(sets, core, root, g) && IsPrim(sets, core, root, g')
    ensures g == g'
  {
    PrimSameTo(sets, core, root, g, g', |g.order|);
    PrimSameTo(sets, core, root, g', g, |g'.order|);
    assert g.order[..|g.order|] == g.order && g'.order[..|g'.order|] == g'.order;
    assert g.up[..|g.up|] == g.up && g'.up[..|g'.up|] == g'.up;
  }

  /** Exactly the core atoms not yet in the tree are unvisited. */
  ghost predicate Visits(core: seq<bool>, g: Growth, visited: seq<bool>) {
    && |visited| == |core| && (forall x: nat :: x < |core| ==> (visited[x] <==> !core[x] || x in g.order))
    && (forall x :: x in g.order ==> x < |core| && core[x])
  }

  lemma VisitsGrow(core: seq<bool>, g: Growth, at: nat, c: nat, visited: seq<bool>)
    requires Visits(core, g, visited) && c < |core| && !visited[c]
    ensures c !in g.order && Visits(core, GrowChild(g, at, c), visited[c := true])
  {
    assert GrowChild(g, at, c).order[|g.order|] == c;
  }

  /** A tree under growth: its nodes are the visited core atoms, and its edges overlap by `overlap` together. */
  ghost predicate TreeGrown(sets: seq<set<Var>>, core: seq<bool>, root: nat, g: Growth, tree: map<nat, seq<nat>>,
                            visited: seq<bool>, overlap: nat)
    requires root < |sets| == |core|
  {
    Partial(sets, g, tree, overlap) && g.order[0] == root && Visits(core, g, visited)
  }

  /** The heap holds only edges the tree's nodes offered, and all that they offered to unvisited nodes. */
  ghost predicate HeapOk(sets: seq<set<Var>>, g: Growth, visited: seq<bool>, heap: seq<Entry>)
    requires |sets| == |visited| && Grown(g) && SpanningTrees.Within(sets, g.order)
  {
    && (forall e :: e in heap ==> IsOffer(sets, g, |g.order|, e))
    && (forall j: nat, x: nat :: j < |g.order| && x < |visited| && !visited[x] ==> OfferAt(sets, g, j, x) in heap)
  }

  /** A greatest entry for an unvisited node is the edge the node then hangs by: an entry offered from the root without
      overlap never comes before the root's own offer. */
  lemma TrueEdge(sets: seq<set<Var>>, g: Growth, visited: seq<bool>, heap: seq<Entry>, e: Entry) returns (at: nat)
    requires |sets| == |visited| && Grown(g) && SpanningTrees.Within(sets, g.order) && g.order != []
    requires HeapOk(sets, g, visited, heap)
    requires e in heap && (forall f :: f in heap ==> !Above(f, e)) && e.child < |visited| && !visited[e.child]
    ensures at < |g.order| && e.parent == Some(g.order[at]) && e.overlap == Overlap(sets, g.order[at], e.child)
    ensures e.depth == Level(g, at) + 1
  {
    assert IsOffer(sets, g, |g.order|, e);
    var j :| 0 <= j < |g.order| && e == OfferAt(sets, g, j, e.child);
    if Overlap(sets, g.order[j], e.child) > 0 {
      at := j;
    } else {
      at := 0;
      var f := OfferAt(sets, g, 0, e.child);
      assert f in heap && !Above(f, e);
    }
  }

  lemma SameMembers(heap: seq<Entry>, rest: seq<Entry>, e: Entry)
    requires multiset(heap) == multiset(rest) + multiset{e}
    ensures forall f :: f in heap <==> f in rest || f == e
  {
    assert forall f :: f in heap <==> f in multiset(heap);
    assert forall f :: f in rest <==> f in multiset(rest);
  }

  lemma SkipKeepsHeap(sets: seq<set<Var>>, g: Growth, visited: seq<bool>, heap: seq<Entry>, rest: seq<Entry>, e: Entry)
    requires |sets| == |visited| && Grown(g) && SpanningTrees.Within(sets, g.order) && HeapOk(sets, g, visited, heap)
    requires multiset(heap) == multiset(rest) + multiset{e} && e.child < |visited| && visited[e.child]
    ensures HeapOk(sets, g, visited, rest)
  {
    SameMembers(heap, rest, e);
  }

  lemma GrowSame(sets: seq<set<Var>>, g: Growth, at: nat, c: nat)
    requires Grown(g) && at < |g.order| && c !in g.order && Grown(GrowChild(g, at, c))
    ensures SameTo(g, GrowChild(g, at, c), |g.order|)
  {
  }

  /** An offer stays one when the tree grows. */
  lemma OfferGrows(sets: seq<set<Var>>, g: Growth, g': Growth, n: nat, e: Entry)
    requires Grown(g) && Grown(g') && SpanningTrees.Within(sets, g.order) && SpanningTrees.Within(sets, g'.order)
    requires SameTo(g, g', n) && IsOffer(sets, g, n, e)
    ensures IsOffer(sets, g', n, e) && IsOffer(sets, g', |g'.order|, e)
  {
    var j :| 0 <= j < n && e == OfferAt(sets, g, j, e.child);
    OfferSame(sets, g, g', n, j, e.child);
  }

  /** What the nodes before the `i`-th took, they took whatever comes after. */
  lemma TakesStays(sets: seq<set<Var>>, core: seq<bool>, g: Growth, g': Growth, i: nat)
    requires |sets| == |core| && Grown(g) && Grown(g') && SpanningTrees.Within(sets, g.order)
    requires SpanningTrees.Within(sets, g'.order)
    requires 0 < i < |g.order| && SameTo(g, g', i + 1) && Takes(sets, core, g, i)
    ensures Takes(sets, core, g', i)
  {
    EntrySame(sets, g, g', i);
    OfferGrows(sets, g, g', i, EntryAt(sets, g, i));
    forall j: nat, x: nat | j < i && Waits(core, g', i, x)
      ensures !Above(OfferAt(sets, g', j, x), EntryAt(sets, g', i))
    {
      assert g.order[..i] == g.order[..i + 1][..i] && g'.order[..i] == g'.order[..i + 1][..i];
      assert Waits(core, g, i, x);
      OfferSame(sets, g, g', i, j, x);
    }
  }

  lemma EntrySame(sets: seq<set<Var>>, g: Growth, g': Growth, i: nat)
    requires Grown(g) && Grown(g') && SpanningTrees.Within(sets, g.order) && SpanningTrees.Within(sets, g'.order)
    requires 0 < i < |g.order| && SameTo(g, g', i + 1)
    ensures SameTo(g, g', i) && EntryAt(sets, g, i) == EntryAt(sets, g', i)
  {
    var n := i + 1;
    assert forall k :: 0 <= k < n ==> g.up[k] == g.up[..n][k] && g.order[k] == g.order[..n][k];
    assert forall k :: 0 <= k < n ==> g'.up[k] == g'.up[..n][k] && g'.order[k] == g'.order[..n][k];
    LevelSame(g, g', i);
    assert g.order[..i] == g.order[..n][..i] && g'.order[..i] == g'.order[..n][..i];
    assert g.up[..i] == g.up[..n][..i] && g'.up[..i] == g'.up[..n][..i];
  }

  lemma NoneAbove(sets: seq<set<Var>>, core: seq<bool>, g: Growth, g': Growth, visited: seq<bool>, heap: seq<Entry>,
                  e: Entry, j: nat, x: nat)
    requires |sets| == |core| && Grown(g) && Grown(g') && SpanningTrees.Within(sets, g.order)
    requires SpanningTrees.Within(sets, g'.order)
    requires Visits(core, g, visited) && HeapOk(sets, g, visited, heap) && (forall f :: f in heap ==> !Above(f, e))
    requires SameTo(g, g', |g.order|) && j < |g.order| && Waits(core, g', |g.order|, x)
    ensures !Above(OfferAt(sets, g', j, x), e)
  {
    assert g.order[..|g.order|] == g.order;
    OfferSame(sets, g, g', |g.order|, j, x);
    assert OfferAt(sets, g, j, x) in heap;
  }

  /** The node of a greatest entry takes the greatest offer. */
  lemma VisitTakes(sets: seq<set<Var>>, core: seq<bool>, g: Growth, visited: seq<bool>, heap: seq<Entry>, e: Entry,
                   at: nat)
    requires |sets| == |core| && Grown(g) && SpanningTrees.Within(sets, g.order) && Visits(core, g, visited)
    requires HeapOk(sets, g, visited, heap) && e in heap && (forall f :: f in heap ==> !Above(f, e)) && e.child < |core|
    requires !visited[e.child]
    requires at < |g.order| && e.parent == Some(g.order[at]) && e.overlap == Overlap(sets, g.order[at], e.child)
    requires e.depth == Level(g, at) + 1
    requires Grown(GrowChild(g, at, e.child)) && SpanningTrees.Within(sets, GrowChild(g, at, e.child).order)
    requires TakesAll(sets, core, g)
    ensures TakesAll(sets, core, GrowChild(g, at, e.child))
  {
    var g' := GrowChild(g, at, e.child);
    VisitsGrow(core, g, at, e.child, visited);
    GrowSame(sets, g, at, e.child);
    EntryTaken(sets, g, at, e);
    LastTakes(sets, core, g, g', visited, heap, e);
    AllTake(sets, core, g, g', e);
  }

  lemma AllTake(sets: seq<set<Var>>, core: seq<bool>, g: Growth, g': Growth, e: Entry)
    requires |sets| == |core| && Grows(sets, g, g', e) && TakesAll(sets, core, g) && Takes(sets, core, g', |g.order|)
    ensures TakesAll(sets, core, g')
  {
    var n := |g.order|;
    forall i | 0 < i < n
      ensures Takes(sets, core, g', i)
    {
      assert g'.order[..i + 1] == g'.order[..n][..i + 1] && g'.up[..i + 1] == g'.up[..n][..i + 1];
      assert g.order[..i + 1] == g.order[..n][..i + 1] && g.up[..i + 1] == g.up[..n][..i + 1];
      TakesStays(sets, core, g, g', i);
    }
  }

  lemma LastTakes(sets: seq<set<Var>>, core: seq<bool>, g: Growth, g': Growth, visited: seq<bool>, heap: seq<Entry>,
                  e: Entry)
    requires |sets| == |core| && Grows(sets, g, g', e) && EntryAt(sets, g', |g.order|) == e
    requires Visits(core, g, visited) && HeapOk(sets, g, visited, heap) && e in heap
    requires (forall f :: f in heap ==> !Above(f, e))
    ensures Takes(sets, core, g', |g.order|)
  {
    OfferGrows(sets, g, g', |g.order|, e);
    forall j: nat, x: nat | j < |g.order| && Waits(core, g', |g.order|, x)
      ensures !Above(OfferAt(sets, g', j, x), e)
    {
      NoneAbove(sets, core, g, g', visited, heap, e, j, x);
    }
  }

  /** The entry's node joined the tree. */
  ghost predicate Grows(sets: seq<set<Var>>, g: Growth, g': Growth, e: Entry) {
    && Grown(g) && Grown(g') && SpanningTrees.Within(sets, g.order) && SpanningTrees.Within(sets, g'.order)
    && g.order != []
    && SameTo(g, g', |g.order|) && |g'.order| == |g.order| + 1 && g'.order[0] == g.order[0]
    && g'.order[|g.order|] == e.child && e.child < |sets|
    && Level(g', |g.order|) == e.depth
  }

  lemma EntryTaken(sets: seq<set<Var>>, g: Growth, at: nat, e: Entry)
    requires Grown(g) && SpanningTrees.Within(sets, g.order) && e.child < |sets| && e.child !in g.order
    requires at < |g.order| && e.parent == Some(g.order[at]) && e.overlap == Overlap(sets, g.order[at], e.child)
    requires e.depth == Level(g, at) + 1
    requires Grown(GrowChild(g, at, e.child)) && SpanningTrees.Within(sets, GrowChild(g, at, e.child).order)
    ensures EntryAt(sets, GrowChild(g, at, e.child), |g.order|) == e
    ensures Level(GrowChild(g, at, e.child), |g.order|) == e.depth
  {
    var g', n := GrowChild(g, at, e.child), |g.order|;
    assert g'.order[n] == e.child && g'.up[n] == at && g'.order[at] == g.order[at];
    LevelSame(g, g', at);
  }

  lemma VisitKeepsHeap(sets: seq<set<Var>>, core: seq<bool>, g: Growth, at: nat, visited: seq<bool>, heap: seq<Entry>,
                       rest: seq<Entry>, e: Entry, heap': seq<Entry>)
    requires |sets| == |core| && Grown(g) && SpanningTrees.Within(sets, g.order) && g.order != []
    requires Visits(core, g, visited)
    requires HeapOk(sets, g, visited, heap) && multiset(heap) == multiset(rest) + multiset{e} && e.child < |core|
    requires !visited[e.child]
    requires at < |g.order| && e.parent == Some(g.order[at]) && e.overlap == Overlap(sets, g.order[at], e.child)
    requires e.depth == Level(g, at) + 1
    requires Grown(GrowChild(g, at, e.child)) && SpanningTrees.Within(sets, GrowChild(g, at, e.child).order)
    requires Pushed(sets, visited[e.child := true], g.order[0], e.child, e.depth, rest, heap', |sets|)
    ensures HeapOk(sets, GrowChild(g, at, e.child), visited[e.child := true], heap')
  {
    var g', n := GrowChild(g, at, e.child), |g.order|;
    SameMembers(heap, rest, e);
    VisitsGrow(core, g, at, e.child, visited);
    GrowSame(sets, g, at, e.child);
    EntryTaken(sets, g, at, e);
    HeapOffers(sets, g, g', e, visited[e.child := true], rest, heap');
    HeapMisses(sets, g, g', e, visited[e.child := true], rest, heap');
  }

  /** What is pushed, the new node offers. */
  lemma HeapOffers(sets: seq<set<Var>>, g: Growth, g': Growth, e: Entry, visited: seq<bool>, rest: seq<Entry>,
                   heap': seq<Entry>)
    requires Grows(sets, g, g', e) && |visited| == |sets|
    requires Pushed(sets, visited, g.order[0], e.child, e.depth, rest, heap', |sets|)
    requires forall f :: f in rest ==> IsOffer(sets, g, |g.order|, f)
    ensures forall f :: f in heap' ==> IsOffer(sets, g', |g'.order|, f)
  {
    forall f | f in heap'
      ensures IsOffer(sets, g', |g'.order|, f)
    {
      if f in rest {
        OfferGrows(sets, g, g', |g.order|, f);
      } else {
        assert f == OfferAt(sets, g', |g.order|, f.child);
      }
    }
  }

  lemma HeapMisses(sets: seq<set<Var>>, g: Growth, g': Growth, e: Entry, visited: seq<bool>, rest: seq<Entry>,
                   heap': seq<Entry>)
    requires Grows(sets, g, g', e) && |visited| == |sets|
    requires Pushed(sets, visited, g.order[0], e.child, e.depth, rest, heap', |sets|)
    requires forall j: nat, x: nat :: j < |g.order| && x < |visited| && !visited[x] ==> OfferAt(sets, g, j, x) in rest
    ensures forall j: nat, x: nat :: j < |g'.order| && x < |visited| && !visited[x] ==> OfferAt(sets, g', j, x) in heap'
  {
    forall j: nat, x: nat | j < |g'.order| && x < |visited| && !visited[x]
      ensures OfferAt(sets, g', j, x) in heap'
    {
      if j < |g.order| {
        OfferSame(sets, g, g', |g.order|, j, x);
      } else {
        assert OfferAt(sets, g', j, x) == Offer(sets, g.order[0], e.child, e.depth, x);
      }
    }
  }

  lemma {:induction false} EdgeOverlapGrows(sets: seq<set<Var>>, g: Growth, p: nat, c: nat, n: nat)
    requires Grown(g) && p < |g.order| && c !in g.order && n <= |g.order| && c < |sets|
    requires Grown(GrowChild(g, p, c)) && SpanningTrees.Within(sets, g.order)
    requires SpanningTrees.Within(sets, GrowChild(g, p, c).order)
    ensures EdgeOverlap(sets, GrowChild(g, p, c), n) == EdgeOverlap(sets, g, n)
  {
    if n > 1 {
      EdgeOverlapGrows(sets, g, p, c, n - 1);
    }
  }

  /** A tree over some nodes, and the overlap of its edges. */
  ghost predicate Partial(sets: seq<set<Var>>, g: Growth, tree: map<nat, seq<nat>>, overlap: nat) {
    && Grown(g) && IsTreeOf(g, tree) && SpanningTrees.Within(sets, g.order) && g.order != []
    && overlap == EdgeOverlap(sets, g, |g.order|)
  }

  lemma HangGrows(sets: seq<set<Var>>, g: Growth, tree: map<nat, seq<nat>>, overlap: nat, at: nat, parent: nat, c: nat)
    requires Partial(sets, g, tree, overlap) && at < |g.order| && g.order[at] == parent && c < |sets| && c !in g.order
    ensures parent in tree
    ensures Partial(sets, GrowChild(g, at, c), Hang(tree, parent, c), overlap + Overlap(sets, parent, c))
  {
    GrowsChild(g, tree, at, c);
    OverlapAfter(sets, g, at, c);
  }

  lemma OverlapAfter(sets: seq<set<Var>>, g: Growth, at: nat, c: nat)
    requires Grown(g) && Grown(GrowChild(g, at, c)) && SpanningTrees.Within(sets, g.order)
    requires at < |g.order| && c < |sets| && c !in g.order
    ensures SpanningTrees.Within(sets, GrowChild(g, at, c).order)
    ensures EdgeOverlap(sets, GrowChild(g, at, c), |GrowChild(g, at, c).order|) ==
      EdgeOverlap(sets, g, |g.order|) + Overlap(sets, g.order[at], c)
  {
    var g', n := GrowChild(g, at, c), |g.order|;
    assert g'.order[n] == c && g'.up[n] == at && g'.order[at] == g.order[at];
    EdgeOverlapGrows(sets, g, at, c, n);
  }

  /** Visiting a node hangs it below its parent, and adds the edge's overlap. */
  lemma VisitGrowsTree(sets: seq<set<Var>>, core: seq<bool>, root: nat, g: Growth, tree: map<nat, seq<nat>>,
                       visited: seq<bool>, overlap: nat, at: nat, c: nat)
    requires root < |sets| == |core| && TreeGrown(sets, core, root, g, tree, visited, overlap)
    requires at < |g.order| && c < |core| && !visited[c]
    ensures TreeGrown(sets, core, root, GrowChild(g, at, c), Hang(tree, g.order[at], c), visited[c := true],
      overlap + Overlap(sets, g.order[at], c))
  {
    VisitsGrow(core, g, at, c, visited);
    HangGrows(sets, g, tree, overlap, at, g.order[at], c);
  }

  /* ------------------------------------------------------------------ */
  /* The loop                                                             */
  /* ------------------------------------------------------------------ */

  ghost function Unvisited(visited: seq<bool>): set<nat> {
    set x: nat | x < |visited| && !visited[x]
  }

  lemma VisitShrinks(visited: seq<bool>, c: nat)
    requires c < |visited| && !visited[c]
    ensures |Unvisited(visited[c := true])| < |Unvisited(visited)|
  {
    assert Unvisited(visited[c := true]) == Unvisited(visited) - {c};
  }

  /** A spanning tree of exactly the core atoms, and the overlap of its edges. */
  ghost predicate Spanning(sets: seq<set<Var>>, core: seq<bool>, root: nat, g: Growth, tree: map<nat, seq<nat>>,
                           overlap: nat)
  {
    && |sets| == |core| && Partial(sets, g, tree, overlap) && g.order[0] == root
    && (forall x: nat :: x in g.order <==> x < |core| && core[x])
  }

  /** The tree under growth is Prim's so far, and the heap holds its offers. */
  ghost predicate PrimGrows(sets: seq<set<Var>>, core: seq<bool>, root: nat, g: Growth, tree: map<nat, seq<nat>>,
                            visited: seq<bool>, overlap: nat, heap: seq<Entry>)
  {
    && root < |sets| == |core| && TreeGrown(sets, core, root, g, tree, visited, overlap) && g.up[0] == 0
    && TakesAll(sets, core, g) && HeapOk(sets, g, visited, heap)
  }

  /** Prim's algorithm from one root. The heap runs empty only once every core atom hangs in the tree. */
  method SpanFrom(sets: seq<set<Var>>, core: seq<bool>, root: nat)
    returns (tree: map<nat, seq<nat>>, overlap: nat, g: Growth)
    requires |sets| == |core| && root < |core| && core[root]
    ensures Spanning(sets, core, root, g, tree, overlap) && IsPrim(sets, core, root, g)
  {
    var visited := seq(|core|, i requires 0 <= i < |core| => !core[i])[root := true];
    tree, overlap, g := map[root := []], 0, Growth([root], [0]);
    var heap := PushNeighbors(sets, visited, root, root, 0, []);
    RootGrown(sets, core, root, visited, heap);
    while heap != []
      invariant PrimGrows(sets, core, root, g, tree, visited, overlap, heap)
      decreases |Unvisited(visited)|, |heap|
    {
      var e, rest := Pop(heap);
      SameMembers(heap, rest, e);
      assert IsOffer(sets, g, |g.order|, e);
      if visited[e.child] {
        SkipKeepsHeap(sets, g, visited, heap, rest, e);
        heap := rest;
        continue;
      }
      ghost var before, offers := visited, heap;
      visited := visited[e.child := true];
      heap := PushNeighbors(sets, visited, root, e.child, e.depth, rest);
      VisitStep(sets, core, root, g, tree, before, overlap, offers, e, rest, heap);
      tree, overlap := Hang(tree, e.parent.value, e.child), overlap + e.overlap;
      g := GrowChild(g, Position(g.order, e.parent.value), e.child);
    }
    AllVisited(sets, core, g, visited, heap);
  }

  lemma AllVisited(sets: seq<set<Var>>, core: seq<bool>, g: Growth, visited: seq<bool>, heap: seq<Entry>)
    requires |sets| == |core| && Grown(g) && SpanningTrees.Within(sets, g.order) && g.order != []
    requires Visits(core, g, visited) && HeapOk(sets, g, visited, heap)
    ensures heap == [] ==> forall x: nat :: x in g.order <==> x < |core| && core[x]
  {
    forall x: nat | x < |core| && !visited[x]
      ensures heap != []
    {
      assert OfferAt(sets, g, 0, x) in heap;
    }
  }

  /** Visiting the node of a greatest entry keeps the invariant. */
  lemma VisitStep(sets: seq<set<Var>>, core: seq<bool>, root: nat, g: Growth, tree: map<nat, seq<nat>>,
                  visited: seq<bool>, overlap: nat,
                  heap: seq<Entry>, e: Entry, rest: seq<Entry>, heap': seq<Entry>)
    requires PrimGrows(sets, core, root, g, tree, visited, overlap, heap)
    requires multiset(heap) == multiset(rest) + multiset{e} && (forall f :: f in heap ==> !Above(f, e))
    requires e.child < |core| && !visited[e.child]
    requires Pushed(sets, visited[e.child := true], root, e.child, e.depth, rest, heap', |sets|)
    ensures e.parent.Some? && e.parent.value in g.order && e.parent.value in tree
    ensures PrimGrows(sets, core, root, GrowChild(g, Position(g.order, e.parent.value), e.child),
      Hang(tree, e.parent.value, e.child), visited[e.child := true], overlap + e.overlap, heap')
    ensures |Unvisited(visited[e.child := true])| < |Unvisited(visited)|
  {
    SameMembers(heap, rest, e);
    var at := TrueEdge(sets, g, visited, heap, e);
    assert Position(g.order, e.parent.value) == at;
    VisitGrowsTree(sets, core, root, g, tree, visited, overlap, at, e.child);
    VisitTakes(sets, core, g, visited, heap, e, at);
    VisitKeepsHeap(sets, core, g, at, visited, heap, rest, e, heap');
    VisitShrinks(visited, e.child);
  }

  lemma RootGrown(sets: seq<set<Var>>, core: seq<bool>, root: nat, visited: seq<bool>, heap: seq<Entry>)
    requires |sets| == |core| == |visited| && root < |core| && core[root]
    requires forall x: nat :: x < |core| ==> (visited[x] <==> !core[x] || x == root)
    requires Pushed(sets, visited, root, root, 0, [], heap, |sets|)
    ensures PrimGrows(sets, core, root, Growth([root], [0]), map[root := []], visited, 0, heap)
  {
    var g := Growth([root], [0]);
    assert forall x: nat :: x < |sets| ==> OfferAt(sets, g, 0, x) == Offer(sets, root, root, 0, x);
    forall e | e in heap
      ensures IsOffer(sets, g, 1, e)
    {
      assert e == OfferAt(sets, g, 0, e.child);
    }
  }
}

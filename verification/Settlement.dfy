/** Settling captured updates: every worker's signed weights, summed into one set of rows. */
module Settlement {
  import opened Datalog
  import opened FlatRows

  /** A row, and by how much its weight changed. */
  datatype Update = Update(row: Row, weight: int)

  function RowsOf(us: seq<Update>): (r: seq<Row>)
    ensures |r| == |us| && forall i :: 0 <= i < |r| ==> r[i] == us[i].row
  {
    seq(|us|, i requires 0 <= i < |us| => us[i].row)
  }

  function WeightsOf(us: seq<Update>): (r: seq<int>)
    ensures |r| == |us| && forall i :: 0 <= i < |r| ==> r[i] == us[i].weight
  {
    seq(|us|, i requires 0 <= i < |us| => us[i].weight)
  }

  /** The total weight of a row in a list of updates. */
  function Weight(us: seq<Update>, row: Row): int {
    if us == [] then 0 else Weight(us[..|us| - 1], row) + if us[|us| - 1].row == row then us[|us| - 1].weight else 0
  }

  lemma {:induction false} WeightConcat(a: seq<Update>, b: seq<Update>, row: Row)
    ensures Weight(a + b, row) == Weight(a, row) + Weight(b, row)
  {
    if b == [] {
      assert a + b == a;
    } else {
      WeightConcat(a, b[..|b| - 1], row);
      assert (a + b)[..|a + b| - 1] == a + b[..|b| - 1];
    }
  }

  lemma WeightOne(u: Update, row: Row)
    ensures Weight([u], row) == if u.row == row then u.weight else 0
  {
    assert [u][..0] == [];
  }

  lemma {:induction false} WeightAbsent(us: seq<Update>, row: Row)
    requires forall i :: 0 <= i < |us| ==> us[i].row != row
    ensures Weight(us, row) == 0
  {
    if us != [] {
      WeightAbsent(us[..|us| - 1], row);
    }
  }

  /** Strictly sorted rows, each with a weight that is not zero. */
  ghost predicate Settled(us: seq<Update>) {
    StrictlySorted(RowsOf(us)) && forall i :: 0 <= i < |us| ==> us[i].weight != 0
  }

  /** In settled updates a row's total weight is the one it is listed with. */
  lemma SettledWeight(us: seq<Update>, i: nat)
    requires Settled(us) && i < |us|
    ensures Weight(us, us[i].row) == us[i].weight
  {
    forall j | 0 <= j < |us| && j != i
      ensures us[j].row != us[i].row
    {
      RowLessTotal(RowsOf(us)[j], RowsOf(us)[i]);
    }
    WeightOnce(us, i);
  }

  lemma WeightOnce(us: seq<Update>, i: nat)
    requires i < |us| && forall j :: 0 <= j < |us| && j != i ==> us[j].row != us[i].row
    ensures Weight(us, us[i].row) == us[i].weight
  {
    var row := us[i].row;
    WeightAbsent(us[..i], row);
    WeightAbsent(us[i + 1..], row);
    assert us == us[..i] + us[i..];
    WeightConcat(us[..i], us[i..], row);
    WeightHead(us, i, row);
  }

  /* ------------------------------------------------------------------ */
  /* Batches                                                              */
  /* ------------------------------------------------------------------ */

  /** Updates laid out flat: the rows' cells one after another, and one weight each. */
  datatype UpdateBatch = UpdateBatch(cells: seq<Val>, weights: seq<int>)

  ghost predicate Lays(batch: UpdateBatch, arity: nat, us: seq<Update>) {
    Wide(RowsOf(us), arity) && batch.cells == Flat(RowsOf(us)) && batch.weights == WeightsOf(us)
  }

  lemma LaysAppend(batch: UpdateBatch, arity: nat, us: seq<Update>, u: Update)
    requires Lays(batch, arity, us) && |u.row| == arity
    ensures Lays(UpdateBatch(batch.cells + u.row, batch.weights + [u.weight]), arity, us + [u])
  {
    assert RowsOf(us + [u]) == RowsOf(us) + [u.row];
    FlatConcat(RowsOf(us), [u.row]);
    FlatOne(u.row);
  }

  lemma LaysRow(batch: UpdateBatch, arity: nat, us: seq<Update>, i: nat)
    requires Lays(batch, arity, us) && i < |us|
    ensures 0 <= i * arity <= (i + 1) * arity <= |batch.cells| && i < |batch.weights|
    ensures batch.cells[i * arity..(i + 1) * arity] == us[i].row && batch.weights[i] == us[i].weight
  {
    FlatRow(RowsOf(us), arity, i);
  }

  lemma LaysFrom(batch: UpdateBatch, arity: nat, us: seq<Update>, i: nat)
    requires Lays(batch, arity, us) && i <= |us|
    ensures 0 <= i * arity <= |batch.cells| && i <= |batch.weights|
    ensures Lays(UpdateBatch(batch.cells[i * arity..], batch.weights[i..]), arity, us[i..])
  {
    assert RowsOf(us)[i..] == RowsOf(us[i..]);
    FlatFrom(RowsOf(us), arity, i);
  }

  lemma LaysConcat(a: UpdateBatch, b: UpdateBatch, arity: nat, us: seq<Update>, vs: seq<Update>)
    requires Lays(a, arity, us) && Lays(b, arity, vs)
    ensures Lays(UpdateBatch(a.cells + b.cells, a.weights + b.weights), arity, us + vs)
  {
    assert RowsOf(us + vs) == RowsOf(us) + RowsOf(vs);
    FlatConcat(RowsOf(us), RowsOf(vs));
  }

  /* ------------------------------------------------------------------ */
  /* Merging                                                              */
  /* ------------------------------------------------------------------ */

  /** What is merged so far, `ms`, and what is left of the two sides: together the weights of both, all merged rows
      before all rows left. */
  ghost predicate Merging(left: seq<Update>, right: seq<Update>, i: nat, j: nat, ms: seq<Update>) {
    && i <= |left| && j <= |right| && Settled(ms)
    && (forall row :: Weight(ms, row) + Weight(left[i..], row) + Weight(right[j..], row) == Weight(left, row) + Weight(right, row))
    && (forall m, k :: 0 <= m < |ms| && i <= k < |left| ==> RowLess(ms[m].row, left[k].row))
    && (forall m, k :: 0 <= m < |ms| && j <= k < |right| ==> RowLess(ms[m].row, right[k].row))
  }

  lemma WeightHead(us: seq<Update>, i: nat, row: Row)
    requires i < |us|
    ensures Weight(us[i..], row) == Weight(us[i + 1..], row) + if us[i].row == row then us[i].weight else 0
  {
    assert us[i..] == [us[i]] + us[i + 1..];
    WeightConcat([us[i]], us[i + 1..], row);
    WeightOne(us[i], row);
  }

  lemma SettledAppend(ms: seq<Update>, u: Update)
    requires Settled(ms) && u.weight != 0 && forall m :: 0 <= m < |ms| ==> RowLess(ms[m].row, u.row)
    ensures Settled(ms + [u])
  {
  }

  lemma TakeLeft(left: seq<Update>, right: seq<Update>, i: nat, j: nat, ms: seq<Update>)
    requires Settled(left) && Settled(right) && Merging(left, right, i, j, ms) && i < |left|
    requires forall k :: j <= k < |right| ==> RowLess(left[i].row, right[k].row)
    ensures Merging(left, right, i + 1, j, ms + [left[i]])
  {
    SettledAppend(ms, left[i]);
    forall row
      ensures Weight(ms + [left[i]], row) + Weight(left[i + 1..], row) == Weight(ms, row) + Weight(left[i..], row)
    {
      WeightHead(left, i, row);
      WeightConcat(ms, [left[i]], row);
      WeightOne(left[i], row);
    }
    assert forall k :: i < k < |left| ==> RowLess(RowsOf(left)[i], RowsOf(left)[k]);
  }

  lemma TakeRight(left: seq<Update>, right: seq<Update>, i: nat, j: nat, ms: seq<Update>)
    requires Settled(left) && Settled(right) && Merging(left, right, i, j, ms) && j < |right|
    requires forall k :: i <= k < |left| ==> RowLess(right[j].row, left[k].row)
    ensures Merging(left, right, i, j + 1, ms + [right[j]])
  {
    SettledAppend(ms, right[j]);
    forall row
      ensures Weight(ms + [right[j]], row) + Weight(right[j + 1..], row) == Weight(ms, row) + Weight(right[j..], row)
    {
      WeightHead(right, j, row);
      WeightConcat(ms, [right[j]], row);
      WeightOne(right[j], row);
    }
    assert forall k :: j < k < |right| ==> RowLess(RowsOf(right)[j], RowsOf(right)[k]);
  }

  /** A row both sides hold is kept with the sum of its weights, or not at all when they cancel. */
  lemma TakeBoth(left: seq<Update>, right: seq<Update>, i: nat, j: nat, ms: seq<Update>)
    requires Settled(left) && Settled(right) && Merging(left, right, i, j, ms) && i < |left| && j < |right|
    requires left[i].row == right[j].row
    ensures var weight := left[i].weight + right[j].weight;
      Merging(left, right, i + 1, j + 1, if weight != 0 then ms + [Update(left[i].row, weight)] else ms)
  {
    var u := Update(left[i].row, left[i].weight + right[j].weight);
    forall row
      ensures Weight(left[i..], row) + Weight(right[j..], row) ==
        Weight(left[i + 1..], row) + Weight(right[j + 1..], row) + if u.row == row then u.weight else 0
    {
      WeightHead(left, i, row);
      WeightHead(right, j, row);
    }
    assert forall k :: i < k < |left| ==> RowLess(RowsOf(left)[i], RowsOf(left)[k]);
    assert forall k :: j < k < |right| ==> RowLess(RowsOf(right)[j], RowsOf(right)[k]);
    if u.weight != 0 {
      SettledAppend(ms, u);
      forall row
        ensures Weight(ms + [u], row) == Weight(ms, row) + if u.row == row then u.weight else 0
      {
        WeightConcat(ms, [u], row);
        WeightOne(u, row);
      }
    }
  }

  lemma AllAfter(us: seq<Update>, i: nat, row: Row)
    requires Settled(us) && i < |us| && RowLess(row, us[i].row)
    ensures forall k :: i <= k < |us| ==> RowLess(row, us[k].row)
  {
    AllAbove(RowsOf(us), i, row);
  }

  /** One side is used up: what is left of the other follows. */
  lemma MergeRest(left: seq<Update>, right: seq<Update>, i: nat, j: nat, ms: seq<Update>)
    requires Settled(left) && Settled(right) && Merging(left, right, i, j, ms) && (i == |left| || j == |right|)
    ensures Settled(ms + left[i..] + right[j..])
    ensures forall row :: Weight(ms + left[i..] + right[j..], row) == Weight(left, row) + Weight(right, row)
  {
    if i == |left| {
      assert left[i..] == [] && ms + left[i..] == ms;
      SettledSuffix(right, j);
      SettledConcat(ms, right[j..]);
    } else {
      SettledSuffix(left, i);
      SettledConcat(ms, left[i..]);
      assert right[j..] == [] && ms + left[i..] + right[j..] == ms + left[i..];
    }
    forall row
      ensures Weight(ms + left[i..] + right[j..], row) == Weight(left, row) + Weight(right, row)
    {
      WeightConcat(ms + left[i..], right[j..], row);
      WeightConcat(ms, left[i..], row);
    }
  }

  lemma SettledSuffix(us: seq<Update>, i: nat)
    requires Settled(us) && i <= |us|
    ensures Settled(us[i..])
  {
    assert RowsOf(us[i..]) == RowsOf(us)[i..];
  }

  lemma SettledConcat(a: seq<Update>, b: seq<Update>)
    requires Settled(a) && Settled(b) && forall m, k :: 0 <= m < |a| && 0 <= k < |b| ==> RowLess(a[m].row, b[k].row)
    ensures Settled(a + b)
  {
    forall m, k | 0 <= m < k < |a + b|
      ensures RowLess(RowsOf(a + b)[m], RowsOf(a + b)[k])
    {
      if k < |a| {
        assert RowLess(RowsOf(a)[m], RowsOf(a)[k]);
      } else if m >= |a| {
        assert RowLess(RowsOf(b)[m - |a|], RowsOf(b)[k - |a|]);
      }
    }
  }

  /** What one step of the merge makes of the cursors and of what is merged so far. */
  function Step(us: seq<Update>, vs: seq<Update>, i: nat, j: nat, ms: seq<Update>): (nat, nat, seq<Update>)
    requires i < |us| && j < |vs|
  {
    var mine, theirs := us[i], vs[j];
    if RowLess(mine.row, theirs.row) then
      (i + 1, j, ms + [mine])
    else if RowLess(theirs.row, mine.row) then
      (i, j + 1, ms + [theirs])
    else
      var weight := mine.weight + theirs.weight;
      (i + 1, j + 1, if weight != 0 then ms + [Update(mine.row, weight)] else ms)
  }

  lemma StepMerges(us: seq<Update>, vs: seq<Update>, i: nat, j: nat, ms: seq<Update>)
    requires Settled(us) && Settled(vs) && Merging(us, vs, i, j, ms) && i < |us| && j < |vs|
    ensures var next := Step(us, vs, i, j, ms); Merging(us, vs, next.0, next.1, next.2)
  {
    RowLessTotal(us[i].row, vs[j].row);
    if RowLess(us[i].row, vs[j].row) {
      AllAfter(vs, j, us[i].row);
      TakeLeft(us, vs, i, j, ms);
    } else if RowLess(vs[j].row, us[i].row) {
      AllAfter(us, i, vs[j].row);
      TakeRight(us, vs, i, j, ms);
    } else {
      TakeBoth(us, vs, i, j, ms);
    }
  }

  /** Advances the two cursors until one side is used up. */
  method MergeCommon(left: UpdateBatch, right: UpdateBatch, arity: nat, ghost us: seq<Update>, ghost vs: seq<Update>)
    returns (merged: UpdateBatch, i: nat, j: nat, ghost ms: seq<Update>)
    requires Lays(left, arity, us) && Lays(right, arity, vs) && Settled(us) && Settled(vs)
    ensures Lays(merged, arity, ms) && Merging(us, vs, i, j, ms) && (i == |us| || j == |vs|)
  {
    i, j, merged, ms := 0, 0, UpdateBatch([], []), [];
    assert us[0..] == us && vs[0..] == vs;
    while i < |left.weights| && j < |right.weights|
      invariant i <= |us| && j <= |vs| && Lays(merged, arity, ms) && Merging(us, vs, i, j, ms)
      decreases |us| - i + |vs| - j
    {
      merged, i, j, ms := MergeStep(left, right, arity, us, vs, merged, i, j, ms);
    }
  }

  method MergeStep(left: UpdateBatch, right: UpdateBatch, arity: nat, ghost us: seq<Update>, ghost vs: seq<Update>,
                   merged: UpdateBatch, i: nat, j: nat, ghost ms: seq<Update>)
    returns (merged': UpdateBatch, i': nat, j': nat, ghost ms': seq<Update>)
    requires Lays(left, arity, us) && Lays(right, arity, vs) && Settled(us) && Settled(vs)
    requires Lays(merged, arity, ms) && Merging(us, vs, i, j, ms) && i < |us| && j < |vs|
    ensures Lays(merged', arity, ms') && Merging(us, vs, i', j', ms')
    ensures i <= i' && j <= j' && i + j < i' + j'
  {
    StepMerges(us, vs, i, j, ms);
    merged', i', j', ms' := TakeNext(left, right, arity, us, vs, merged, i, j, ms);
  }

  /** Takes the smaller of the two next rows; of one row on both sides, the sum of the weights unless they cancel. */
  method TakeNext(left: UpdateBatch, right: UpdateBatch, arity: nat, ghost us: seq<Update>, ghost vs: seq<Update>,
                  merged: UpdateBatch, i: nat, j: nat, ghost ms: seq<Update>)
    returns (merged': UpdateBatch, i': nat, j': nat, ghost ms': seq<Update>)
    requires Lays(left, arity, us) && Lays(right, arity, vs) && Lays(merged, arity, ms) && i < |us| && j < |vs|
    ensures Lays(merged', arity, ms') && (i', j', ms') == Step(us, vs, i, j, ms)
  {
    LaysRow(left, arity, us, i);
    LaysRow(right, arity, vs, j);
    var mine, theirs := left.cells[i * arity..(i + 1) * arity], right.cells[j * arity..(j + 1) * arity];
    ms' := Step(us, vs, i, j, ms).2;
    merged', i', j' := merged, i, j;
    if RowLess(mine, theirs) {
      LaysAppend(merged, arity, ms, us[i]);
      merged' := UpdateBatch(merged.cells + mine, merged.weights + [left.weights[i]]);
      i' := i + 1;
    } else if RowLess(theirs, mine) {
      LaysAppend(merged, arity, ms, vs[j]);
      merged' := UpdateBatch(merged.cells + theirs, merged.weights + [right.weights[j]]);
      j' := j + 1;
    } else {
      var weight := left.weights[i] + right.weights[j];
      if weight != 0 {
        LaysAppend(merged, arity, ms, Update(mine, weight));
        merged' := UpdateBatch(merged.cells + mine, merged.weights + [weight]);
      }
      i', j' := i + 1, j + 1;
    }
  }

  /** Two sorted batches as one: a row both hold gets the sum of its weights, and goes when they cancel. */
  method MergeBatches(left: UpdateBatch, right: UpdateBatch, arity: nat, ghost us: seq<Update>, ghost vs: seq<Update>)
    returns (merged: UpdateBatch, ghost ms: seq<Update>)
    requires Lays(left, arity, us) && Lays(right, arity, vs) && Settled(us) && Settled(vs)
    ensures Lays(merged, arity, ms) && Settled(ms)
    ensures forall row :: Weight(ms, row) == Weight(us, row) + Weight(vs, row)
  {
    var i, j;
    merged, i, j, ms := MergeCommon(left, right, arity, us, vs);
    LaysFrom(left, arity, us, i);
    LaysFrom(right, arity, vs, j);
    MergeRest(us, vs, i, j, ms);
    var restLeft := UpdateBatch(left.cells[i * arity..], left.weights[i..]);
    var restRight := UpdateBatch(right.cells[j * arity..], right.weights[j..]);
    LaysConcat(merged, restLeft, arity, ms, us[i..]);
    merged := UpdateBatch(merged.cells + restLeft.cells, merged.weights + restLeft.weights);
    LaysConcat(merged, restRight, arity, ms + us[i..], vs[j..]);
    merged := UpdateBatch(merged.cells + restRight.cells, merged.weights + restRight.weights);
    ms := ms + us[i..] + vs[j..];
  }

  /* ------------------------------------------------------------------ */
  /* Consolidation                                                        */
  /* ------------------------------------------------------------------ */

  /** The total weight of a row over several batches. */
  function TotalWeight(uss: seq<seq<Update>>, row: Row): int {
    if uss == [] then 0 else TotalWeight(uss[..|uss| - 1], row) + Weight(uss[|uss| - 1], row)
  }

  ghost predicate LaysAll(batches: seq<UpdateBatch>, arity: nat, uss: seq<seq<Update>>) {
    |batches| == |uss| && forall k :: 0 <= k < |uss| ==> Lays(batches[k], arity, uss[k]) && Settled(uss[k])
  }

  lemma LaysAllAppend(batches: seq<UpdateBatch>, arity: nat, uss: seq<seq<Update>>, batch: UpdateBatch, us: seq<Update>)
    requires LaysAll(batches, arity, uss) && Lays(batch, arity, us) && Settled(us)
    ensures LaysAll(batches + [batch], arity, uss + [us])
  {
  }

  lemma TotalAppend(uss: seq<seq<Update>>, us: seq<Update>, row: Row)
    ensures TotalWeight(uss + [us], row) == TotalWeight(uss, row) + Weight(us, row)
  {
    assert (uss + [us])[..|uss|] == uss;
  }

  lemma TotalTake(uss: seq<seq<Update>>, k: nat, row: Row)
    requires k < |uss|
    ensures TotalWeight(uss[..k + 1], row) == TotalWeight(uss[..k], row) + Weight(uss[k], row)
  {
    assert uss[..k + 1][..k] == uss[..k];
  }

  /** Every row has the same total weight in both. */
  ghost predicate SameTotals(mss: seq<seq<Update>>, uss: seq<seq<Update>>) {
    forall row :: TotalWeight(mss, row) == TotalWeight(uss, row)
  }

  lemma CarryTotals(mss: seq<seq<Update>>, uss: seq<seq<Update>>, next: nat)
    requires next < |uss| && SameTotals(mss, uss[..next])
    ensures SameTotals(mss + [uss[next]], uss[..next + 1])
  {
    forall row
      ensures TotalWeight(mss + [uss[next]], row) == TotalWeight(uss[..next + 1], row)
    {
      TotalTake(uss, next, row);
      TotalAppend(mss, uss[next], row);
    }
  }

  lemma MergeTotals(mss: seq<seq<Update>>, uss: seq<seq<Update>>, next: nat, ms: seq<Update>)
    requires next + 1 < |uss| && SameTotals(mss, uss[..next])
    requires forall row :: Weight(ms, row) == Weight(uss[next], row) + Weight(uss[next + 1], row)
    ensures SameTotals(mss + [ms], uss[..next + 2])
  {
    forall row
      ensures TotalWeight(mss + [ms], row) == TotalWeight(uss[..next + 2], row)
    {
      TotalTake(uss, next, row);
      TotalTake(uss, next + 1, row);
      TotalAppend(mss, ms, row);
    }
  }

  /** One round of pairwise merging; an odd batch out is carried over. */
  method MergePairs(batches: seq<UpdateBatch>, arity: nat, ghost uss: seq<seq<Update>>)
    returns (merged: seq<UpdateBatch>, ghost mss: seq<seq<Update>>)
    requires LaysAll(batches, arity, uss)
    ensures LaysAll(merged, arity, mss) && |merged| == (|batches| + 1) / 2 && SameTotals(mss, uss)
  {
    merged, mss := [], [];
    var next := 0;
    while next < |batches|
      invariant next <= |batches| && LaysAll(merged, arity, mss) && SameTotals(mss, uss[..next])
      invariant |merged| == (next + 1) / 2 && (next % 2 == 1 ==> next == |batches|)
    {
      if next + 1 < |batches| {
        var one, ms := MergeBatches(batches[next], batches[next + 1], arity, uss[next], uss[next + 1]);
        MergeTotals(mss, uss, next, ms);
        LaysAllAppend(merged, arity, mss, one, ms);
        merged, mss := merged + [one], mss + [ms];
        next := next + 2;
      } else {
        CarryTotals(mss, uss, next);
        LaysAllAppend(merged, arity, mss, batches[next], uss[next]);
        merged, mss := merged + [batches[next]], mss + [uss[next]];
        next := next + 1;
      }
    }
    assert uss[..|batches|] == uss;
  }

  /** The rows whose weights sum to more than zero, strictly sorted and once each - however the batches were paired and
      wherever weights cancelled. */
  method Consolidate(updates: seq<UpdateBatch>, arity: nat, ghost uss: seq<seq<Update>>) returns (rows: Rows)
    requires LaysAll(updates, arity, uss)
    ensures fresh(rows) && rows.Valid() && rows.arity == arity && StrictlySorted(rows.contents)
    ensures forall row :: row in rows.contents <==> TotalWeight(uss, row) > 0
  {
    var batches := updates;
    ghost var kept := uss;
    while |batches| > 1
      invariant LaysAll(batches, arity, kept) && SameTotals(kept, uss)
      decreases |batches|
    {
      batches, kept := MergePairs(batches, arity, kept);
    }
    var batch := if batches == [] then UpdateBatch([], []) else batches[0];
    ghost var us := if kept == [] then [] else kept[0];
    forall row
      ensures Weight(us, row) == TotalWeight(uss, row)
    {
      assert TotalWeight(kept, row) == TotalWeight(uss, row);
      if kept != [] {
        TotalTake(kept, 0, row);
        assert kept[..0] == [] && kept[..1] == kept;
      }
    }
    rows := PositiveRows(batch, arity, us);
  }

  /** The rows of a settled batch with positive weights. */
  method PositiveRows(batch: UpdateBatch, arity: nat, ghost us: seq<Update>) returns (rows: Rows)
    requires Lays(batch, arity, us) && Settled(us)
    ensures fresh(rows) && rows.Valid() && rows.arity == arity && StrictlySorted(rows.contents)
    ensures forall row :: row in rows.contents <==> Weight(us, row) > 0
  {
    rows := new Rows(arity);
    for index := 0 to |batch.weights|
      invariant rows.Valid() && rows.arity == arity && fresh(rows)
      invariant rows.contents == Positive(us[..index])
    {
      PushPositive(rows, batch, arity, us, index);
    }
    assert us[..|us|] == us;
    PositiveSorted(us);
    forall row
      ensures row in rows.contents <==> Weight(us, row) > 0
    {
      PositiveWeight(us, row);
    }
  }

  method PushPositive(rows: Rows, batch: UpdateBatch, arity: nat, ghost us: seq<Update>, index: nat)
    requires Lays(batch, arity, us) && Settled(us) && index < |us|
    requires rows.Valid() && rows.arity == arity && rows.contents == Positive(us[..index])
    modifies rows
    ensures rows.Valid() && rows.contents == Positive(us[..index + 1])
  {
    PositiveNext(us, index);
    LaysRow(batch, arity, us, index);
    if batch.weights[index] > 0 {
      NoEmptyTwice(us, arity, index);
      rows.Push(batch.cells[index * arity..(index + 1) * arity]);
    }
  }

  lemma PositiveNext(us: seq<Update>, i: nat)
    requires i < |us|
    ensures Positive(us[..i + 1]) == if us[i].weight > 0 then Positive(us[..i]) + [us[i].row] else Positive(us[..i])
    ensures i == 0 ==> Positive(us[..i]) == []
  {
    assert us[..i + 1][..i] == us[..i];
  }

  function Positive(us: seq<Update>): seq<Row> {
    if us == [] then [] else Positive(us[..|us| - 1]) + if us[|us| - 1].weight > 0 then [us[|us| - 1].row] else []
  }

  lemma {:induction false} PositiveHas(us: seq<Update>, row: Row)
    ensures row in Positive(us) <==> exists i :: 0 <= i < |us| && us[i].row == row && us[i].weight > 0
  {
    if us != [] {
      var front := us[..|us| - 1];
      PositiveHas(front, row);
      assert forall i :: 0 <= i < |front| ==> front[i] == us[i];
    }
  }

  lemma {:induction false} PositiveSorted(us: seq<Update>)
    requires Settled(us)
    ensures StrictlySorted(Positive(us))
  {
    if us != [] {
      var n := |us| - 1;
      assert RowsOf(us[..n]) == RowsOf(us)[..n];
      PositiveSorted(us[..n]);
      forall k | 0 <= k < |Positive(us[..n])|
        ensures RowLess(Positive(us[..n])[k], us[n].row)
      {
        PositiveHas(us[..n], Positive(us[..n])[k]);
        var i :| 0 <= i < n && us[..n][i].row == Positive(us[..n])[k];
        assert RowLess(RowsOf(us)[i], RowsOf(us)[n]);
      }
    }
  }

  lemma PositiveWeight(us: seq<Update>, row: Row)
    requires Settled(us)
    ensures row in Positive(us) <==> Weight(us, row) > 0
  {
    PositiveHas(us, row);
    if i :| 0 <= i < |us| && us[i].row == row {
      SettledWeight(us, i);
      forall j | 0 <= j < |us| && us[j].row == row
        ensures us[j].weight == us[i].weight
      {
        SettledWeight(us, j);
      }
    } else {
      WeightAbsent(us, row);
    }
  }

  /** Without columns there is one row, so at most one update: no positive row comes before it. */
  lemma NoEmptyTwice(us: seq<Update>, arity: nat, i: nat)
    requires Settled(us) && Wide(RowsOf(us), arity) && i < |us|
    ensures arity == 0 ==> i == 0
  {
    assert arity == 0 ==> !RowLess(RowsOf(us)[0], RowsOf(us)[i]);
  }

  /* ------------------------------------------------------------------ */
  /* One worker's capture                                                 */
  /* ------------------------------------------------------------------ */

  predicate InOrder(us: seq<Update>) {
    forall i, j :: 0 <= i < j < |us| ==> !RowLess(us[j].row, us[i].row)
  }

  function Placed(u: Update, us: seq<Update>): (r: seq<Update>)
    ensures multiset(r) == multiset(us) + multiset{u}
  {
    if us == [] || RowLess(u.row, us[0].row) then
      [u] + us
    else
      assert us == [us[0]] + us[1..];
      [us[0]] + Placed(u, us[1..])
  }

  /** The updates in the order of their rows. */
  function Ordered(us: seq<Update>): (r: seq<Update>)
    ensures multiset(r) == multiset(us)
  {
    if us == [] then
      []
    else
      assert us == [us[0]] + us[1..];
      Placed(us[0], Ordered(us[1..]))
  }

  lemma {:induction false} PlacedInOrder(u: Update, us: seq<Update>)
    requires InOrder(us)
    ensures InOrder(Placed(u, us))
  {
    if us != [] && !RowLess(u.row, us[0].row) {
      PlacedInOrder(u, us[1..]);
      var rest := Placed(u, us[1..]);
      assert us == [us[0]] + us[1..];
      forall j | 0 <= j < |rest|
        ensures !RowLess(rest[j].row, us[0].row)
      {
        assert rest[j] in multiset(rest);
        assert rest[j] == u || rest[j] in us[1..];
      }
    } else if us != [] {
      forall j | 0 <= j < |us|
        ensures !RowLess(us[j].row, u.row)
      {
        RowLessTotal(us[j].row, u.row);
        if RowLess(us[j].row, u.row) {
          RowLessTransitive(us[j].row, u.row, us[0].row);
        }
        RowLessTotal(us[0].row, us[j].row);
      }
    }
  }

  lemma {:induction false} OrderedInOrder(us: seq<Update>)
    ensures InOrder(Ordered(us))
  {
    if us != [] {
      OrderedInOrder(us[1..]);
      PlacedInOrder(us[0], Ordered(us[1..]));
    }
  }

  lemma {:induction false} PlacedWeight(u: Update, us: seq<Update>, row: Row)
    ensures Weight(Placed(u, us), row) == Weight(us, row) + if u.row == row then u.weight else 0
  {
    WeightOne(u, row);
    if us == [] || RowLess(u.row, us[0].row) {
      WeightConcat([u], us, row);
    } else {
      PlacedWeight(u, us[1..], row);
      assert us == [us[0]] + us[1..];
      WeightConcat([us[0]], us[1..], row);
      WeightConcat([us[0]], Placed(u, us[1..]), row);
    }
  }

  lemma {:induction false} OrderedWeight(us: seq<Update>, row: Row)
    ensures Weight(Ordered(us), row) == Weight(us, row)
  {
    if us != [] {
      OrderedWeight(us[1..], row);
      PlacedWeight(us[0], Ordered(us[1..]), row);
      assert us == [us[0]] + us[1..];
      WeightConcat([us[0]], us[1..], row);
      WeightOne(us[0], row);
    }
  }

  ghost predicate Lists(us: seq<Update>, row: Row) {
    exists j :: 0 <= j < |us| && us[j].row == row
  }

  /** Folds the weights of neighbours with the same row into the first of them. */
  method FoldWeights(us: seq<Update>) returns (folded: seq<Update>)
    requires InOrder(us)
    ensures StrictlySorted(RowsOf(folded)) && forall row :: Weight(folded, row) == Weight(us, row)
    ensures forall i :: 0 <= i < |folded| ==> Lists(us, folded[i].row)
  {
    folded := FoldAll(us);
    FoldedRows(us);
    FoldedLists(us);
    forall row
      ensures Weight(folded, row) == Weight(us, row)
    {
      FoldedWeight(us, row);
    }
  }

  method FoldAll(us: seq<Update>) returns (folded: seq<Update>)
    ensures folded == Folded(us)
  {
    folded := [];
    for k := 0 to |us|
      invariant folded == Folded(us[..k])
    {
      FoldedNext(us, k);
      folded := FoldNext(folded, us[k]);
    }
    assert us[..|us|] == us;
  }

  /** Adds an update's weight to the last row if it has the same one, or starts a new row. */
  method FoldNext(folded: seq<Update>, u: Update) returns (r: seq<Update>)
    ensures r == FoldOne(folded, u)
  {
    if folded != [] && folded[|folded| - 1].row == u.row {
      var last := folded[|folded| - 1];
      r := folded[..|folded| - 1] + [Update(last.row, last.weight + u.weight)];
    } else {
      r := folded + [u];
    }
  }

  lemma FoldedNext(us: seq<Update>, k: nat)
    requires k < |us|
    ensures Folded(us[..k + 1]) == FoldOne(Folded(us[..k]), us[k])
  {
    assert us[..k + 1][..k] == us[..k] && us[..k + 1][k] == us[k];
  }

  function FoldOne(folded: seq<Update>, u: Update): seq<Update> {
    if folded != [] && folded[|folded| - 1].row == u.row then
      folded[..|folded| - 1] + [Update(u.row, folded[|folded| - 1].weight + u.weight)]
    else
      folded + [u]
  }

  function Folded(us: seq<Update>): seq<Update> {
    if us == [] then [] else FoldOne(Folded(us[..|us| - 1]), us[|us| - 1])
  }

  lemma FoldOneWeight(folded: seq<Update>, u: Update, row: Row)
    ensures Weight(FoldOne(folded, u), row) == Weight(folded, row) + if u.row == row then u.weight else 0
  {
    if folded != [] && folded[|folded| - 1].row == u.row {
      var front, last := folded[..|folded| - 1], folded[|folded| - 1];
      WeightConcat(front, [Update(u.row, last.weight + u.weight)], row);
      WeightOne(Update(u.row, last.weight + u.weight), row);
    } else {
      WeightConcat(folded, [u], row);
      WeightOne(u, row);
    }
  }

  lemma {:induction false} FoldedWeight(us: seq<Update>, row: Row)
    ensures Weight(Folded(us), row) == Weight(us, row)
  {
    if us != [] {
      FoldedWeight(us[..|us| - 1], row);
      FoldOneWeight(Folded(us[..|us| - 1]), us[|us| - 1], row);
    }
  }

  lemma {:induction false} FoldedLists(us: seq<Update>)
    ensures forall i :: 0 <= i < |Folded(us)| ==> Lists(us, Folded(us)[i].row)
  {
    if us != [] {
      var n := |us| - 1;
      FoldedLists(us[..n]);
      forall i | 0 <= i < |Folded(us)|
        ensures Lists(us, Folded(us)[i].row)
      {
        if Folded(us)[i].row != us[n].row {
          assert Lists(us[..n], Folded(us[..n])[i].row);
          var j :| 0 <= j < n && us[..n][j].row == Folded(us)[i].row;
          assert us[j].row == Folded(us)[i].row;
        }
      }
    }
  }

  lemma InOrderFront(us: seq<Update>)
    requires InOrder(us) && us != []
    ensures InOrder(us[..|us| - 1])
    ensures |us| > 1 ==> us[|us| - 2].row == us[|us| - 1].row || RowLess(us[|us| - 2].row, us[|us| - 1].row)
  {
    if |us| > 1 {
      assert !RowLess(us[|us| - 1].row, us[|us| - 2].row);
      RowLessTotal(us[|us| - 2].row, us[|us| - 1].row);
    }
  }

  /** The last row folded is the last one seen. */
  lemma {:induction false} FoldedLast(us: seq<Update>)
    requires us != []
    ensures Folded(us) != [] && Folded(us)[|Folded(us)| - 1].row == us[|us| - 1].row
  {
  }

  /** Folding sorted updates leaves each row once. */
  lemma {:induction false} FoldedRows(us: seq<Update>)
    requires InOrder(us)
    ensures StrictlySorted(RowsOf(Folded(us)))
  {
    if |us| == 1 {
      assert Folded(us[..0]) == [];
      FoldOneSorted([], us[0]);
    } else if us != [] {
      InOrderFront(us);
      FoldedRows(us[..|us| - 1]);
      FoldedLast(us[..|us| - 1]);
      FoldOneSorted(Folded(us[..|us| - 1]), us[|us| - 1]);
    }
  }

  lemma FoldOneSorted(folded: seq<Update>, u: Update)
    requires StrictlySorted(RowsOf(folded))
    requires folded != [] ==> folded[|folded| - 1].row == u.row || RowLess(folded[|folded| - 1].row, u.row)
    ensures StrictlySorted(RowsOf(FoldOne(folded, u)))
  {
    var next, last := FoldOne(folded, u), |folded| - 1;
    if folded != [] && folded[last].row == u.row {
      assert RowsOf(next) == RowsOf(folded);
    } else {
      forall i | 0 <= i < |folded|
        ensures RowLess(folded[i].row, u.row)
      {
        if i < last {
          assert RowLess(RowsOf(folded)[i], RowsOf(folded)[last]);
          RowLessTransitive(folded[i].row, folded[last].row, u.row);
        }
      }
      assert RowsOf(next) == RowsOf(folded) + [u.row];
    }
  }

  /** Publishes a worker's captured updates: sorted by row, weights folded, and rows whose weights cancelled dropped.
      The weight of every row is what the worker captured of it. */
  method Flush(captured: seq<Update>, arity: nat) returns (batch: UpdateBatch, ghost us: seq<Update>)
    requires forall i :: 0 <= i < |captured| ==> |captured[i].row| == arity
    ensures Lays(batch, arity, us) && Settled(us) && forall row :: Weight(us, row) == Weight(captured, row)
  {
    var ordered := Ordered(captured);
    OrderedInOrder(captured);
    var rows := FoldWeights(ordered);
    OrderedWide(captured, ordered, arity);
    batch, us := UpdateBatch([], []), [];
    for k := 0 to |rows|
      invariant Lays(batch, arity, us) && Settled(us)
      invariant forall row :: Weight(us, row) == Weight(rows[..k], row)
      invariant forall i :: 0 <= i < |us| ==> us[i] in rows[..k]
    {
      DropStep(rows, k, us);
      if rows[k].weight != 0 {
        assert Lists(ordered, rows[k].row);
        LaysAppend(batch, arity, us, rows[k]);
        batch := UpdateBatch(batch.cells + rows[k].row, batch.weights + [rows[k].weight]);
        us := us + [rows[k]];
      }
    }
    assert rows[..|rows|] == rows;
    forall row
      ensures Weight(us, row) == Weight(captured, row)
    {
      OrderedWeight(captured, row);
    }
  }

  lemma OrderedWide(captured: seq<Update>, ordered: seq<Update>, arity: nat)
    requires multiset(ordered) == multiset(captured) && forall i :: 0 <= i < |captured| ==> |captured[i].row| == arity
    ensures forall j :: 0 <= j < |ordered| ==> |ordered[j].row| == arity
  {
    forall j | 0 <= j < |ordered|
      ensures |ordered[j].row| == arity
    {
      assert ordered[j] in multiset(captured);
    }
  }

  lemma DropStep(rows: seq<Update>, k: nat, us: seq<Update>)
    requires StrictlySorted(RowsOf(rows)) && k < |rows| && Settled(us)
    requires (forall row :: Weight(us, row) == Weight(rows[..k], row))
    requires forall i :: 0 <= i < |us| ==> us[i] in rows[..k]
    ensures var next := if rows[k].weight != 0 then us + [rows[k]] else us;
      Settled(next) && (forall row :: Weight(next, row) == Weight(rows[..k + 1], row)) && forall i :: 0 <= i < |next| ==> next[i] in rows[..k + 1]
  {
    assert rows[..k + 1] == rows[..k] + [rows[k]];
    forall row
      ensures Weight(rows[..k + 1], row) == Weight(rows[..k], row) + if rows[k].row == row then rows[k].weight else 0
      ensures Weight(us + [rows[k]], row) == Weight(us, row) + if rows[k].row == row then rows[k].weight else 0
    {
      WeightConcat(rows[..k], [rows[k]], row);
      WeightConcat(us, [rows[k]], row);
      WeightOne(rows[k], row);
    }
    forall i | 0 <= i < |us|
      ensures RowLess(us[i].row, rows[k].row)
    {
      var j :| 0 <= j < k && rows[j] == us[i];
      assert RowLess(RowsOf(rows)[j], RowsOf(rows)[k]);
    }
    if rows[k].weight != 0 {
      SettledAppend(us, rows[k]);
    }
  }

  /** Every worker flushes, and the batches are consolidated: the relation holds, strictly sorted and once each, exactly
      the rows all workers' captured weights sum to more than zero. */
  method Settle(captures: seq<seq<Update>>, arity: nat) returns (rows: Rows)
    requires forall w, i :: 0 <= w < |captures| && 0 <= i < |captures[w]| ==> |captures[w][i].row| == arity
    ensures fresh(rows) && rows.Valid() && rows.arity == arity && StrictlySorted(rows.contents)
    ensures forall row :: row in rows.contents <==> TotalWeight(captures, row) > 0
  {
    var batches: seq<UpdateBatch> := [];
    ghost var uss: seq<seq<Update>> := [];
    for w := 0 to |captures|
      invariant LaysAll(batches, arity, uss) && SameTotals(uss, captures[..w])
    {
      var batch, us := Flush(captures[w], arity);
      FlushTotals(uss, captures, w, us);
      // an empty batch is not published
      if batch.weights != [] {
        batches, uss := batches + [batch], uss + [us];
      }
    }
    assert captures[..|captures|] == captures;
    rows := Consolidate(batches, arity, uss);
  }

  lemma FlushTotals(uss: seq<seq<Update>>, captures: seq<seq<Update>>, w: nat, us: seq<Update>)
    requires w < |captures| && SameTotals(uss, captures[..w])
    requires forall row :: Weight(us, row) == Weight(captures[w], row)
    ensures SameTotals(uss + [us], captures[..w + 1]) && (us == [] ==> SameTotals(uss, captures[..w + 1]))
  {
    forall row
      ensures TotalWeight(uss + [us], row) == TotalWeight(captures[..w + 1], row)
      ensures (us == [] ==> TotalWeight(uss, row) == TotalWeight(captures[..w + 1], row))
    {
      TotalTake(captures, w, row);
      TotalAppend(uss, us, row);
    }
  }
}

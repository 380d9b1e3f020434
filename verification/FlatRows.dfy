/** A relation as one array of cells: appending, searching, sorting. */
module FlatRows {
  import opened Datalog

  /* ------------------------------------------------------------------ */
  /* The order of rows                                                    */
  /* ------------------------------------------------------------------ */

  /** Lexicographic order; a proper prefix comes first. */
  predicate RowLess(a: Row, b: Row) {
    if b == [] then false
    else if a == [] then true
    else a[0] < b[0] || (a[0] == b[0] && RowLess(a[1..], b[1..]))
  }

  lemma {:induction false} RowLessTotal(a: Row, b: Row)
    ensures RowLess(a, b) || RowLess(b, a) || a == b
    ensures !(RowLess(a, b) && RowLess(b, a)) && !RowLess(a, a)
    decreases |a|
  {
    if a != [] {
      RowLessTotal(a[1..], if b == [] then [] else b[1..]);
      RowLessTotal(a[1..], a[1..]);
      if b != [] && a[0] == b[0] && a[1..] == b[1..] {
        assert a == [a[0]] + a[1..] && b == [b[0]] + b[1..];
      }
    }
  }

  /** Up to `k` the rows agree; there the first has the smaller cell, or ends. */
  predicate LessAt(a: Row, b: Row, k: nat) {
    k <= |a| && k < |b| && a[..k] == b[..k] && (k < |a| ==> a[k] < b[k])
  }

  /** A row is less than another if it has the smaller cell where they first differ, or is a shorter beginning of it. */
  lemma {:induction false} FirstDifference(a: Row, b: Row)
    ensures RowLess(a, b) <==> exists k: nat :: LessAt(a, b, k)
    decreases |a|
  {
    if b != [] {
      if a == [] {
        assert LessAt(a, b, 0);
      } else {
        FirstDifference(a[1..], b[1..]);
        if a[0] < b[0] {
          assert LessAt(a, b, 0);
        } else if RowLess(a, b) {
          var k: nat :| LessAt(a[1..], b[1..], k);
          LessLater(a, b, k);
        }
        if k: nat :| LessAt(a, b, k) && k > 0 {
          LessLater(a, b, k - 1);
        }
      }
    }
  }

  lemma LessLater(a: Row, b: Row, k: nat)
    requires a != [] && b != []
    ensures LessAt(a, b, k + 1) <==> a[0] == b[0] && LessAt(a[1..], b[1..], k)
  {
    if k < |a| && k + 1 < |b| {
      assert a[..k + 1] == [a[0]] + a[1..][..k] && b[..k + 1] == [b[0]] + b[1..][..k];
    }
  }

  lemma {:induction false} RowLessTransitive(a: Row, b: Row, c: Row)
    requires RowLess(a, b) && RowLess(b, c)
    ensures RowLess(a, c)
    decreases |a|
  {
    if a != [] && a[0] == b[0] == c[0] {
      RowLessTransitive(a[1..], b[1..], c[1..]);
    }
  }

  ghost predicate StrictlySorted(rows: seq<Row>) {
    forall i, j :: 0 <= i < j < |rows| ==> RowLess(rows[i], rows[j])
  }

  /* ------------------------------------------------------------------ */
  /* The flat layout                                                      */
  /* ------------------------------------------------------------------ */

  function Flat(rows: seq<Row>): seq<Val> {
    if rows == [] then [] else Flat(rows[..|rows| - 1]) + rows[|rows| - 1]
  }

  predicate Wide(rows: seq<Row>, arity: nat) {
    forall i :: 0 <= i < |rows| ==> |rows[i]| == arity
  }

  lemma {:induction false} FlatLength(rows: seq<Row>, arity: nat)
    requires Wide(rows, arity)
    ensures |Flat(rows)| == |rows| * arity
  {
    if rows != [] {
      var n := |rows| - 1;
      FlatLength(rows[..n], arity);
      assert (n + 1) * arity == n * arity + arity;
    }
  }

  lemma {:induction false} FlatConcat(a: seq<Row>, b: seq<Row>)
    ensures Flat(a + b) == Flat(a) + Flat(b)
  {
    if b == [] {
      assert a + b == a;
    } else {
      var front, last := b[..|b| - 1], b[|b| - 1];
      FlatConcat(a, front);
      assert (a + b)[..|a + b| - 1] == a + front;
      assert Flat(a) + (Flat(front) + last) == Flat(a) + Flat(front) + last;
    }
  }

  lemma FlatOne(row: Row)
    ensures Flat([row]) == row
  {
    assert [row][..0] == [];
  }

  /** Row `i` is the `i`-th stretch of `arity` cells; from there on the rows after it follow. */
  lemma FlatRow(rows: seq<Row>, arity: nat, i: nat)
    requires Wide(rows, arity) && i < |rows|
    ensures 0 <= i * arity <= (i + 1) * arity <= |Flat(rows)|
    ensures Flat(rows)[i * arity..(i + 1) * arity] == rows[i]
  {
    var before, after := rows[..i], rows[i + 1..];
    FlatConcat(before, [rows[i]]);
    FlatConcat(before + [rows[i]], after);
    FlatOne(rows[i]);
    assert rows == before + [rows[i]] + after;
    FlatLength(before, arity);
    FlatLength(rows, arity);
    assert (i + 1) * arity == i * arity + arity;
  }

  lemma FlatFrom(rows: seq<Row>, arity: nat, i: nat)
    requires Wide(rows, arity) && i <= |rows|
    ensures 0 <= i * arity <= |Flat(rows)| && Flat(rows)[i * arity..] == Flat(rows[i..])
  {
    FlatConcat(rows[..i], rows[i..]);
    assert rows == rows[..i] + rows[i..];
    FlatLength(rows[..i], arity);
  }

  /* ------------------------------------------------------------------ */
  /* Sorted rows, each once                                               */
  /* ------------------------------------------------------------------ */

  /** Adds a row to sorted distinct rows. */
  function Placed(row: Row, rows: seq<Row>): (r: seq<Row>)
    ensures forall x :: x in r <==> x in rows || x == row
  {
    if rows == [] || RowLess(row, rows[0]) then
      [row] + rows
    else if row == rows[0] then
      rows
    else
      assert rows == [rows[0]] + rows[1..];
      [rows[0]] + Placed(row, rows[1..])
  }

  /** The rows in order, each once. */
  function SortedDistinct(rows: seq<Row>): (r: seq<Row>)
    ensures forall x :: x in r <==> x in rows
  {
    if rows == [] then
      []
    else
      assert rows == [rows[0]] + rows[1..];
      Placed(rows[0], SortedDistinct(rows[1..]))
  }

  lemma {:induction false} PlacedSorted(row: Row, rows: seq<Row>)
    requires StrictlySorted(rows)
    ensures StrictlySorted(Placed(row, rows))
  {
    if rows == [] || RowLess(row, rows[0]) {
      if rows != [] {
        AllAbove(rows, 0, row);
      }
    } else if row != rows[0] {
      RowLessTotal(row, rows[0]);
      PlacedSorted(row, rows[1..]);
      var rest := Placed(row, rows[1..]);
      forall j | 0 <= j < |rest|
        ensures RowLess(rows[0], rest[j])
      {
        assert rest[j] in rest;
        if rest[j] != row {
          var k :| 0 <= k < |rows[1..]| && rows[1..][k] == rest[j];
          assert RowLess(rows[0], rows[k + 1]);
        }
      }
    }
  }

  lemma {:induction false} SortedDistinctSorted(rows: seq<Row>)
    ensures StrictlySorted(SortedDistinct(rows))
  {
    if rows != [] {
      SortedDistinctSorted(rows[1..]);
      PlacedSorted(rows[0], SortedDistinct(rows[1..]));
    }
  }

  /** Two strictly sorted lists of the same rows are one list. */
  lemma {:induction false} SortedUnique(a: seq<Row>, b: seq<Row>)
    requires StrictlySorted(a) && StrictlySorted(b) && forall x :: x in a <==> x in b
    ensures a == b
  {
    SameEmptiness(a, b);
    if a != [] {
      FirstsAgree(a, b);
      assert forall x :: x in a[1..] <==> x in b[1..] by {
        RestsAgree(a, b);
        RestsAgree(b, a);
      }
      SortedUnique(a[1..], b[1..]);
      assert a == [a[0]] + a[1..] && b == [b[0]] + b[1..];
    }
  }

  lemma SameEmptiness(a: seq<Row>, b: seq<Row>)
    requires forall x :: x in a <==> x in b
    ensures a == [] <==> b == []
  {
    if a != [] {
      assert a[0] in a;
    }
    if b != [] {
      assert b[0] in b;
    }
  }

  lemma FirstsAgree(a: seq<Row>, b: seq<Row>)
    requires a != [] && b != [] && StrictlySorted(a) && StrictlySorted(b) && forall x :: x in a <==> x in b
    ensures a[0] == b[0]
  {
    assert a[0] in a && b[0] in b;
    var i :| 0 <= i < |b| && b[i] == a[0];
    var j :| 0 <= j < |a| && a[j] == b[0];
    RowLessTotal(a[0], b[0]);
  }

  lemma RestsAgree(a: seq<Row>, b: seq<Row>)
    requires a != [] && b != [] && a[0] == b[0] && StrictlySorted(a) && StrictlySorted(b)
    requires forall x :: x in a <==> x in b
    ensures forall x :: x in a[1..] ==> x in b[1..]
  {
    forall x | x in a[1..]
      ensures x in b[1..]
    {
      var i :| 0 < i < |a| && a[i] == x;
      RowLessTotal(a[0], x);
      assert x in b;
      var j :| 0 <= j < |b| && b[j] == x;
      assert j > 0 && b[1..][j - 1] == x;
    }
  }

  /* ------------------------------------------------------------------ */
  /* The class                                                            */
  /* ------------------------------------------------------------------ */

  /** The rows of one relation. A relation without columns has at most one row, the empty one. */
  class Rows {
    const arity: nat
    var count: nat
    var cells: seq<Val>
    ghost var contents: seq<Row>

    ghost predicate Valid()
      reads this
    {
      Wide(contents, arity) && cells == Flat(contents) && count == |contents| && (arity == 0 ==> count <= 1)
    }

    constructor (arity: nat)
      ensures Valid() && this.arity == arity && contents == []
    {
      this.arity := arity;
      count, cells, contents := 0, [], [];
    }

    /** Adds a row at the end. Without columns there is only one row to add, so adding it twice changes nothing. */
    method Push(row: Row)
      requires Valid() && |row| == arity
      modifies this
      ensures Valid()
      ensures contents == if arity == 0 then [row] else old(contents) + [row]
    {
      if arity == 0 {
        count := 1;
        contents := [row];
        FlatOne(row);
        cells := [];
        return;
      }
      FlatConcat(contents, [row]);
      FlatOne(row);
      cells := cells + row;
      count := count + 1;
      contents := contents + [row];
    }

    /** Row `index`, cut from the cells. */
    function Get(index: nat): Row
      requires Valid() && index < count
      reads this
    {
      FlatRow(contents, arity, index);
      cells[index * arity..(index + 1) * arity]
    }

    /** Whether the rows are sorted and distinct: each is below the next. */
    method IsSortedSet() returns (sorted: bool)
      requires Valid()
      ensures sorted <==> StrictlySorted(contents)
    {
      var index := 1;
      while index < count
        invariant 1 <= index && (index <= count || index == 1) && (index <= count ==> StrictlySorted(contents[..index]))
      {
        var below := NextBelow(index);
        if !below {
          return false;
        }
        index := index + 1;
      }
      assert count <= 1 || contents[..count] == contents;
      return true;
    }

    method NextBelow(index: nat) returns (below: bool)
      requires Valid() && 0 < index < count && StrictlySorted(contents[..index])
      ensures if below then StrictlySorted(contents[..index + 1]) else !StrictlySorted(contents)
    {
      GetsContents(index - 1);
      GetsContents(index);
      below := RowLess(Get(index - 1), Get(index));
      if below {
        SortedSnoc(contents, index);
      }
    }

    lemma GetsContents(index: nat)
      requires Valid() && index < count
      ensures Get(index) == contents[index]
    {
      FlatRow(contents, arity, index);
    }

    /** Puts the rows in order, and keeps one of each. */
    method SortDedup()
      requires Valid()
      modifies this
      ensures Valid() && contents == SortedDistinct(old(contents)) && StrictlySorted(contents)
    {
      SortedDistinctSorted(contents);
      var already := IsSortedSet();
      if arity == 0 || count < 2 || already {
        SortedUnique(contents, SortedDistinct(contents));
        return;
      }
      var ordered := InOrder();
      SetRows(ordered);
    }

    /** The rows sorted, each once. */
    method InOrder() returns (ordered: seq<Row>)
      requires Valid()
      ensures ordered == SortedDistinct(contents) && Wide(ordered, arity)
    {
      ordered := [];
      for i := count downto 0
        invariant ordered == SortedDistinct(contents[i..])
      {
        GetsContents(i);
        assert contents[i..][0] == contents[i] && contents[i..][1..] == contents[i + 1..];
        ordered := Placed(Get(i), ordered);
      }
      assert contents[0..] == contents;
      assert forall i :: 0 <= i < |ordered| ==> ordered[i] in contents;
    }

    method SetRows(rows: seq<Row>)
      requires arity > 0 && Wide(rows, arity)
      modifies this
      ensures Valid() && contents == rows
    {
      var flat: seq<Val> := [];
      for i := 0 to |rows|
        invariant flat == Flat(rows[..i])
      {
        FlatConcat(rows[..i], [rows[i]]);
        FlatOne(rows[i]);
        assert rows[..i + 1] == rows[..i] + [rows[i]];
        flat := flat + rows[i];
      }
      assert rows[..|rows|] == rows;
      count, cells, contents := |rows|, flat, rows;
    }

    /** The position of a row among sorted rows, or where it would be inserted. */
    method BinarySearch(row: Row) returns (found: bool, position: nat)
      requires Valid() && StrictlySorted(contents)
      ensures found <==> row in contents
      ensures found ==> position < |contents| && contents[position] == row
      ensures !found ==> position <= |contents| && StrictlySorted(contents[..position] + [row] + contents[position..])
    {
      var low, high := 0, count;
      while low < high
        invariant low <= high <= count
        invariant forall i :: 0 <= i < low ==> RowLess(contents[i], row)
        invariant forall i :: high <= i < count ==> RowLess(row, contents[i])
      {
        var middle := low + (high - low) / 2;
        FlatRow(contents, arity, middle);
        RowLessTotal(contents[middle], row);
        if RowLess(Get(middle), row) {
          AllBelow(contents, middle, row);
          low := middle + 1;
        } else if RowLess(row, Get(middle)) {
          AllAbove(contents, middle, row);
          high := middle;
        } else {
          return true, middle;
        }
      }
      RowLessTotal(row, row);
      return false, low;
    }
  }

  lemma SortedSnoc(rows: seq<Row>, index: nat)
    requires 0 < index < |rows| && StrictlySorted(rows[..index]) && RowLess(rows[index - 1], rows[index])
    ensures StrictlySorted(rows[..index + 1])
  {
    forall i | 0 <= i < index - 1
      ensures RowLess(rows[i], rows[index])
    {
      assert RowLess(rows[..index][i], rows[..index][index - 1]);
      RowLessTransitive(rows[i], rows[index - 1], rows[index]);
    }
  }

  lemma AllBelow(rows: seq<Row>, middle: nat, row: Row)
    requires StrictlySorted(rows) && middle < |rows| && RowLess(rows[middle], row)
    ensures forall i :: 0 <= i <= middle ==> RowLess(rows[i], row)
  {
    forall i | 0 <= i < middle
      ensures RowLess(rows[i], row)
    {
      RowLessTransitive(rows[i], rows[middle], row);
    }
  }

  lemma AllAbove(rows: seq<Row>, middle: nat, row: Row)
    requires StrictlySorted(rows) && middle < |rows| && RowLess(row, rows[middle])
    ensures forall i :: middle <= i < |rows| ==> RowLess(row, rows[i])
  {
    forall i | middle < i < |rows|
      ensures RowLess(row, rows[i])
    {
      RowLessTransitive(row, rows[middle], rows[i]);
    }
  }
}

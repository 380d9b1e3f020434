/** Sorted runs merged to one, and a whole input file read by many workers. */
module Merging {
  import opened Datalog
  import opened FlatRows
  import opened Decimals
  import opened InputFiles
  import opened Lines

  /* ------------------------------------------------------------------ */
  /* Merging runs                                                         */
  /* ------------------------------------------------------------------ */

  /** Everything merged comes before everything left. */
  ghost predicate AllBefore(merged: seq<Row>, rest: seq<Row>) {
    forall m, k :: 0 <= m < |merged| && 0 <= k < |rest| ==> RowLess(merged[m], rest[k])
  }

  lemma SortedAppend(merged: seq<Row>, rest: seq<Row>)
    requires StrictlySorted(merged) && StrictlySorted(rest) && AllBefore(merged, rest)
    ensures StrictlySorted(merged + rest)
  {
  }

  /** Two runs as one; of a row both hold, one is kept. Runs that do not overlap are appended. */
  method Pair(left: seq<Row>, right: seq<Row>) returns (r: seq<Row>)
    requires StrictlySorted(left) && StrictlySorted(right)
    ensures StrictlySorted(r) && forall x :: x in r <==> x in left || x in right
  {
    if left == [] {
      return right;
    }
    if right == [] {
      return left;
    }
    if RowLess(left[|left| - 1], right[0]) {
      Apart(left, right);
      SortedAppend(left, right);
      return left + right;
    }
    if RowLess(right[|right| - 1], left[0]) {
      Apart(right, left);
      SortedAppend(right, left);
      return right + left;
    }
    r := Interleave(left, right);
  }

  lemma Apart(a: seq<Row>, b: seq<Row>)
    requires a != [] && b != [] && StrictlySorted(a) && StrictlySorted(b) && RowLess(a[|a| - 1], b[0])
    ensures AllBefore(a, b)
  {
    forall m, k | 0 <= m < |a| && 0 <= k < |b|
      ensures RowLess(a[m], b[k])
    {
      AllBelow(a, |a| - 1, b[0]);
      if k > 0 {
        RowLessTransitive(a[m], b[0], b[k]);
      }
    }
  }

  method Interleave(left: seq<Row>, right: seq<Row>) returns (r: seq<Row>)
    requires StrictlySorted(left) && StrictlySorted(right)
    ensures StrictlySorted(r) && forall x :: x in r <==> x in left || x in right
  {
    var i, j := 0, 0;
    r := [];
    while i < |left| && j < |right|
      invariant i <= |left| && j <= |right| && StrictlySorted(r) && AllBefore(r, left[i..]) && AllBefore(r, right[j..])
      invariant forall x :: x in r <==> x in left[..i] || x in right[..j]
      decreases |left| - i + |right| - j
    {
      RowLessTotal(left[i], right[j]);
      assert left[..i + 1] == left[..i] + [left[i]] && right[..j + 1] == right[..j] + [right[j]];
      assert left[i..][0] == left[i] && right[j..][0] == right[j];
      if RowLess(left[i], right[j]) {
        AllAbove(right, j, left[i]);
        r := r + [left[i]];
        i := i + 1;
      } else if RowLess(right[j], left[i]) {
        AllAbove(left, i, right[j]);
        r := r + [right[j]];
        j := j + 1;
      } else {
        r := r + [left[i]];
        i, j := i + 1, j + 1;
      }
    }
    assert left == left[..i] + left[i..] && right == right[..j] + right[j..];
    if i == |left| {
      assert left[i..] == [];
      SortedAppend(r, right[j..]);
    } else {
      SortedAppend(r, left[i..]);
    }
    r := r + left[i..] + right[j..];
  }

  ghost predicate InSomeRun(runs: seq<seq<Row>>, x: Row) {
    exists k :: 0 <= k < |runs| && x in runs[k]
  }

  /** All runs as one, divided in halves. */
  method Sorted(runs: seq<seq<Row>>) returns (r: seq<Row>)
    requires forall k :: 0 <= k < |runs| ==> StrictlySorted(runs[k])
    ensures StrictlySorted(r) && forall x :: x in r <==> InSomeRun(runs, x)
    decreases |runs|
  {
    if |runs| <= 1 {
      return if runs == [] then [] else runs[0];
    }
    var half := |runs| / 2;
    var left := Sorted(runs[..half]);
    var right := Sorted(runs[half..]);
    r := Pair(left, right);
    forall x
      ensures InSomeRun(runs, x) <==> InSomeRun(runs[..half], x) || InSomeRun(runs[half..], x)
    {
      HalvesHold(runs, half, x);
    }
  }

  lemma HalvesHold(runs: seq<seq<Row>>, half: nat, x: Row)
    requires half <= |runs|
    ensures InSomeRun(runs, x) <==> InSomeRun(runs[..half], x) || InSomeRun(runs[half..], x)
  {
    if k :| 0 <= k < |runs| && x in runs[k] {
      assert if k < half then runs[..half][k] == runs[k] else runs[half..][k - half] == runs[k];
    }
    if k :| 0 <= k < |runs[..half]| && x in runs[..half][k] {
      assert x in runs[k];
    }
    if k :| 0 <= k < |runs[half..]| && x in runs[half..][k] {
      assert x in runs[half + k];
    }
  }

  /* ------------------------------------------------------------------ */
  /* One input file, any number of workers                                */
  /* ------------------------------------------------------------------ */

  /** A reading as a relation's state: its rows sorted, each once. */
  function Settled(reading: Reading): Reading {
    if reading.Refused? then reading else Read(SortedDistinct(reading.rows))
  }

  /** Every reading as a sorted run, or its refusal. */
  function AllSettled(readings: seq<Reading>): (rs: seq<Reading>)
    ensures |rs| == |readings| && forall i :: 0 <= i < |rs| ==> rs[i] == Settled(readings[i])
  {
    seq(|readings|, i requires 0 <= i < |readings| => Settled(readings[i]))
  }

  /** The runs of several readings, or the first refusal among them. */
  function Collect(results: seq<Reading>): (r: Result<seq<seq<Row>>, Bytes>)
    ensures r.Ok? ==> |r.value| == |results| && forall k :: 0 <= k < |results| ==> results[k] == Read(r.value[k])
  {
    if results == [] then
      Ok([])
    else
      var front := Collect(results[..|results| - 1]);
      if front.Err? then front
      else if results[|results| - 1].Refused? then Err(results[|results| - 1].line)
      else Ok(front.value + [results[|results| - 1].rows])
  }

  datatype Result<T, E> = Ok(value: T) | Err(error: E)

  /** Collecting the settled readings agrees with chaining the readings: the same first refusal, or the same rows. */
  lemma {:induction false} CollectChain(readings: seq<Reading>)
    ensures match Chain(readings)
      case Refused(line) => Collect(AllSettled(readings)) == Err(line)
      case Read(rows) => Collect(AllSettled(readings)).Ok? && forall x :: x in rows <==> InSomeRun(Collect(AllSettled(readings)).value, x)
  {
    if readings != [] {
      var n := |readings| - 1;
      var front, last := AllSettled(readings[..n]), Settled(readings[n]);
      CollectChain(readings[..n]);
      assert AllSettled(readings)[..n] == front;
      if Collect(front).Ok? && last.Read? {
        InLastRun(Collect(front).value, last.rows);
      }
    }
  }

  lemma InLastRun(runs: seq<seq<Row>>, last: seq<Row>)
    ensures forall x :: InSomeRun(runs + [last], x) <==> InSomeRun(runs, x) || x in last
  {
    forall x
      ensures InSomeRun(runs + [last], x) <==> InSomeRun(runs, x) || x in last
    {
      if k :| 0 <= k < |runs| && x in runs[k] {
        assert (runs + [last])[k] == runs[k];
      }
      assert (runs + [last])[|runs|] == last;
    }
  }

  /** What a relation's state is by the file's lines: the first bad line if there is one, and otherwise, sorted and once
      each, the rows of the lines that are not empty; of a relation without columns, the empty row if there is a line.
      */
  ghost predicate StateOf(format: Format, lines: seq<Bytes>, reading: Reading) {
    match reading
    case Refused(bare) => format.arity > 0 && RefusedFor(format, lines, bare)
    case Read(rows) =>
      && StrictlySorted(rows) && (format.arity > 0 ==> NoneBad(format, lines))
      && forall row :: row in rows <==> if format.arity == 0 then row == [] && lines != [] else SomeHolds(format, lines, row)
  }

  ghost predicate SomeHolds(format: Format, lines: seq<Bytes>, row: Row) {
    exists k :: 0 <= k < |lines| && !Blank(lines[k]) && HoldsRow(format, lines[k], row)
  }

  lemma {:induction false} NonBlankAre(lines: seq<Bytes>)
    ensures forall line :: line in NonBlank(lines) <==> line in lines && !Blank(line)
  {
    if lines != [] {
      NonBlankAre(lines[1..]);
      assert lines == [lines[0]] + lines[1..];
    }
  }

  lemma {:induction false} RowsOfLines(format: Format, lines: seq<Bytes>, rows: seq<Row>, row: Row)
    requires RowsHeld(format, NonBlank(lines), rows)
    ensures row in rows <==> SomeHolds(format, lines, row)
  {
    var held := NonBlank(lines);
    NonBlankAre(lines);
    if row in rows {
      var i :| 0 <= i < |rows| && rows[i] == row;
      assert held[i] in held;
    }
    if SomeHolds(format, lines, row) {
      var k :| 0 <= k < |lines| && !Blank(lines[k]) && HoldsRow(format, lines[k], row);
      assert lines[k] in held;
      var i :| 0 <= i < |held| && held[i] == lines[k];
      RowIs(format, held[i], row);
      RowIs(format, held[i], rows[i]);
    }
  }

  /** A sorted file's state is what its lines say. */
  lemma SettledReads(format: Format, data: Bytes, lines: seq<Bytes>)
    requires IsLines(data, lines)
    ensures StateOf(format, lines, Settled(Serial(format, data)))
  {
    var reading := Serial(format, data);
    SerialReads(format, data, lines);
    if reading.Read? {
      SortedDistinctSorted(reading.rows);
      forall row
        ensures row in reading.rows <==>
          if format.arity == 0 then row == [] && lines != [] else SomeHolds(format, lines, row)
      {
        if format.arity == 0 {
          assert lines != [] ==> reading.rows[0] == [];
        } else {
          RowsOfLines(format, lines, reading.rows, row);
        }
      }
    }
  }

  /** Reads a file with any number of workers: always the serial reader's rows, sorted and each once, or its first
      refusal - which is what the file's lines say. */
  method ReadSortedFile(format: Format, data: Bytes, workers: nat) returns (r: Reading)
    requires workers > 0
    ensures r == Settled(Serial(format, data))
    ensures forall lines :: IsLines(data, lines) ==> StateOf(format, lines, r)
  {
    forall lines | IsLines(data, lines)
      ensures StateOf(format, lines, Settled(Serial(format, data)))
    {
      SettledReads(format, data, lines);
    }
    var results := ReadRanges(format, data, workers);
    CollectChain(RangeReadings(format, data, workers));
    ParallelIsSerial(format, data, workers);
    r := MergeResults(results, Serial(format, data));
  }

  /** Every worker reads, sorts and deduplicates its range. */
  method ReadRanges(format: Format, data: Bytes, workers: nat) returns (results: seq<Reading>)
    requires workers > 0
    ensures results == AllSettled(RangeReadings(format, data, workers)) && AllSorted(results)
  {
    ghost var readings := RangeReadings(format, data, workers);
    results := [];
    for index := 0 to workers
      invariant results == AllSettled(readings[..index]) && AllSorted(results)
    {
      var reading := ReadPartition(format, data, index, workers);
      SettledSorted(reading.value);
      SettledNext(readings, index);
      results := results + [Settled(reading.value)];
    }
    assert readings[..workers] == readings;
  }

  lemma SettledNext(readings: seq<Reading>, k: nat)
    requires k < |readings|
    ensures AllSettled(readings[..k + 1]) == AllSettled(readings[..k]) + [Settled(readings[k])]
  {
  }

  /** Every reading that is not refused is strictly sorted. */
  ghost predicate AllSorted(results: seq<Reading>) {
    forall i :: 0 <= i < |results| && results[i].Read? ==> StrictlySorted(results[i].rows)
  }

  lemma SettledSorted(reading: Reading)
    ensures Settled(reading).Read? ==> StrictlySorted(Settled(reading).rows)
  {
    if reading.Read? {
      SortedDistinctSorted(reading.rows);
    }
  }

  /** The first refusal, or the merged runs. */
  method MergeResults(results: seq<Reading>, ghost serial: Reading) returns (r: Reading)
    requires AllSorted(results)
    requires match serial
      case Refused(line) => Collect(results) == Err(line)
      case Read(rows) => Collect(results).Ok? && forall x :: x in rows <==> InSomeRun(Collect(results).value, x)
    ensures r == Settled(serial)
  {
    var runs := Collect(results);
    if runs.Err? {
      return Refused(runs.error);
    }
    var merged := Sorted(runs.value);
    SortedDistinctSorted(serial.rows);
    SortedUnique(merged, SortedDistinct(serial.rows));
    return Read(merged);
  }

  /** Writing a sorted relation and reading it back, with any number of workers, gives the relation. */
  method WriteThenRead(format: Format, rows: seq<Row>, workers: nat) returns (r: Reading)
    requires workers > 0 && StrictlySorted(rows) && Separates(format.delimiter)
    requires forall i :: 0 <= i < |rows| ==> Storable(format, rows[i])
    ensures r == Read(rows)
  {
    var file := WriteRelation(format, rows);
    r := ReadSortedFile(format, file, workers);
    RoundTrip(format, rows);
    SortedDistinctSorted(rows);
    SortedUnique(SortedDistinct(rows), rows);
  }
}

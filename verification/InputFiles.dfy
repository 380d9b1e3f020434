/** Input files: line by line, or in byte ranges side by side. */
module InputFiles {
  import opened Wrappers
  import opened Datalog
  import opened Decimals

  const NEWLINE: Byte := 10
  const RETURN: Byte := 13

  /** The width of a relation of numbers, and the byte between its cells. */
  datatype Format = Format(arity: nat, delimiter: Byte)

  /** What reading gives: the rows, or the first line refused. */
  datatype Reading = Read(rows: seq<Row>) | Refused(line: Bytes)

  /* ------------------------------------------------------------------ */
  /* One line                                                             */
  /* ------------------------------------------------------------------ */

  /** The cells between the delimiters; one more than there are delimiters. */
  function Split(line: Bytes, delimiter: Byte): (cells: seq<Bytes>)
    ensures cells != []
  {
    if line == [] then
      [[]]
    else
      var n := |line| - 1;
      var front := Split(line[..n], delimiter);
      if line[n] == delimiter then front + [[]] else front[..|front| - 1] + [front[|front| - 1] + [line[n]]]
  }

  /** The numbers of some cells, or `None` if one is no number. */
  function Numbers(cells: seq<Bytes>): (r: Option<Row>)
    ensures r.Some? ==> |r.value| == |cells|
  {
    if cells == [] then
      Some([])
    else
      var front :- Numbers(cells[..|cells| - 1]);
      var last :- StandardParse(cells[|cells| - 1]);
      Some(front + [last])
  }

  /** The row a line holds: as many cells as columns, every one a number. */
  function ParsedRow(format: Format, line: Bytes): Option<Row> {
    var cells := Split(line, format.delimiter);
    if |cells| == format.arity then Numbers(cells) else None
  }

  method ParseRow(format: Format, line: Bytes) returns (row: Option<Row>)
    ensures row == ParsedRow(format, line)
  {
    var cells := Split(line, format.delimiter);
    var values: Row := [];
    for k := 0 to |cells|
      invariant k <= format.arity ==> Numbers(cells[..k]) == Some(values)
    {
      assert cells[..k + 1][..k] == cells[..k];
      if k < format.arity {
        var value := ParseNumberCell(cells[k]);
        if value.None? {
          NumbersRefused(cells, k + 1);
          return None;
        }
        values := values + [value.value];
      }
    }
    assert cells[..|cells|] == cells;
    return if |cells| == format.arity then Some(values) else None;
  }

  lemma {:induction false} NumbersRefused(cells: seq<Bytes>, k: nat)
    requires k <= |cells| && Numbers(cells[..k]).None?
    ensures Numbers(cells).None?
  {
    if k == |cells| {
      assert cells[..k] == cells;
    } else {
      assert cells[..|cells| - 1][..k] == cells[..k];
      NumbersRefused(cells[..|cells| - 1], k);
    }
  }

  /** A line without its carriage return. */
  function Trimmed(line: Bytes): Bytes {
    if line != [] && line[|line| - 1] == RETURN then line[..|line| - 1] else line
  }

  /* ------------------------------------------------------------------ */
  /* The serial reader                                                    */
  /* ------------------------------------------------------------------ */

  /** Where the first line ends: its newline, or the end of the data. */
  function LineEnd(data: Bytes): (end: nat)
    ensures end <= |data| && (forall i :: 0 <= i < end ==> data[i] != NEWLINE)
    ensures (end < |data| ==> data[end] == NEWLINE)
  {
    if data == [] || data[0] == NEWLINE then 0 else 1 + LineEnd(data[1..])
  }

  function AfterLine(data: Bytes): (rest: Bytes)
    ensures data != [] ==> |rest| < |data|
  {
    if LineEnd(data) < |data| then data[LineEnd(data) + 1..] else []
  }

  function Before(first: Reading, rest: Reading): Reading {
    match first
    case Refused(_) => first
    case Read(rows) => if rest.Refused? then rest else Read(rows + rest.rows)
  }

  /** What one line contributes: nothing if empty, one row, or a refusal. A relation without columns has a row per
      line. */
  function LineRead(format: Format, line: Bytes): Reading {
    if format.arity == 0 then
      Read([[]])
    else if line == [] then
      Read([])
    else
      match ParsedRow(format, line)
      case None => Refused(line)
      case Some(row) => Read([row])
  }

  /** Reading line by line, up to the first line refused. */
  function Serial(format: Format, data: Bytes): Reading
    decreases |data|
  {
    if data == [] then
      Read([])
    else
      Before(LineRead(format, Trimmed(data[..LineEnd(data)])), Serial(format, AfterLine(data)))
  }

  lemma BeforeAssociates(a: Reading, b: Reading, c: Reading)
    ensures Before(Before(a, b), c) == Before(a, Before(b, c))
  {
    if a.Read? && b.Read? && c.Read? {
      assert (a.rows + b.rows) + c.rows == a.rows + (b.rows + c.rows);
    }
  }

  lemma BeforeNothing(a: Reading)
    ensures Before(Read([]), a) == a && Before(a, Read([])) == a
  {
    if a.Read? {
      assert [] + a.rows == a.rows && a.rows + [] == a.rows;
    }
  }

  predicate Whole(data: Bytes) {
    data == [] || data[|data| - 1] == NEWLINE
  }

  lemma {:induction false} LineEndConcat(a: Bytes, b: Bytes)
    requires a != [] && Whole(a)
    ensures LineEnd(a) < |a| && LineEnd(a + b) == LineEnd(a)
  {
    if a[0] != NEWLINE {
      assert (a + b)[1..] == a[1..] + b;
      LineEndConcat(a[1..], b);
    }
  }

  lemma FirstLineConcat(a: Bytes, b: Bytes)
    requires a != [] && Whole(a)
    ensures LineEnd(a + b) == LineEnd(a) && (a + b)[..LineEnd(a)] == a[..LineEnd(a)]
    ensures Whole(AfterLine(a)) && AfterLine(a + b) == AfterLine(a) + b
  {
    LineEndConcat(a, b);
  }

  /** Data cut at a line boundary reads as its parts one after the other. */
  lemma {:induction false} SerialConcat(format: Format, a: Bytes, b: Bytes)
    requires Whole(a)
    ensures Serial(format, a + b) == Before(Serial(format, a), Serial(format, b))
    decreases |a|
  {
    if a == [] {
      assert a + b == b;
      BeforeNothing(Serial(format, b));
    } else {
      FirstLineConcat(a, b);
      var first := LineRead(format, Trimmed(a[..LineEnd(a)]));
      SerialConcat(format, AfterLine(a), b);
      BeforeAssociates(first, Serial(format, AfterLine(a)), Serial(format, b));
    }
  }

  /** Reads all lines of some data, or stops at the first line refused. */
  method ReadLines(format: Format, data: Bytes) returns (r: Reading)
    ensures r == Serial(format, data)
  {
    var rows: seq<Row>, rest := [], data;
    BeforeNothing(Serial(format, data));
    while rest != []
      invariant Serial(format, data) == Before(Read(rows), Serial(format, rest))
      decreases |rest|
    {
      var end := LineEnd(rest);
      var line := Trimmed(rest[..end]);
      var next := AfterLine(rest);
      BeforeAssociates(Read(rows), LineRead(format, line), Serial(format, next));
      rest := next;
      if format.arity == 0 {
        rows := rows + [[]];
        continue;
      }
      if line == [] {
        BeforeNothing(Read(rows));
        continue;
      }
      var row := ParseRow(format, line);
      if row.None? {
        return Refused(line);
      }
      rows := rows + [row.value];
    }
    BeforeNothing(Read(rows));
    return Read(rows);
  }

  /* ------------------------------------------------------------------ */
  /* Byte ranges                                                          */
  /* ------------------------------------------------------------------ */

  /** The first byte from `p` on that begins a line, or the end of the data. */
  function LineStart(data: Bytes, p: nat): (q: nat)
    requires p <= |data|
    ensures p <= q <= |data|
    decreases |data| - p
  {
    if p == |data| || p == 0 || data[p - 1] == NEWLINE then p else LineStart(data, p + 1)
  }

  /** Behind a line start is a newline, or the beginning. */
  lemma {:induction false} LineStartWhole(data: Bytes, p: nat)
    requires p <= |data|
    ensures LineStart(data, p) < |data| ==> Whole(data[..LineStart(data, p)])
    decreases |data| - p
  {
    if !(p == |data| || p == 0 || data[p - 1] == NEWLINE) {
      LineStartWhole(data, p + 1);
    }
  }

  lemma {:induction false} LineStartMonotone(data: Bytes, p: nat, q: nat)
    requires p <= q <= |data|
    ensures LineStart(data, p) <= LineStart(data, q)
    ensures q <= LineStart(data, p) ==> LineStart(data, q) == LineStart(data, p)
    decreases q - p
  {
    if p < q {
      LineStartMonotone(data, p + 1, q);
    }
  }

  /** The bytes of some chunks of the same size. */
  function Chunks(chunk: nat, count: nat): nat {
    if count == 0 then 0 else Chunks(chunk, count - 1) + chunk
  }

  lemma {:induction false} ChunksProduct(chunk: nat, count: nat)
    ensures Chunks(chunk, count) == chunk * count
  {
    if count > 0 {
      ChunksProduct(chunk, count - 1);
      assert chunk * count == chunk * (count - 1) + chunk;
    }
  }

  lemma {:induction false} ChunksMonotone(chunk: nat, a: nat, b: nat)
    requires a <= b
    ensures Chunks(chunk, a) <= Chunks(chunk, b)
  {
    if a < b {
      ChunksMonotone(chunk, a, b - 1);
    }
  }

  /** Where a range starts before it is moved to a line boundary. */
  function RangeStart(size: nat, index: nat, peers: nat): (start: nat)
    requires peers > 0 && index <= peers
    ensures start <= size
  {
    RangesFit(size, index, peers);
    if index == peers then size else Chunks(size / peers, index)
  }

  lemma RangesFit(size: nat, index: nat, peers: nat)
    requires peers > 0 && index <= peers
    ensures Chunks(size / peers, index) <= size
  {
    ChunksMonotone(size / peers, index, peers);
    ChunksProduct(size / peers, peers);
  }

  lemma RangeOrdered(size: nat, index: nat, peers: nat)
    requires index < peers
    ensures RangeStart(size, index, peers) <= RangeStart(size, index + 1, peers)
  {
    RangesFit(size, index + 1, peers);
    ChunksMonotone(size / peers, index, index + 1);
  }

  /** The lines whose first byte is in the range. */
  function Range(data: Bytes, index: nat, peers: nat): Bytes
    requires index < peers
  {
    RangeOrdered(|data|, index, peers);
    var start, end := RangeStart(|data|, index, peers), RangeStart(|data|, index + 1, peers);
    LineStartMonotone(data, start, end);
    data[LineStart(data, start)..LineStart(data, end)]
  }

  /** The position after the first newline from `p` on, or the end of the data. */
  method SkipUntilNewline(data: Bytes, p: nat) returns (q: nat)
    requires 0 < p <= |data| && data[p - 1] != NEWLINE
    ensures q == LineStart(data, p)
  {
    q := p;
    while q < |data| && data[q] != NEWLINE
      invariant p <= q <= |data| && data[q - 1] != NEWLINE && LineStart(data, q) == LineStart(data, p)
    {
      q := q + 1;
    }
    if q < |data| {
      q := q + 1;
    }
  }

  /** Reading starts at the range's first line, and covers the range - or nothing, if no line starts in it. */
  ghost predicate Aligned(data: Bytes, index: nat, peers: nat, position: nat, remaining: nat)
    requires index < peers
  {
    var start, end := RangeStart(|data|, index, peers), RangeStart(|data|, index + 1, peers);
    if start == end then
      remaining == 0
    else
      position == LineStart(data, start) && if position <= end then position + remaining == end else remaining == 0
  }

  /** Aligns a range to the lines: where to read from, and how many bytes before finishing the last line. */
  method ByteRangeReader(data: Bytes, index: nat, peers: nat) returns (position: nat, remaining: nat)
    requires index < peers
    ensures position <= |data| && Aligned(data, index, peers, position, remaining)
  {
    if peers == 1 {
      assert RangeStart(|data|, 0, 1) == 0;
      return 0, |data|;
    }
    var chunk := |data| / peers;
    var start := chunk * index;
    var end := if index == peers - 1 then |data| else start + chunk;
    RangeOrdered(|data|, index, peers);
    ChunksProduct(chunk, index);
    assert start == RangeStart(|data|, index, peers) && end == RangeStart(|data|, index + 1, peers);
    if start == 0 || start == end {
      return 0, end - start;
    }
    position := start;
    if data[start - 1] != NEWLINE {
      position := SkipUntilNewline(data, start);
    }
    var skipped := position - start;
    remaining := if end - start < skipped then 0 else end - start - skipped;
  }

  /** Reads one range: exactly the lines whose first byte is in it, the last one whole. */
  method ReadPartition(format: Format, data: Bytes, index: nat, peers: nat) returns (r: Option<Reading>)
    ensures r.None? <==> peers == 0 || index >= peers
    ensures r.Some? ==> r.value == Serial(format, Range(data, index, peers))
  {
    if peers == 0 || index >= peers {
      return None;
    }
    var position, remaining := ByteRangeReader(data, index, peers);
    ghost var start, end := RangeStart(|data|, index, peers), RangeStart(|data|, index + 1, peers);
    RangeOrdered(|data|, index, peers);
    LineStartMonotone(data, start, end);
    var stop := if position + remaining < |data| then position + remaining else |data|;
    if position < stop && data[stop - 1] != NEWLINE {
      stop := SkipUntilNewline(data, stop);
    }
    RangeRead(data, index, peers, position, remaining, stop);
    var reading := ReadLines(format, data[position..stop]);
    return Some(reading);
  }

  lemma RangeRead(data: Bytes, index: nat, peers: nat, position: nat, remaining: nat, stop: nat)
    requires index < peers && position <= stop <= |data|
    requires Aligned(data, index, peers, position, remaining)
    requires var last := if position + remaining < |data| then position + remaining else |data|;
      stop == if position < last && data[last - 1] != NEWLINE then LineStart(data, last) else last
    ensures data[position..stop] == Range(data, index, peers)
  {
    var start, end := RangeStart(|data|, index, peers), RangeStart(|data|, index + 1, peers);
    RangeOrdered(|data|, index, peers);
    LineStartMonotone(data, start, end);
  }

  /** What each reader reads. */
  function RangeReadings(format: Format, data: Bytes, peers: nat): (rs: seq<Reading>)
    ensures |rs| == peers && forall i :: 0 <= i < peers ==> rs[i] == Serial(format, Range(data, i, peers))
  {
    seq(peers, i requires 0 <= i < peers => Serial(format, Range(data, i, peers)))
  }

  /** Readings one after another: all their rows, or the first refusal. */
  function Chain(readings: seq<Reading>): Reading {
    if readings == [] then Read([]) else Before(Chain(readings[..|readings| - 1]), readings[|readings| - 1])
  }

  /** Cutting at two line starts cuts the reading. */
  lemma CutReads(format: Format, data: Bytes, p: nat, q: nat)
    requires p <= q <= |data|
    ensures LineStart(data, p) <= LineStart(data, q)
    ensures Serial(format, data[..LineStart(data, q)]) ==
      Before(Serial(format, data[..LineStart(data, p)]), Serial(format, data[LineStart(data, p)..LineStart(data, q)]))
  {
    LineStartMonotone(data, p, q);
    var first, range := data[..LineStart(data, p)], data[LineStart(data, p)..LineStart(data, q)];
    assert first + range == data[..LineStart(data, q)];
    if LineStart(data, p) < |data| {
      LineStartWhole(data, p);
      SerialConcat(format, first, range);
    } else {
      assert range == [] && first + range == first;
      BeforeNothing(Serial(format, first));
    }
  }

  /** What comes before a range: all lines whose first byte is in a range below it. */
  function Prefix(data: Bytes, index: nat, peers: nat): Bytes
    requires peers > 0 && index <= peers
  {
    data[..LineStart(data, RangeStart(|data|, index, peers))]
  }

  lemma PrefixGrows(format: Format, data: Bytes, index: nat, peers: nat)
    requires index < peers
    ensures Serial(format, Prefix(data, index + 1, peers)) ==
      Before(Serial(format, Prefix(data, index, peers)), Serial(format, Range(data, index, peers)))
  {
    RangeOrdered(|data|, index, peers);
    CutReads(format, data, RangeStart(|data|, index, peers), RangeStart(|data|, index + 1, peers));
  }

  lemma PrefixEmpty(data: Bytes, peers: nat)
    requires peers > 0
    ensures Prefix(data, 0, peers) == []
  {
    assert RangeStart(|data|, 0, peers) == 0;
  }

  lemma PrefixWhole(data: Bytes, peers: nat)
    requires peers > 0
    ensures Prefix(data, peers, peers) == data
  {
  }

  function PrefixReadings(format: Format, data: Bytes, peers: nat): (rs: seq<Reading>)
    requires peers > 0
    ensures |rs| == peers + 1 && forall i :: 0 <= i <= peers ==> rs[i] == Serial(format, Prefix(data, i, peers))
  {
    seq(peers + 1, i requires 0 <= i <= peers => Serial(format, Prefix(data, i, peers)))
  }

  lemma PrefixesGrow(format: Format, data: Bytes, peers: nat)
    requires peers > 0
    ensures var whole := PrefixReadings(format, data, peers);
      forall i :: 0 <= i < peers ==> whole[i + 1] == Before(whole[i], RangeReadings(format, data, peers)[i])
  {
    forall i | 0 <= i < peers
      ensures PrefixReadings(format, data, peers)[i + 1] ==
        Before(PrefixReadings(format, data, peers)[i], RangeReadings(format, data, peers)[i])
    {
      PrefixGrows(format, data, i, peers);
    }
  }

  /** Readings that extend one another chain to the last of them. */
  lemma {:induction false} ChainTiles(readings: seq<Reading>, whole: seq<Reading>)
    requires |whole| == |readings| + 1 && whole[0] == Read([])
    requires forall i :: 0 <= i < |readings| ==> whole[i + 1] == Before(whole[i], readings[i])
    ensures Chain(readings) == whole[|readings|]
  {
    if readings != [] {
      ChainTiles(readings[..|readings| - 1], whole[..|readings|]);
    }
  }

  /** However many readers share a file, their rows in order are the serial reader's, or its first refusal. */
  lemma ParallelIsSerial(format: Format, data: Bytes, peers: nat)
    requires 0 < peers
    ensures Chain(RangeReadings(format, data, peers)) == Serial(format, data)
  {
    PrefixEmpty(data, peers);
    PrefixesGrow(format, data, peers);
    ChainTiles(RangeReadings(format, data, peers), PrefixReadings(format, data, peers));
    PrefixWhole(data, peers);
  }

  /* ------------------------------------------------------------------ */
  /* Writing                                                              */
  /* ------------------------------------------------------------------ */

  /** The cells of a row, printed, with the delimiter between them. */
  function Joined(cells: seq<Bytes>, delimiter: Byte): Bytes {
    if cells == [] then []
    else if |cells| == 1 then cells[0]
    else Joined(cells[..|cells| - 1], delimiter) + [delimiter] + cells[|cells| - 1]
  }

  function PrintedCells(row: Row): (cells: seq<Bytes>)
    ensures |cells| == |row| && forall i :: 0 <= i < |row| ==> cells[i] == Printed(row[i])
  {
    seq(|row|, i requires 0 <= i < |row| => Printed(row[i]))
  }

  function Line(format: Format, row: Row): Bytes {
    Joined(PrintedCells(row), format.delimiter) + [NEWLINE]
  }

  function File(format: Format, rows: seq<Row>): Bytes {
    if rows == [] then [] else File(format, rows[..|rows| - 1]) + Line(format, rows[|rows| - 1])
  }

  /** One line per row, its cells joined by the delimiter. */
  method WriteRelation(format: Format, rows: seq<Row>) returns (out: Bytes)
    ensures out == File(format, rows)
  {
    out := [];
    for k := 0 to |rows|
      invariant out == File(format, rows[..k])
    {
      var line := JoinCells(format, rows[k]);
      FileNext(format, rows, k);
      out := out + (line + [NEWLINE]);
    }
    assert rows[..|rows|] == rows;
  }

  /** One row's cells, joined by the delimiter. */
  method JoinCells(format: Format, row: Row) returns (line: Bytes)
    ensures line == Joined(PrintedCells(row), format.delimiter)
  {
    line := [];
    ghost var cells := PrintedCells(row);
    for column := 0 to |row|
      invariant line == Joined(cells[..column], format.delimiter)
    {
      JoinedNext(cells, format.delimiter, column);
      if column > 0 {
        line := line + [format.delimiter];
      }
      line := line + Printed(row[column]);
    }
    assert cells[..|row|] == cells;
  }

  lemma JoinedNext(cells: seq<Bytes>, delimiter: Byte, column: nat)
    requires column < |cells|
    ensures Joined(cells[..column + 1], delimiter) ==
      if column == 0 then cells[0] else Joined(cells[..column], delimiter) + [delimiter] + cells[column]
  {
    assert cells[..column + 1][..column] == cells[..column];
  }

  lemma FileNext(format: Format, rows: seq<Row>, k: nat)
    requires k < |rows|
    ensures File(format, rows[..k + 1]) == File(format, rows[..k]) + Line(format, rows[k])
  {
    assert rows[..k + 1][..k] == rows[..k];
  }

  predicate Without(cell: Bytes, byte: Byte) {
    forall i :: 0 <= i < |cell| ==> cell[i] != byte
  }

  lemma {:induction false} SplitPlain(cell: Bytes, delimiter: Byte)
    requires Without(cell, delimiter)
    ensures Split(cell, delimiter) == [cell]
  {
    if cell != [] {
      SplitPlain(cell[..|cell| - 1], delimiter);
      assert cell[..|cell| - 1] + [cell[|cell| - 1]] == cell;
    }
  }

  /** A delimiter ends a cell; every other byte extends the last one. */
  lemma SplitSnoc(line: Bytes, byte: Byte, delimiter: Byte)
    ensures var front := Split(line, delimiter);
      Split(line + [byte], delimiter) == if byte == delimiter then front + [[]] else front[..|front| - 1] + [front[|front| - 1] + [byte]]
  {
    assert (line + [byte])[..|line|] == line;
  }

  lemma {:induction false} SplitLast(line: Bytes, cell: Bytes, delimiter: Byte)
    requires Without(cell, delimiter)
    ensures Split(line + [delimiter] + cell, delimiter) == Split(line, delimiter) + [cell]
  {
    if cell == [] {
      SplitSnoc(line, delimiter, delimiter);
      assert line + [delimiter] + cell == line + [delimiter];
    } else {
      var front, byte := cell[..|cell| - 1], cell[|cell| - 1];
      SplitLast(line, front, delimiter);
      SplitSnoc(line + [delimiter] + front, byte, delimiter);
      assert cell == front + [byte];
      assert line + [delimiter] + cell == line + [delimiter] + front + [byte];
    }
  }

  /** Splitting undoes joining, when no cell holds the delimiter. */
  lemma {:induction false} SplitJoined(cells: seq<Bytes>, delimiter: Byte)
    requires cells != [] && forall i :: 0 <= i < |cells| ==> Without(cells[i], delimiter)
    ensures Split(Joined(cells, delimiter), delimiter) == cells
  {
    if |cells| == 1 {
      SplitPlain(cells[0], delimiter);
    } else {
      SplitJoined(cells[..|cells| - 1], delimiter);
      SplitJoinedStep(cells, delimiter);
    }
  }

  lemma SplitJoinedStep(cells: seq<Bytes>, delimiter: Byte)
    requires |cells| > 1 && Without(cells[|cells| - 1], delimiter)
    requires Split(Joined(cells[..|cells| - 1], delimiter), delimiter) == cells[..|cells| - 1]
    ensures Split(Joined(cells, delimiter), delimiter) == cells
  {
    var front, last := cells[..|cells| - 1], cells[|cells| - 1];
    assert front + [last] == cells;
    calc {
      Split(Joined(cells, delimiter), delimiter);
      Split(Joined(front, delimiter) + [delimiter] + last, delimiter);
      { SplitLast(Joined(front, delimiter), last, delimiter); }
      Split(Joined(front, delimiter), delimiter) + [last];
      cells;
    }
  }

  /** A row of the relation: its width, and 64-bit cells. */
  predicate Storable(format: Format, row: Row) {
    |row| == format.arity && forall i :: 0 <= i < |row| ==> VAL_MIN <= row[i] <= VAL_MAX
  }

  lemma {:induction false} NumbersPrinted(row: Row)
    requires forall i :: 0 <= i < |row| ==> VAL_MIN <= row[i] <= VAL_MAX
    ensures Numbers(PrintedCells(row)) == Some(row)
  {
    if row != [] {
      var n := |row| - 1;
      NumbersPrinted(row[..n]);
      var cells := PrintedCells(row);
      assert cells[..n] == PrintedCells(row[..n]);
      assert StandardParse(cells[n]) == Some(row[n]) by {
        PrintedParses(row[n]);
      }
      assert row[..n] + [row[n]] == row;
    }
  }

  /** The delimiter is neither part of a number nor the end of a line. */
  predicate Separates(delimiter: Byte) {
    !IsDigit(delimiter) && delimiter != MINUS && delimiter != NEWLINE
  }

  predicate EndsAlike(a: Bytes, b: Bytes) {
    a != [] && b != [] && a[|a| - 1] == b[|b| - 1]
  }

  lemma {:induction false} JoinedBytes(cells: seq<Bytes>, delimiter: Byte)
    requires forall i :: 0 <= i < |cells| ==> Without(cells[i], NEWLINE)
    requires delimiter != NEWLINE
    ensures Without(Joined(cells, delimiter), NEWLINE)
    ensures cells != [] && cells[|cells| - 1] != [] ==> EndsAlike(Joined(cells, delimiter), cells[|cells| - 1])
  {
    if |cells| > 1 {
      JoinedBytes(cells[..|cells| - 1], delimiter);
    }
  }

  lemma {:induction false} LineEndPlain(line: Bytes)
    requires Without(line, NEWLINE)
    ensures LineEnd(line + [NEWLINE]) == |line|
  {
    if line != [] {
      assert (line + [NEWLINE])[1..] == line[1..] + [NEWLINE];
      LineEndPlain(line[1..]);
    }
  }

  lemma SerialOne(format: Format, line: Bytes)
    requires Without(line, NEWLINE)
    ensures Serial(format, line + [NEWLINE]) == LineRead(format, Trimmed(line))
  {
    LineEndPlain(line);
    var data := line + [NEWLINE];
    assert data[..LineEnd(data)] == line && AfterLine(data) == [];
    BeforeNothing(LineRead(format, Trimmed(line)));
  }

  /** Printed cells hold neither delimiter nor newline, and the last one ends with a digit. */
  lemma CellsPrinted(row: Row, delimiter: Byte)
    requires Separates(delimiter)
    ensures forall i :: 0 <= i < |row| ==> Without(PrintedCells(row)[i], delimiter) && Without(PrintedCells(row)[i], NEWLINE)
    ensures row != [] ==> var last := PrintedCells(row)[|row| - 1]; last != [] && IsDigit(last[|last| - 1])
  {
    forall i | 0 <= i < |row|
      ensures Without(PrintedCells(row)[i], delimiter) && Without(PrintedCells(row)[i], NEWLINE)
    {
      assert PrintedCells(row)[i] == Printed(row[i]);
    }
  }

  lemma DigitKept(line: Bytes)
    requires line != [] && IsDigit(line[|line| - 1])
    ensures Trimmed(line) == line
  {
  }

  /** A joined row parses as the row; its last byte is a digit, so nothing is trimmed. */
  lemma JoinedReads(format: Format, row: Row)
    requires Storable(format, row) && Separates(format.delimiter) && row != []
    ensures var line := Joined(PrintedCells(row), format.delimiter);
      Without(line, NEWLINE) && line != [] && Trimmed(line) == line && ParsedRow(format, line) == Some(row)
  {
    var cells := PrintedCells(row);
    CellsPrinted(row, format.delimiter);
    JoinedBytes(cells, format.delimiter);
    DigitKept(Joined(cells, format.delimiter));
    SplitJoined(cells, format.delimiter);
    NumbersPrinted(row);
  }

  /** A written line reads back as its row. */
  lemma LineReads(format: Format, row: Row)
    requires Storable(format, row) && Separates(format.delimiter)
    ensures Serial(format, Line(format, row)) == Read([row])
  {
    if row != [] {
      JoinedReads(format, row);
    }
    SerialOne(format, Joined(PrintedCells(row), format.delimiter));
  }

  lemma LineWhole(format: Format, rows: seq<Row>)
    ensures Whole(File(format, rows))
  {
  }

  lemma FileStep(format: Format, front: seq<Row>, last: Row)
    requires Serial(format, File(format, front)) == Read(front) && Storable(format, last) && Separates(format.delimiter)
    ensures Serial(format, File(format, front) + Line(format, last)) == Read(front + [last])
  {
    LineWhole(format, front);
    LineReads(format, last);
    SerialConcat(format, File(format, front), Line(format, last));
  }

  /** What is written is read back: any rows over the full 64-bit range, with any delimiter that is no digit, minus sign
      or newline. */
  lemma {:induction false} RoundTrip(format: Format, rows: seq<Row>)
    requires Separates(format.delimiter) && forall i :: 0 <= i < |rows| ==> Storable(format, rows[i])
    ensures Serial(format, File(format, rows)) == Read(rows)
  {
    if rows != [] {
      var front, last := rows[..|rows| - 1], rows[|rows| - 1];
      assert rows == front + [last];
      RoundTrip(format, front);
      FileStep(format, front, last);
      assert Serial(format, File(format, front) + Line(format, last)) == Read(rows);
    } else {
      assert File(format, rows) == [];
    }
  }
}

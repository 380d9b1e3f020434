/** What reading a file means, by its lines and cells: which rows it gives, and which line it is refused for. */
module Lines {
  import opened Wrappers
  import opened Datalog
  import opened Decimals
  import opened InputFiles

  /* ------------------------------------------------------------------ */
  /* Spelling a number                                                    */
  /* ------------------------------------------------------------------ */

  predicate DecimalDigits(digits: Bytes) {
    digits != [] && forall i :: 0 <= i < |digits| ==> '0' as int <= digits[i] <= '9' as int
  }

  /** One digit is its distance from the digit zero; digits before others count for as many powers of ten more. */
  lemma {:induction false} NumberConcat(a: Bytes, b: Bytes)
    requires AllDigits(a) && AllDigits(b)
    ensures AllDigits(a + b) && Number(a + b) == Number(a) * PowerOfTen(|b|) + Number(b)
    ensures |a| == 1 ==> Number(a) == a[0] - '0' as int
  {
    if b == [] {
      assert a + b == a;
    } else {
      var n := |b| - 1;
      NumberConcat(a, b[..n]);
      assert (a + b)[..|a + b| - 1] == a + b[..n] && (a + b)[|a + b| - 1] == b[n];
      TimesTen(Number(a), PowerOfTen(n), Number(b[..n]));
    }
    assert |a| == 1 ==> a[..0] == [];
  }

  lemma TimesTen(a: nat, p: nat, b: nat)
    ensures (a * p + b) * 10 == a * (10 * p) + b * 10
  {
  }

  /** The cell is an optional sign and decimal digits, and its number is a 64-bit value. */
  ghost predicate Spells(cell: Bytes, v: Val) {
    exists digits :: DecimalDigits(digits) && SpelledBy(cell, digits, v)
  }

  ghost predicate SpelledBy(cell: Bytes, digits: Bytes, v: Val)
    requires DecimalDigits(digits)
  {
    && VAL_MIN <= v <= VAL_MAX
    && if v < 0 then cell == ['-' as int] + digits && -v == Number(digits)
       else v == Number(digits) && (cell == digits || cell == ['+' as int] + digits || (v == 0 && cell == ['-' as int] + digits))
  }

  /** What the parser accepts, and with what value. */
  lemma ParseSpells(cell: Bytes, v: Val)
    ensures StandardParse(cell) == Some(v) <==> Spells(cell, v)
  {
    var digits := Signed(cell).1;
    if StandardParse(cell) == Some(v) {
      assert cell == digits || cell == [cell[0]] + digits;
      assert DecimalDigits(digits) && SpelledBy(cell, digits, v);
    }
    if Spells(cell, v) {
      var ds :| DecimalDigits(ds) && SpelledBy(cell, ds, v);
      SignedIs(cell, ds);
    }
  }

  lemma SignedIs(cell: Bytes, digits: Bytes)
    requires DecimalDigits(digits)
    ensures cell == digits ==> Signed(cell) == (false, digits)
    ensures cell == ['+' as int] + digits ==> Signed(cell) == (false, digits)
    ensures cell == ['-' as int] + digits ==> Signed(cell) == (true, digits)
  {
    if cell == ['+' as int] + digits || cell == ['-' as int] + digits {
      assert cell[1..] == digits;
    }
  }

  /** The cell spells no 64-bit number. */
  ghost predicate Unspelled(cell: Bytes) {
    forall v :: !Spells(cell, v)
  }

  lemma ParseRefuses(cell: Bytes)
    ensures StandardParse(cell).None? <==> Unspelled(cell)
  {
    forall v
      ensures StandardParse(cell) == Some(v) <==> Spells(cell, v)
    {
      ParseSpells(cell, v);
    }
    if StandardParse(cell).Some? {
      assert Spells(cell, StandardParse(cell).value);
    }
  }

  lemma SpelledOnce(cell: Bytes, v: Val, w: Val)
    requires Spells(cell, v) && Spells(cell, w)
    ensures v == w
  {
    ParseSpells(cell, v);
    ParseSpells(cell, w);
  }

  /* ------------------------------------------------------------------ */
  /* The cells of a line                                                  */
  /* ------------------------------------------------------------------ */

  /** The cells between the delimiters of a line. */
  ghost predicate IsCells(line: Bytes, delimiter: Byte, cells: seq<Bytes>) {
    cells != [] && (forall i :: 0 <= i < |cells| ==> Without(cells[i], delimiter)) && Joined(cells, delimiter) == line
  }

  lemma {:induction false} SplitIs(line: Bytes, delimiter: Byte)
    ensures IsCells(line, delimiter, Split(line, delimiter))
  {
    if line != [] {
      var n := |line| - 1;
      SplitIs(line[..n], delimiter);
      assert line == line[..n] + [line[n]];
      if line[n] == delimiter {
        JoinedMore(Split(line[..n], delimiter), delimiter);
      } else {
        JoinedLonger(Split(line[..n], delimiter), delimiter, line[n]);
      }
    }
  }

  lemma JoinedMore(cells: seq<Bytes>, delimiter: Byte)
    requires cells != []
    ensures Joined(cells + [[]], delimiter) == Joined(cells, delimiter) + [delimiter]
  {
    var more := cells + [[]];
    assert more[..|more| - 1] == cells;
    assert Joined(cells, delimiter) + [delimiter] + [] == Joined(cells, delimiter) + [delimiter];
  }

  lemma JoinedLonger(cells: seq<Bytes>, delimiter: Byte, byte: Byte)
    requires cells != []
    ensures Joined(cells[..|cells| - 1] + [cells[|cells| - 1] + [byte]], delimiter) == Joined(cells, delimiter) + [byte]
  {
    var front, last := cells[..|cells| - 1], cells[|cells| - 1];
    var longer := front + [last + [byte]];
    assert longer[..|longer| - 1] == front && longer[|longer| - 1] == last + [byte];
    if front != [] {
      assert Joined(front, delimiter) + [delimiter] + (last + [byte]) == Joined(front, delimiter) + [delimiter] + last + [byte];
    }
  }

  lemma CellsUnique(line: Bytes, delimiter: Byte, cells: seq<Bytes>)
    requires IsCells(line, delimiter, cells)
    ensures cells == Split(line, delimiter)
  {
    SplitJoined(cells, delimiter);
  }

  ghost predicate AllSpelled(cells: seq<Bytes>, row: Row) {
    |cells| == |row| && forall i :: 0 <= i < |row| ==> Spells(cells[i], row[i])
  }

  lemma {:induction false} NumbersSpelled(cells: seq<Bytes>, row: Row)
    ensures Numbers(cells) == Some(row) <==> AllSpelled(cells, row)
  {
    if cells != [] && |cells| == |row| {
      var n := |cells| - 1;
      NumbersSpelled(cells[..n], row[..n]);
      ParseSpells(cells[n], row[n]);
      assert row == row[..n] + [row[n]];
      if Numbers(cells) == Some(row) {
        assert Numbers(cells[..n]) == Some(row[..n]);
      }
    }
  }

  /* ------------------------------------------------------------------ */
  /* One line                                                             */
  /* ------------------------------------------------------------------ */

  /** The line without a carriage return at its end. */
  ghost predicate IsBare(line: Bytes, bare: Bytes) {
    line == bare + ['\r' as int] || (line == bare && (line != [] ==> line[|line| - 1] != '\r' as int))
  }

  lemma BareIs(line: Bytes, bare: Bytes)
    ensures IsBare(line, bare) <==> bare == Trimmed(line)
  {
    if line != [] {
      assert line == line[..|line| - 1] + [line[|line| - 1]];
    }
  }

  ghost predicate Blank(line: Bytes) {
    IsBare(line, [])
  }

  /** The line's cells spell the row: one cell for every column. */
  ghost predicate HoldsRow(format: Format, line: Bytes, row: Row) {
    exists bare, cells :: IsBare(line, bare) && CellsSpell(format, bare, cells, row)
  }

  ghost predicate CellsSpell(format: Format, bare: Bytes, cells: seq<Bytes>, row: Row) {
    IsCells(bare, format.delimiter, cells) && |cells| == format.arity && AllSpelled(cells, row)
  }

  /** The line is not empty, and has another number of cells or a cell that spells no 64-bit number. */
  ghost predicate Bad(format: Format, line: Bytes) {
    !Blank(line) && exists bare, cells :: IsBare(line, bare) && CellsBad(format, bare, cells)
  }

  ghost predicate CellsBad(format: Format, bare: Bytes, cells: seq<Bytes>) {
    && IsCells(bare, format.delimiter, cells)
    && (|cells| != format.arity || SomeUnspelled(cells))
  }

  ghost predicate SomeUnspelled(cells: seq<Bytes>) {
    exists i :: 0 <= i < |cells| && Unspelled(cells[i])
  }

  lemma RowIs(format: Format, line: Bytes, row: Row)
    ensures HoldsRow(format, line, row) <==> ParsedRow(format, Trimmed(line)) == Some(row)
  {
    var bare, cells := Trimmed(line), Split(Trimmed(line), format.delimiter);
    BareIs(line, bare);
    SplitIs(bare, format.delimiter);
    NumbersSpelled(cells, row);
    if HoldsRow(format, line, row) {
      var b, cs :| IsBare(line, b) && CellsSpell(format, b, cs, row);
      BareIs(line, b);
      CellsUnique(bare, format.delimiter, cs);
    }
    if ParsedRow(format, bare) == Some(row) {
      assert CellsSpell(format, bare, cells, row);
    }
  }

  lemma {:induction false} NumbersMissing(cells: seq<Bytes>)
    ensures Numbers(cells).None? <==> SomeUnspelled(cells)
  {
    if cells != [] {
      var n := |cells| - 1;
      NumbersMissing(cells[..n]);
      ParseRefuses(cells[n]);
      if SomeUnspelled(cells[..n]) {
        var i :| 0 <= i < n && Unspelled(cells[..n][i]);
        assert cells[i] == cells[..n][i];
      }
      if SomeUnspelled(cells) {
        var i :| 0 <= i < |cells| && Unspelled(cells[i]);
        assert i < n ==> cells[..n][i] == cells[i];
      }
    }
  }

  lemma CellsBadIs(format: Format, bare: Bytes, cells: seq<Bytes>)
    requires IsCells(bare, format.delimiter, cells)
    ensures CellsBad(format, bare, cells) <==> ParsedRow(format, bare).None?
  {
    CellsUnique(bare, format.delimiter, cells);
    NumbersMissing(cells);
  }

  lemma BadIs(format: Format, line: Bytes)
    ensures Bad(format, line) <==> Trimmed(line) != [] && ParsedRow(format, Trimmed(line)).None?
  {
    var bare, cells := Trimmed(line), Split(Trimmed(line), format.delimiter);
    BareIs(line, bare);
    BareIs(line, []);
    SplitIs(bare, format.delimiter);
    CellsBadIs(format, bare, cells);
    if Bad(format, line) {
      var b, cs :| IsBare(line, b) && CellsBad(format, b, cs);
      BareIs(line, b);
      CellsBadIs(format, b, cs);
    }
  }

  /* ------------------------------------------------------------------ */
  /* The lines of a file                                                  */
  /* ------------------------------------------------------------------ */

  /** Lines one after another, each with its newline. */
  function Glued(lines: seq<Bytes>): Bytes {
    if lines == [] then [] else lines[0] + ['\n' as int] + Glued(lines[1..])
  }

  /** The lines of some data: what stands between newlines. The last one may lack its newline, and is not empty then. */
  ghost predicate IsLines(data: Bytes, lines: seq<Bytes>) {
    && (forall k :: 0 <= k < |lines| ==> Without(lines[k], '\n' as int))
    && (data == Glued(lines) || (lines != [] && lines[|lines| - 1] != [] && data + ['\n' as int] == Glued(lines)))
  }

  lemma {:induction false} LineEndAt(line: Bytes, rest: Bytes)
    requires Without(line, NEWLINE)
    ensures LineEnd(line + [NEWLINE] + rest) == |line|
  {
    var data := line + [NEWLINE] + rest;
    if line != [] {
      assert data[1..] == line[1..] + [NEWLINE] + rest;
      LineEndAt(line[1..], rest);
    }
  }

  lemma {:induction false} LineEndNone(line: Bytes)
    requires Without(line, NEWLINE)
    ensures LineEnd(line) == |line|
  {
    if line != [] {
      LineEndNone(line[1..]);
    }
  }

  lemma GluedEnds(lines: seq<Bytes>)
    requires lines != []
    ensures Glued(lines) != [] && Glued(lines)[|Glued(lines)| - 1] == NEWLINE
  {
    if |lines| > 1 {
      GluedEnds(lines[1..]);
    }
  }

  lemma {:induction false} GluedLong(lines: seq<Bytes>)
    requires lines != []
    ensures |Glued(lines)| > |lines[|lines| - 1]|
  {
    if |lines| > 1 {
      GluedLong(lines[1..]);
      assert lines[1..][|lines[1..]| - 1] == lines[|lines| - 1];
    }
  }

  lemma NoLines(lines: seq<Bytes>)
    requires IsLines([], lines)
    ensures lines == []
  {
    assert |[] + ['\n' as int]| == 1;
    if lines != [] {
      GluedLong(lines);
    }
  }

  /** The first line, and the lines of what follows it. */
  lemma FirstLine(data: Bytes, lines: seq<Bytes>)
    requires data != [] && IsLines(data, lines)
    ensures lines != [] && lines[0] == data[..LineEnd(data)] && IsLines(AfterLine(data), lines[1..])
  {
    assert lines != [];
    var rest := Glued(lines[1..]);
    if data == Glued(lines) {
      LineEndAt(lines[0], rest);
      assert AfterLine(data) == rest;
    } else if |lines| == 1 {
      assert data + [NEWLINE] == lines[0] + [NEWLINE] + [] == lines[0] + [NEWLINE];
      assert data == lines[0];
      LineEndNone(data);
    } else {
      GluedEnds(lines[1..]);
      var front := rest[..|rest| - 1];
      assert rest == front + [NEWLINE];
      LastDropped(data, lines[0], front);
      LineEndAt(lines[0], front);
      assert AfterLine(data) == front;
      assert lines[1..][|lines[1..]| - 1] == lines[|lines| - 1];
    }
  }

  lemma LastDropped(data: Bytes, line: Bytes, front: Bytes)
    requires data + [NEWLINE] == line + [NEWLINE] + (front + [NEWLINE])
    ensures data == line + [NEWLINE] + front
  {
    assert line + [NEWLINE] + (front + [NEWLINE]) == line + [NEWLINE] + front + [NEWLINE];
    assert data == (data + [NEWLINE])[..|data|];
  }

  /** All data has lines. */
  lemma {:induction false} SomeLines(data: Bytes) returns (lines: seq<Bytes>)
    ensures IsLines(data, lines)
    decreases |data|
  {
    if data == [] {
      lines := [];
    } else {
      var line, next := data[..LineEnd(data)], AfterLine(data);
      var rest := SomeLines(next);
      lines := [line] + rest;
      assert lines[1..] == rest;
      if LineEnd(data) < |data| {
        assert data == line + [NEWLINE] + next;
        GluedOn(data, line, next, rest);
      } else {
        NoLines(rest);
        assert data == line && Glued(rest) == [];
        assert line + [NEWLINE] + [] == line + [NEWLINE];
      }
    }
  }

  lemma GluedOn(data: Bytes, line: Bytes, next: Bytes, rest: seq<Bytes>)
    requires data == line + [NEWLINE] + next && IsLines(next, rest) && Without(line, NEWLINE)
    ensures IsLines(data, [line] + rest)
  {
    var lines := [line] + rest;
    assert lines[1..] == rest;
    if next == Glued(rest) {
      assert data == Glued(lines);
    } else {
      assert data + [NEWLINE] == line + [NEWLINE] + (next + [NEWLINE]);
      assert lines[|lines| - 1] == rest[|rest| - 1];
    }
  }

  lemma SameLists(a: seq<Bytes>, b: seq<Bytes>)
    requires a != [] && b != [] && a[0] == b[0] && a[1..] == b[1..]
    ensures a == b
  {
    assert a == [a[0]] + a[1..] && b == [b[0]] + b[1..];
  }

  /** And only one list of lines. */
  lemma {:induction false} LinesUnique(data: Bytes, a: seq<Bytes>, b: seq<Bytes>)
    requires IsLines(data, a) && IsLines(data, b)
    ensures a == b
    decreases |data|
  {
    if data == [] {
      NoLines(a);
      NoLines(b);
    } else {
      FirstLine(data, a);
      FirstLine(data, b);
      LinesUnique(AfterLine(data), a[1..], b[1..]);
      SameLists(a, b);
    }
  }

  /* ------------------------------------------------------------------ */
  /* Reading                                                              */
  /* ------------------------------------------------------------------ */

  ghost function NonBlank(lines: seq<Bytes>): seq<Bytes> {
    if lines == [] then [] else (if Blank(lines[0]) then [] else [lines[0]]) + NonBlank(lines[1..])
  }

  /** The first bad line. */
  ghost predicate FirstBad(format: Format, lines: seq<Bytes>, k: nat) {
    k < |lines| && Bad(format, lines[k]) && forall j :: 0 <= j < k ==> !Bad(format, lines[j])
  }

  ghost predicate NoneBad(format: Format, lines: seq<Bytes>) {
    forall k :: 0 <= k < |lines| ==> !Bad(format, lines[k])
  }

  /** The i-th row is what the i-th line holds. */
  ghost predicate RowsHeld(format: Format, lines: seq<Bytes>, rows: seq<Row>) {
    |rows| == |lines| && forall i :: 0 <= i < |rows| ==> HoldsRow(format, lines[i], rows[i])
  }

  /** What reading lines gives: the first bad line, without its carriage return, or if there is none the rows of the
      lines that are not empty, in order. A relation without columns has an empty row for every line. */
  ghost predicate ReadingOf(format: Format, lines: seq<Bytes>, reading: Reading) {
    if format.arity == 0 then
      reading.Read? && |reading.rows| == |lines| && forall i :: 0 <= i < |lines| ==> reading.rows[i] == []
    else
      match reading
      case Refused(bare) => RefusedFor(format, lines, bare)
      case Read(rows) => NoneBad(format, lines) && RowsHeld(format, NonBlank(lines), rows)
  }

  ghost predicate RefusedFor(format: Format, lines: seq<Bytes>, bare: Bytes) {
    exists k: nat :: FirstBad(format, lines, k) && IsBare(lines[k], bare)
  }

  lemma RefusedLater(format: Format, lines: seq<Bytes>, bare: Bytes)
    requires lines != [] && !Bad(format, lines[0]) && RefusedFor(format, lines[1..], bare)
    ensures RefusedFor(format, lines, bare)
  {
    var k: nat :| FirstBad(format, lines[1..], k) && IsBare(lines[1..][k], bare);
    assert lines[k + 1] == lines[1..][k];
    forall j | 0 <= j < k + 1
      ensures !Bad(format, lines[j])
    {
      if j > 0 {
        assert lines[j] == lines[1..][j - 1];
      }
    }
    assert FirstBad(format, lines, k + 1);
  }

  lemma RefusedFirst(format: Format, lines: seq<Bytes>)
    requires lines != [] && Bad(format, lines[0])
    ensures RefusedFor(format, lines, Trimmed(lines[0]))
  {
    BareIs(lines[0], Trimmed(lines[0]));
    assert FirstBad(format, lines, 0);
  }

  /** One more line before others. */
  lemma ReadingFirst(format: Format, lines: seq<Bytes>, rest: Reading)
    requires format.arity > 0 && lines != [] && ReadingOf(format, lines[1..], rest)
    ensures ReadingOf(format, lines, Before(LineRead(format, Trimmed(lines[0])), rest))
  {
    var line := lines[0];
    BadIs(format, line);
    BareIs(line, []);
    if Bad(format, line) {
      RefusedFirst(format, lines);
    } else if rest.Refused? {
      RefusedLater(format, lines, rest.line);
    } else {
      forall k | 0 <= k < |lines|
        ensures !Bad(format, lines[k])
      {
        assert k > 0 ==> lines[k] == lines[1..][k - 1];
      }
      RowsFirst(format, lines, rest.rows);
    }
  }

  lemma RowsFirst(format: Format, lines: seq<Bytes>, rows: seq<Row>)
    requires format.arity > 0 && lines != [] && !Bad(format, lines[0]) && RowsHeld(format, NonBlank(lines[1..]), rows)
    ensures LineRead(format, Trimmed(lines[0])).Read?
    ensures RowsHeld(format, NonBlank(lines), LineRead(format, Trimmed(lines[0])).rows + rows)
  {
    var line := lines[0];
    BadIs(format, line);
    BareIs(line, []);
    if Blank(line) {
      BlankFirst(lines, rows);
    } else {
      RowFirst(format, line, NonBlank(lines[1..]), rows);
    }
  }

  lemma BlankFirst(lines: seq<Bytes>, rows: seq<Row>)
    requires lines != [] && Blank(lines[0])
    ensures NonBlank(lines) == NonBlank(lines[1..]) && [] + rows == rows
  {
  }

  lemma RowFirst(format: Format, line: Bytes, lines: seq<Bytes>, rows: seq<Row>)
    requires format.arity > 0 && Trimmed(line) != [] && ParsedRow(format, Trimmed(line)).Some?
    requires RowsHeld(format, lines, rows)
    ensures LineRead(format, Trimmed(line)).Read?
    ensures RowsHeld(format, [line] + lines, LineRead(format, Trimmed(line)).rows + rows)
  {
    var row := ParsedRow(format, Trimmed(line)).value;
    RowIs(format, line, row);
    RowsMore(format, line, row, lines, rows);
  }

  lemma RowsMore(format: Format, line: Bytes, row: Row, lines: seq<Bytes>, rows: seq<Row>)
    requires HoldsRow(format, line, row) && RowsHeld(format, lines, rows)
    ensures RowsHeld(format, [line] + lines, [row] + rows)
  {
  }

  /** Reading a file line by line gives what its lines say. */
  lemma {:induction false} SerialReads(format: Format, data: Bytes, lines: seq<Bytes>)
    requires IsLines(data, lines)
    ensures ReadingOf(format, lines, Serial(format, data))
    decreases |data|
  {
    if data == [] {
      NoLines(lines);
    } else {
      FirstLine(data, lines);
      SerialReads(format, AfterLine(data), lines[1..]);
      if format.arity == 0 {
        EmptyFirst(lines, Serial(format, AfterLine(data)));
      } else {
        ReadingFirst(format, lines, Serial(format, AfterLine(data)));
      }
    }
  }

  lemma EmptyFirst(lines: seq<Bytes>, rest: Reading)
    requires lines != [] && rest.Read? && |rest.rows| == |lines| - 1 && forall i :: 0 <= i < |rest.rows| ==> rest.rows[i] == []
    ensures forall i :: 0 <= i < |lines| ==> ([[]] + rest.rows)[i] == []
  {
  }

  /** The reading is refused if and only if some line is bad. */
  lemma RefusedExactly(format: Format, data: Bytes, lines: seq<Bytes>)
    requires IsLines(data, lines)
    ensures Serial(format, data).Refused? <==> format.arity > 0 && !NoneBad(format, lines)
  {
    SerialReads(format, data, lines);
    if Serial(format, data).Refused? {
      var k: nat :| FirstBad(format, lines, k) && IsBare(lines[k], Serial(format, data).line);
    }
  }
}

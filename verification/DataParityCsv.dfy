/**
 The data-parity CSV export, and a reader for section 2 of RFC 4180 to check it
 against. A cell is the text the export prints for a value, or null.
 */
module DataParityCsv {
  import opened Sequences
  import opened Wrappers

  type Cell = Option<string>

  // ---------- The printer ----------

  /** `text.replace(/"/g, '""')`. */
  function Escape(text: string): string {
    if text == [] then []
    else (if text[0] == '"' then ['"', '"'] else [text[0]]) + Escape(text[1..])
  }

  /** A null prints as nothing, everything else inside quotes. */
  function CsvCell(cell: Cell): string {
    match cell
    case None => []
    case Some(text) => ['"'] + Escape(text) + ['"']
  }

  function CsvRow(row: seq<Cell>): string
    requires row != []
  {
    if |row| == 1 then CsvCell(row[0]) else CsvCell(row[0]) + ([','] + CsvRow(row[1..]))
  }

  predicate IsTable(rows: seq<seq<Cell>>) {
    forall i :: 0 <= i < |rows| ==> rows[i] != []
  }

  /** `rows.map(row => row.map(csvCell).join(",")).join("\n")`. */
  function CsvText(rows: seq<seq<Cell>>): string
    requires IsTable(rows)
  {
    if rows == [] then []
    else if |rows| == 1 then CsvRow(rows[0])
    else CsvRow(rows[0]) + (['\n'] + CsvText(rows[1..]))
  }

  // ---------- The reader ----------

  /** A field as it stood in the file: bare, or between quotes. */
  datatype Field = Plain(text: string) | Quoted(text: string)

  datatype Read<+T> = Got(value: T, rest: string) | Malformed

  predicate AtBreak(s: string) {
    s != [] && (s[0] == '\n' || (|s| > 1 && s[0] == '\r' && s[1] == '\n'))
  }

  /** Bare text: no quote, no carriage return, up to a comma or the end of the record. */
  function ReadPlain(s: string): (r: Read<string>)
    ensures r.Got? ==> |r.rest| <= |s|
  {
    if s == [] || s[0] == ',' || AtBreak(s) then Got([], s)
    else if s[0] == '"' || s[0] == '\r' then Malformed
    else
      match ReadPlain(s[1..])
      case Got(text, rest) => Got([s[0]] + text, rest)
      case Malformed => Malformed
  }

  /** The inside of a quoted field: a doubled quote is a quote, a single one ends it. */
  function ReadQuoted(s: string): (r: Read<string>)
    ensures r.Got? ==> |r.rest| <= |s|
  {
    if s == [] then Malformed
    else if s[0] != '"' then
      match ReadQuoted(s[1..])
      case Got(text, rest) => Got([s[0]] + text, rest)
      case Malformed => Malformed
    else if |s| > 1 && s[1] == '"' then
      match ReadQuoted(s[2..])
      case Got(text, rest) => Got(['"'] + text, rest)
      case Malformed => Malformed
    else Got([], s[1..])
  }

  function ReadField(s: string): (r: Read<Field>)
    ensures r.Got? ==> |r.rest| <= |s|
  {
    if s != [] && s[0] == '"' then
      match ReadQuoted(s[1..])
      case Got(text, rest) => Got(Quoted(text), rest)
      case Malformed => Malformed
    else
      match ReadPlain(s)
      case Got(text, rest) => Got(Plain(text), rest)
      case Malformed => Malformed
  }

  /** Fields separated by commas. */
  function ReadRecord(s: string): (r: Read<seq<Field>>)
    ensures r.Got? ==> |r.rest| <= |s|
    decreases |s|
  {
    match ReadField(s)
    case Malformed => Malformed
    case Got(field, rest) =>
      if rest != [] && rest[0] == ',' then
        match ReadRecord(rest[1..])
        case Got(fields, after) => Got([field] + fields, after)
        case Malformed => Malformed
      else Got([field], rest)
  }

  /** Records separated by line breaks; a break at the very end opens no record. */
  function ReadAll(s: string): Option<seq<seq<Field>>>
    decreases |s|
  {
    if s == [] then Some([])
    else
      match ReadRecord(s)
      case Malformed => None
      case Got(record, rest) =>
        if rest == [] then Some([record])
        else if !AtBreak(rest) then None
        else
          match ReadAll(rest[if rest[0] == '\n' then 1 else 2..])
          case None => None
          case Some(records) => Some([record] + records)
  }

  // ---------- The round trip ----------

  /** What a reader should see of a cell. */
  function FieldOf(cell: Cell): Field {
    match cell
    case None => Plain([])
    case Some(text) => Quoted(text)
  }

  function FieldsOf(row: seq<Cell>): (r: seq<Field>)
    ensures |r| == |row|
  {
    seq(|row|, i requires 0 <= i < |row| => FieldOf(row[i]))
  }

  function RecordsOf(rows: seq<seq<Cell>>): (r: seq<seq<Field>>)
    ensures |r| == |rows|
  {
    seq(|rows|, i requires 0 <= i < |rows| => FieldsOf(rows[i]))
  }

  lemma {:induction false} QuotedReadsBack(text: string, rest: string)
    requires rest == [] || rest[0] != '"'
    ensures ReadQuoted(Escape(text) + (['"'] + rest)) == Got(text, rest)
  {
    var s := Escape(text) + (['"'] + rest);
    if text == [] {
      assert s == ['"'] + rest && s[1..] == rest;
    } else {
      QuotedReadsBack(text[1..], rest);
      var tail := Escape(text[1..]) + (['"'] + rest);
      assert text == [text[0]] + text[1..];
      if text[0] == '"' {
        assert s == ['"', '"'] + tail && s[2..] == tail;
      } else {
        assert s == [text[0]] + tail && s[1..] == tail;
      }
    }
  }

  /** The end of a field: the file ends, or a comma or line feed follows. */
  predicate EndsField(rest: string) {
    rest == [] || rest[0] == ',' || rest[0] == '\n'
  }

  lemma CellReadsBack(cell: Cell, rest: string)
    requires EndsField(rest)
    ensures ReadField(CsvCell(cell) + rest) == Got(FieldOf(cell), rest)
  {
    match cell
    case None =>
      assert CsvCell(cell) + rest == rest;
    case Some(text) =>
      QuotedReadsBack(text, rest);
      var s := CsvCell(cell) + rest;
      assert s[0] == '"' && s[1..] == Escape(text) + (['"'] + rest);
  }

  /** A longer row is its first cell, a comma and the rest. */
  lemma RowText(row: seq<Cell>, rest: string)
    requires |row| > 1
    ensures CsvRow(row) + rest == CsvCell(row[0]) + ([','] + (CsvRow(row[1..]) + rest))
  {
    var tail := CsvRow(row[1..]);
    ConcatAssociative([','], tail, rest);
    ConcatAssociative(CsvCell(row[0]), [','] + tail, rest);
  }

  lemma FieldsOfHead(row: seq<Cell>)
    requires row != []
    ensures FieldsOf(row) == [FieldOf(row[0])] + FieldsOf(row[1..])
  {
  }

  lemma {:induction false} RowReadsBack(row: seq<Cell>, rest: string)
    requires row != [] && (rest == [] || rest[0] == '\n')
    ensures ReadRecord(CsvRow(row) + rest) == Got(FieldsOf(row), rest)
  {
    if |row| == 1 {
      CellReadsBack(row[0], rest);
      assert FieldsOf(row) == [FieldOf(row[0])];
    } else {
      FieldsOfHead(row);
      var tail := CsvRow(row[1..]) + rest;
      var after := [','] + tail;
      RowText(row, rest);
      CellReadsBack(row[0], after);
      assert after[1..] == tail;
      RowReadsBack(row[1..], rest);
    }
  }

  lemma RowTextEmpty(row: seq<Cell>)
    requires row != []
    ensures CsvRow(row) == [] <==> row == [None]
  {
  }

  lemma TextEmpty(rows: seq<seq<Cell>>)
    requires IsTable(rows)
    ensures CsvText(rows) == [] <==> rows == [] || rows == [[None]]
  {
    if |rows| == 1 {
      RowTextEmpty(rows[0]);
    }
  }

  /** What follows the first row. */
  function AfterFirst(rows: seq<seq<Cell>>): string
    requires IsTable(rows) && rows != []
  {
    if |rows| == 1 then [] else ['\n'] + CsvText(rows[1..])
  }

  lemma FirstReadsBack(rows: seq<seq<Cell>>)
    requires IsTable(rows) && rows != []
    ensures ReadRecord(CsvText(rows)) == Got(FieldsOf(rows[0]), AfterFirst(rows))
  {
    RowReadsBack(rows[0], AfterFirst(rows));
    if |rows| == 1 {
      assert CsvRow(rows[0]) + [] == CsvRow(rows[0]);
    }
  }

  lemma RecordsOfHead(rows: seq<seq<Cell>>)
    requires rows != []
    ensures RecordsOf(rows) == [FieldsOf(rows[0])] + RecordsOf(rows[1..])
  {
  }

  /** A table of two rows or more: the first record, then the records of the rest. */
  lemma {:induction false} ReadAllStep(rows: seq<seq<Cell>>)
    requires IsTable(rows) && |rows| > 1
    ensures ReadAll(CsvText(rows)) ==
            match ReadAll(CsvText(rows[1..]))
            case None => None
            case Some(records) => Some([FieldsOf(rows[0])] + records)
  {
    FirstReadsBack(rows);
    assert AfterFirst(rows)[1..] == CsvText(rows[1..]);
  }

  lemma SameTail<T>(x: T, a: seq<T>, b: seq<T>)
    ensures [x] + a == [x] + b <==> a == b
  {
    assert ([x] + a)[1..] == a && ([x] + b)[1..] == b;
  }

  /** The one table whose last record cannot be told from a final line break. */
  predicate EndsInLoneNull(rows: seq<seq<Cell>>) {
    rows != [] && rows[|rows| - 1] == [None]
  }

  /**
   Reading the printed text recovers every cell's text, null apart from empty,
   and the exact rows and columns - exactly when the table does not end in a
   row that is a single null.
   */
  lemma {:induction false} RoundTripIff(rows: seq<seq<Cell>>)
    requires IsTable(rows)
    ensures ReadAll(CsvText(rows)) == Some(RecordsOf(rows)) <==> !EndsInLoneNull(rows)
    ensures ReadAll(CsvText(rows)).Some?
  {
    if |rows| == 1 {
      FirstReadsBack(rows);
      TextEmpty(rows);
      assert RecordsOf(rows) == [FieldsOf(rows[0])];
    } else if |rows| > 1 {
      RoundTripIff(rows[1..]);
      ReadAllStep(rows);
      RecordsOfHead(rows);
      SameTail(FieldsOf(rows[0]), ReadAll(CsvText(rows[1..])).value, RecordsOf(rows[1..]));
    }
  }

  lemma FieldsOfInjective(a: seq<Cell>, b: seq<Cell>)
    requires FieldsOf(a) == FieldsOf(b)
    ensures a == b
  {
    forall i | 0 <= i < |a|
      ensures a[i] == b[i]
    {
      assert FieldsOf(a)[i] == FieldsOf(b)[i];
    }
  }

  lemma {:induction false} RowsPrintApart(a: seq<seq<Cell>>, b: seq<seq<Cell>>)
    requires IsTable(a) && IsTable(b) && a != [] && b != []
    requires CsvText(a) == CsvText(b)
    ensures a == b
  {
    FirstReadsBack(a);
    FirstReadsBack(b);
    FieldsOfInjective(a[0], b[0]);
    assert AfterFirst(a) == AfterFirst(b);
    if |a| > 1 {
      assert AfterFirst(a)[1..] == CsvText(a[1..]) && AfterFirst(b)[1..] == CsvText(b[1..]);
      RowsPrintApart(a[1..], b[1..]);
      assert a == [a[0]] + a[1..] && b == [b[0]] + b[1..];
    }
  }

  /** The printer tells all tables apart, but for no row at all and one row of a null. */
  lemma PrintingLosesNothing(a: seq<seq<Cell>>, b: seq<seq<Cell>>)
    requires IsTable(a) && IsTable(b)
    ensures CsvText(a) == CsvText(b) <==> a == b || (a == [] && b == [[None]]) || (a == [[None]] && b == [])
  {
    TextEmpty(a);
    TextEmpty(b);
    if CsvText(a) == CsvText(b) && a != [] && b != [] {
      RowsPrintApart(a, b);
    }
  }

  // ---------- The export ----------

  /** The columns of the export; their names are the caller's header row. */
  const COLUMNS: nat := 45

  /** The header line, then one line of as many cells for every result. */
  function BuildDataParityCsv(header: seq<Cell>, results: seq<seq<Cell>>): string
    requires |header| == COLUMNS && forall i :: 0 <= i < |results| ==> |results[i]| == COLUMNS
  {
    CsvText([header] + results)
  }

  /** The export always reads back: 45 columns in every record, whatever the cells hold. */
  lemma {:induction false} ExportRoundTrip(header: seq<Cell>, results: seq<seq<Cell>>)
    requires |header| == COLUMNS && forall i :: 0 <= i < |results| ==> |results[i]| == COLUMNS
    ensures ReadAll(BuildDataParityCsv(header, results)) == Some(RecordsOf([header] + results))
    ensures forall i :: 0 <= i <= |results| ==> |RecordsOf([header] + results)[i]| == 45
  {
    RoundTripIff([header] + results);
  }

  lemma QuoteExample()
    ensures Escape("a\"b") == "a\"\"b"
  {
    assert "a\"b"[1..] == "\"b" && "\"b"[1..] == "b" && "b"[1..] == [];
    assert Escape("b") == "b" && Escape("\"b") == "\"\"" + "b";
  }

  /** A row of two: quotes doubled inside quotes, a null bare. */
  lemma RowExample(row: seq<Cell>)
    requires row == [Some("a\"b"), None]
    ensures CsvRow(row) == "\"a\"\"b\","
  {
    assert row[1..] == [None];
    QuoteExample();
    assert CsvCell(row[0]) == "\"a\"\"b\"";
  }

  /** Rows are parted by one line feed. */
  lemma LinesExample(first: seq<Cell>, second: seq<Cell>)
    requires first != [] && second != []
    ensures CsvText([first, second]) == CsvRow(first) + "\n" + CsvRow(second)
  {
    assert [first, second][1..] == [second];
  }

  /** A text without quotes is printed as it is. */
  lemma {:induction false} EscapeOfPlain(text: string)
    requires '"' !in text
    ensures Escape(text) == text
  {
    if text != [] {
      EscapeOfPlain(text[1..]);
    }
  }

  lemma PlainStep(c: char, rest: string, text: string, after: string)
    requires c != ',' && c != '"' && c != '\r' && c != '\n' && ReadPlain(rest) == Got(text, after)
    ensures ReadPlain([c] + rest) == Got([c] + text, after)
  {
    assert ([c] + rest)[1..] == rest;
  }

  lemma StrayRefused(c: char, rest: string)
    requires rest != [] && (rest[0] == '"' || (rest[0] == '\r' && (|rest| == 1 || rest[1] != '\n')))
    requires c != ',' && c != '"' && c != '\r' && c != '\n'
    ensures ReadAll([c] + rest).None?
  {
    assert ([c] + rest)[1..] == rest;
    assert ReadPlain(rest).Malformed?;
  }

  /** The reader takes the long line break as well as the short one. */
  lemma LongBreakReads()
    ensures ReadAll("a\r\nb") == Some([[Plain("a")], [Plain("b")]])
  {
    var tail := "\r\nb";
    assert "a\r\nb" == ['a'] + tail && tail[2..] == ['b'] + [] == "b";
    PlainStep('b', [], [], []);
    PlainStep('a', tail, [], tail);
    assert ['a'] + [] == "a" && ['b'] + [] == "b";
    assert ReadRecord("b") == Got([Plain("b")], []);
    assert ReadRecord("a\r\nb") == Got([Plain("a")], tail);
    assert AtBreak(tail) && tail[if tail[0] == '\n' then 1 else 2..] == "b";
    assert ReadAll("b") == Some([[Plain("b")]]);
    assert [[Plain("a")]] + [[Plain("b")]] == [[Plain("a")], [Plain("b")]];
  }
}

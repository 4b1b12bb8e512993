/** The CSV export of the dashboard, and a reader for section 2 of RFC 4180. */
module Csv {
  import opened Models

  const CRLF := "\r\n"

  // ---------- printing ----------

  /** The characters that force quotes. */
  predicate Special(c: char) {
    c == '"' || c == ',' || c == '\r' || c == '\n'
  }

  function Doubled(s: string): string {
    if s == "" then "" else (if s[0] == '"' then ['"', '"'] else [s[0]]) + Doubled(s[1..])
  }

  predicate Unquoted(s: string) {
    forall i :: 0 <= i < |s| ==> !Special(s[i])
  }

  function CsvField(s: string): string {
    if Unquoted(s) then s else ['"'] + Doubled(s) + ['"']
  }

  function Join(parts: seq<string>, sep: string): string {
    if parts == [] then "" else if |parts| == 1 then parts[0] else parts[0] + sep + Join(parts[1..], sep)
  }

  function Fields(row: seq<string>): seq<string> {
    seq(|row|, i requires 0 <= i < |row| => CsvField(row[i]))
  }

  function Line(row: seq<string>): string {
    Join(Fields(row), ",")
  }

  function LinesOf(table: seq<seq<string>>): seq<string> {
    seq(|table|, i requires 0 <= i < |table| => Line(table[i]))
  }

  function Print(table: seq<seq<string>>): string {
    Join(LinesOf(table), CRLF) + CRLF
  }

  const HEADER := ["code", "destination", "clicks", "created_at", "expires_at", "last_accessed", "label", "status"]

  /** The export: the header as it is, then each visible row field by field. */
  method ExportCSV(visible: seq<seq<string>>) returns (text: string)
    ensures text == Print([HEADER] + visible)
  {
    HeaderPlain();
    text := PrintUnder(HEADER, visible);
  }

  method PrintUnder(header: seq<string>, visible: seq<seq<string>>) returns (text: string)
    requires Fields(header) == header
    ensures text == Print([header] + visible)
  {
    var lines := [Join(header, ",")];
    for k := 0 to |visible|
      invariant lines == LinesOf([header] + visible[..k])
    {
      ghost var sofar := [header] + visible[..k];
      var line := PrintRow(visible[k]);
      LinesSnoc(sofar, visible[k]);
      assert [header] + visible[..k + 1] == sofar + [visible[k]];
      lines := lines + [line];
    }
    assert visible[..|visible|] == visible;
    text := Join(lines, CRLF) + CRLF;
  }

  method PrintRow(row: seq<string>) returns (line: string)
    ensures line == Line(row)
  {
    var fields := [];
    for i := 0 to |row|
      invariant fields == Fields(row)[..i]
    {
      fields := fields + [CsvField(row[i])];
    }
    assert Fields(row)[..|row|] == Fields(row);
    line := Join(fields, ",");
  }

  lemma LinesSnoc(table: seq<seq<string>>, row: seq<string>)
    ensures LinesOf(table + [row]) == LinesOf(table) + [Line(row)]
  {
  }

  lemma HeaderPlain()
    ensures Fields(HEADER) == HEADER
  {
    assert Unquoted("code") && Unquoted("destination") && Unquoted("clicks") && Unquoted("created_at");
    assert Unquoted("expires_at") && Unquoted("last_accessed") && Unquoted("label") && Unquoted("status");
  }

  // ---------- reading ----------

  datatype Mode = Start | Plain | Quoted | Closing | Return | Bad

  /** The reader between two characters: finished records, finished fields, the field so far. */
  datatype Reader = Reader(rows: seq<seq<string>>, row: seq<string>, field: string, mode: Mode)

  const READER := Reader([], [], "", Start)

  function EndField(r: Reader): Reader {
    r.(row := r.row + [r.field], field := "", mode := Start)
  }

  function EndRecord(r: Reader): Reader {
    r.(rows := r.rows + [r.row + [r.field]], row := [], field := "", mode := Start)
  }

  function Take(r: Reader, c: char): Reader {
    r.(field := r.field + [c], mode := if r.mode == Quoted then Quoted else Plain)
  }

  /** escaped and non-escaped fields, COMMA and CRLF as the grammar has them. */
  function Read1(r: Reader, c: char): Reader {
    match r.mode
    case Bad => r
    case Quoted => if c == '"' then r.(mode := Closing) else Take(r, c)
    case Return => if c == '\n' then EndRecord(r) else r.(mode := Bad)
    case _ =>
      if c == ',' then EndField(r)
      else if c == '\r' then r.(mode := Return)
      else if c == '"' && r.mode == Start then r.(mode := Quoted)
      else if c == '"' && r.mode == Closing then r.(mode := Quoted, field := r.field + ['"'])
      else if c == '"' || c == '\n' || r.mode == Closing then r.(mode := Bad)
      else Take(r, c)
  }

  function Read(r: Reader, text: string): Reader
    decreases |text|
  {
    if text == "" then r else Read(Read1(r, text[0]), text[1..])
  }

  /** The last record may end without a line break. */
  function Parse(text: string): Option<seq<seq<string>>> {
    var r := Read(READER, text);
    if r.mode == Bad || r.mode == Quoted || r.mode == Return then None
    else if r.mode == Start && r.row == [] then Some(r.rows)
    else Some(EndRecord(r).rows)
  }

  lemma {:induction false} ReadParts(r: Reader, a: string, b: string)
    ensures Read(r, a + b) == Read(Read(r, a), b)
    decreases |a|
  {
    if a == "" {
      assert a + b == b;
    } else {
      ReadParts(Read1(r, a[0]), a[1..], b);
      assert (a + b)[1..] == a[1..] + b;
    }
  }

  // ---------- reading what was printed ----------

  lemma {:induction false} ReadPlain(r: Reader, s: string)
    requires r.mode == Start || r.mode == Plain
    requires Unquoted(s)
    ensures Read(r, s) == r.(field := r.field + s, mode := if s == "" then r.mode else Plain)
    decreases |s|
  {
    if s == "" {
      assert r.field + s == r.field;
    } else {
      assert !Special(s[0]) && Unquoted(s[1..]);
      ReadPlain(Take(r, s[0]), s[1..]);
      assert r.field + [s[0]] + s[1..] == r.field + s;
    }
  }

  lemma {:induction false} ReadDoubled(r: Reader, s: string)
    requires r.mode == Quoted
    ensures Read(r, Doubled(s)) == r.(field := r.field + s)
    decreases |s|
  {
    if s == "" {
      assert r.field + s == r.field;
    } else {
      var head := if s[0] == '"' then ['"', '"'] else [s[0]];
      var next := r.(field := r.field + [s[0]]);
      ReadParts(r, head, Doubled(s[1..]));
      ReadOneDoubled(r, s[0]);
      ReadDoubled(next, s[1..]);
      assert r.field + [s[0]] + s[1..] == r.field + s;
    }
  }

  lemma ReadOne(r: Reader, c: char)
    ensures Read(r, [c]) == Read1(r, c)
  {
    assert [c][1..] == "";
  }

  lemma ReadOneDoubled(r: Reader, c: char)
    requires r.mode == Quoted
    ensures Read(r, if c == '"' then ['"', '"'] else [c]) == r.(field := r.field + [c])
  {
    ReadOne(r, c);
    if c == '"' {
      var two := ['"', '"'];
      assert two == ['"'] + ['"'];
      ReadParts(r, ['"'], ['"']);
      ReadOne(r, '"');
      ReadOne(r.(mode := Closing), '"');
    }
  }

  /** A printed field is read back into `field`, and may end there. */
  lemma ReadField(r: Reader, s: string)
    requires r.mode == Start && r.field == ""
    ensures var end := Read(r, CsvField(s));
      end == r.(field := s, mode := end.mode) && (end.mode == Start || end.mode == Plain || end.mode == Closing)
  {
    assert "" + s == s;
    if !Unquoted(s) {
      ReadParts(r, ['"'] + Doubled(s), ['"']);
      ReadParts(r, ['"'], Doubled(s));
      ReadOne(r, '"');
      ReadDoubled(r.(mode := Quoted), s);
      ReadOne(r.(mode := Quoted, field := s), '"');
    } else {
      ReadPlain(r, s);
    }
  }

  lemma ReadFieldComma(r: Reader, s: string)
    requires r.mode == Start && r.field == ""
    ensures Read(r, CsvField(s) + ",") == r.(row := r.row + [s])
  {
    ReadField(r, s);
    ReadParts(r, CsvField(s), ",");
    ReadOne(Read(r, CsvField(s)), ',');
  }

  lemma ReadFieldCrlf(r: Reader, s: string)
    requires r.mode == Start && r.field == ""
    ensures Read(r, CsvField(s) + CRLF) == r.(rows := r.rows + [r.row + [s]], row := [])
  {
    ReadField(r, s);
    var end := Read(r, CsvField(s));
    ReadParts(r, CsvField(s), CRLF);
    assert CRLF == ['\r'] + ['\n'];
    ReadParts(end, ['\r'], ['\n']);
    ReadOne(end, '\r');
    ReadOne(end.(mode := Return), '\n');
  }

  lemma LineStep(row: seq<string>)
    requires |row| > 1
    ensures Line(row) + CRLF == (CsvField(row[0]) + ",") + (Line(row[1..]) + CRLF)
  {
    assert Fields(row)[1..] == Fields(row[1..]);
    assert Line(row) == CsvField(row[0]) + "," + Line(row[1..]);
  }

  lemma ReadFirstField(r: Reader, row: seq<string>)
    requires r.mode == Start && r.field == "" && |row| > 1
    ensures Read(r, Line(row) + CRLF) == Read(r.(row := r.row + [row[0]]), Line(row[1..]) + CRLF)
  {
    LineStep(row);
    ReadFieldComma(r, row[0]);
    ReadParts(r, CsvField(row[0]) + ",", Line(row[1..]) + CRLF);
  }

  lemma ReadLastField(r: Reader, row: seq<string>)
    requires r.mode == Start && r.field == "" && |row| == 1
    ensures Read(r, Line(row) + CRLF) == r.(rows := r.rows + [r.row + row], row := [])
  {
    assert row == [row[0]];
    assert Line(row) == CsvField(row[0]);
    ReadFieldCrlf(r, row[0]);
  }

  lemma {:induction false} ReadLine(r: Reader, row: seq<string>)
    requires r.mode == Start && r.field == "" && row != []
    ensures Read(r, Line(row) + CRLF) == r.(rows := r.rows + [r.row + row], row := [])
    decreases |row|
  {
    hide Line, Read;
    if |row| == 1 {
      ReadLastField(r, row);
    } else {
      var next := r.(row := r.row + [row[0]]);
      ReadFirstField(r, row);
      ReadLine(next, row[1..]);
      assert next.row + row[1..] == r.row + row;
    }
  }

  ghost predicate NoEmptyRow(table: seq<seq<string>>) {
    forall i :: 0 <= i < |table| ==> table[i] != []
  }

  lemma PrintStep(table: seq<seq<string>>)
    requires |table| > 1
    ensures Print(table) == (Line(table[0]) + CRLF) + Print(table[1..])
  {
    assert LinesOf(table)[1..] == LinesOf(table[1..]);
  }

  lemma {:induction false} ReadTable(r: Reader, table: seq<seq<string>>)
    requires r.mode == Start && r.field == "" && r.row == [] && table != [] && NoEmptyRow(table)
    ensures Read(r, Print(table)) == r.(rows := r.rows + table)
    decreases |table|
  {
    if |table| == 1 {
      ReadOnlyRow(r, table);
    } else {
      ReadFirstRow(r, table);
      ReadTable(r.(rows := r.rows + [table[0]]), table[1..]);
      assert r.rows + [table[0]] + table[1..] == r.rows + table;
    }
  }

  lemma ReadOnlyRow(r: Reader, table: seq<seq<string>>)
    requires r.mode == Start && r.field == "" && r.row == [] && |table| == 1 && table[0] != []
    ensures Read(r, Print(table)) == r.(rows := r.rows + table)
  {
    ReadLine(r, table[0]);
    assert [] + table[0] == table[0] && table == [table[0]];
  }

  lemma ReadFirstRow(r: Reader, table: seq<seq<string>>)
    requires r.mode == Start && r.field == "" && r.row == [] && |table| > 1 && table[0] != []
    ensures Read(r, Print(table)) == Read(r.(rows := r.rows + [table[0]]), Print(table[1..]))
  {
    ReadLine(r, table[0]);
    assert [] + table[0] == table[0];
    PrintStep(table);
    ReadParts(r, Line(table[0]) + CRLF, Print(table[1..]));
  }

  // ---------- the round trip ----------

  /** Text cannot tell a record without fields from one with a single empty field. */
  function Visible(table: seq<seq<string>>): (t: seq<seq<string>>)
    ensures t != [] && NoEmptyRow(t)
    ensures t == table <==> table != [] && NoEmptyRow(table)
  {
    if table == [] then [[""]]
    else seq(|table|, i requires 0 <= i < |table| => if table[i] == [] then [""] else table[i])
  }

  lemma VisiblePrintsSame(table: seq<seq<string>>)
    ensures Print(Visible(table)) == Print(table)
  {
    EmptyLine();
    if table == [] {
      assert LinesOf(Visible(table)) == [""];
    } else {
      assert LinesOf(Visible(table)) == LinesOf(table);
    }
  }

  lemma EmptyLine()
    ensures Line([""]) == "" && Line([]) == ""
  {
    assert Fields([""]) == [""];
  }

  /** Every printed table is read back, whatever its fields hold: quotes, commas, CR and LF
      included. It comes back unchanged exactly when it has a record and no record is empty,
      as every export does. */
  lemma RoundTrip(table: seq<seq<string>>)
    ensures Parse(Print(table)) == Some(Visible(table))
    ensures Parse(Print(table)) == Some(table) <==> table != [] && NoEmptyRow(table)
  {
    VisiblePrintsSame(table);
    ReadTable(READER, Visible(table));
    assert [] + Visible(table) == Visible(table);
  }

  lemma ExportRoundTrips(visible: seq<seq<string>>)
    requires forall i :: 0 <= i < |visible| ==> |visible[i]| == |HEADER|
    ensures Parse(Print([HEADER] + visible)) == Some([HEADER] + visible)
  {
    var table := [HEADER] + visible;
    assert table[0] == HEADER;
    RoundTrip(table);
  }

  /** A field is quoted exactly if it has a quote, a comma or a line break in it. */
  lemma QuotedOnlyWhenNeeded(s: string)
    ensures CsvField(s) == s <==> forall i :: 0 <= i < |s| ==> s[i] != '"' && s[i] != ',' && s[i] != '\r' && s[i] != '\n'
    ensures CsvField(s) != s ==> |CsvField(s)| >= |s| + 2 && CsvField(s)[0] == '"' && CsvField(s)[|CsvField(s)| - 1] == '"'
  {
    DoubledLength(s);
  }

  lemma {:induction false} DoubledLength(s: string)
    ensures |Doubled(s)| >= |s|
  {
    if s != "" {
      DoubledLength(s[1..]);
    }
  }
}

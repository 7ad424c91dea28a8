/** The four format encoders of `lib/export.ts`, as pure builders of the file
    content (CSV, JSON) or of the layout plan handed to the spreadsheet and
    PDF libraries. Each returns `None` where the source returns early on an
    empty data set. */
module Encoders {
  import opened Wrappers
  import Text
  import opened Records

  /** `ExportOptions`; `format` is the raw string the dispatcher switches on. */
  datatype Options = Options(
    format: string,
    filename: Option<string>,
    includeHeaders: Option<bool>,
    dateRange: Option<DateRange>,
    selectedFields: Option<seq<string>>)

  /** The destructuring defaults `filename = "export"` and `includeHeaders = true`. */
  function BaseName(o: Options): string {
    o.filename.GetOr("export")
  }

  function WithHeaders(o: Options): bool {
    o.includeHeaders.GetOr(true)
  }

  /** A text file handed to the download sink. */
  datatype Download = Download(name: string, content: string, mime: string)

  // ---------------------------------------------------------------- CSV

  /** `value.replace(/"/g, '""')`. */
  function DoubleQuotes(s: string): string
    decreases |s|
  {
    if |s| == 0 then ""
    else (if s[0] == '"' then "\"\"" else [s[0]]) + DoubleQuotes(s[1..])
  }

  predicate NeedsQuoting(s: string) {
    ',' in s || '"' in s
  }

  /** Reads the inside of a quoted CSV field: `""` is one quote, a lone quote is malformed. */
  function Unescape(t: string): Option<string>
    decreases |t|
  {
    if |t| == 0 then Some("")
    else if t[0] == '"' then
      if |t| >= 2 && t[1] == '"' then
        match Unescape(t[2..])
        case Some(u) => Some("\"" + u)
        case None => None
      else None
    else
      match Unescape(t[1..])
      case Some(u) => Some([t[0]] + u)
      case None => None
  }

  /** A standard reader of one quoted CSV field. */
  function ParseQuoted(t: string): Option<string> {
    if |t| >= 2 && t[0] == '"' && t[|t| - 1] == '"' then Unescape(t[1..|t| - 1]) else None
  }

  lemma {:induction false} UnescapeDoubleQuotes(s: string)
    ensures Unescape(DoubleQuotes(s)) == Some(s)
    decreases |s|
  {
    if |s| > 0 {
      UnescapeDoubleQuotes(s[1..]);
      var d := DoubleQuotes(s);
      if s[0] == '"' {
        assert d[2..] == DoubleQuotes(s[1..]);
      } else {
        assert d[1..] == DoubleQuotes(s[1..]);
      }
      assert [s[0]] + s[1..] == s;
    }
  }

  lemma {:induction false} DoubleQuotesAvoids(s: string, c: char)
    requires c != '"' && c !in s
    ensures c !in DoubleQuotes(s)
    decreases |s|
  {
    if |s| > 0 {
      DoubleQuotesAvoids(s[1..], c);
    }
  }

  /** One CSV cell: strings holding a comma or quote are quoted with inner quotes
      doubled; every other value is emitted as is, and `Array.join` writes
      `null`/`undefined` as the empty string. */
  function CsvCell(v: Value): (cell: string)
    ensures v.Str? && NeedsQuoting(v.s) ==> ParseQuoted(cell) == Some(v.s)
    ensures v.Str? && NeedsQuoting(v.s) ==> cell[0] == '"' && cell[|cell| - 1] == '"'
    ensures v.Str? && !NeedsQuoting(v.s) ==> cell == v.s
    ensures v.Null? || v.Undefined? ==> cell == ""
    ensures v.Num? ==> cell == Text.IntToString(v.n)
    ensures v.Bool? ==> cell == (if v.b then "true" else "false")
  {
    match v
    case Str(s) =>
      if NeedsQuoting(s) then
        UnescapeDoubleQuotes(s);
        var cell := "\"" + DoubleQuotes(s) + "\"";
        assert cell[1..|cell| - 1] == DoubleQuotes(s);
        cell
      else s
    case Null => ""
    case Undefined => ""
    case _ => ToText(v)
  }

  /** A cell never contains a newline unless the string value does: newlines are not quoted. */
  lemma CsvCellNewline(v: Value)
    requires !v.Str? || '\n' !in v.s
    ensures '\n' !in CsvCell(v)
  {
    match v
    case Str(s) =>
      if NeedsQuoting(s) {
        DoubleQuotesAvoids(s, '\n');
      }
    case Num(n) =>
    case _ =>
  }

  function CsvCells(row: Record, headers: seq<string>): (cells: seq<string>)
    ensures |cells| == |headers|
    ensures forall j :: 0 <= j < |headers| ==> cells[j] == CsvCell(Lookup(row, headers[j]))
  {
    seq(|headers|, j requires 0 <= j < |headers| => CsvCell(Lookup(row, headers[j])))
  }

  function CsvLine(row: Record, headers: seq<string>): string {
    Text.Join(CsvCells(row, headers), ",")
  }

  function CsvLines(rows: seq<Record>, headers: seq<string>, withHeader: bool): (lines: seq<string>)
    ensures |lines| == |rows| + (if withHeader then 1 else 0)
  {
    (if withHeader then [Text.Join(headers, ",")] else [])
      + seq(|rows|, i requires 0 <= i < |rows| => CsvLine(rows[i], headers))
  }

  /** `exportToCSV`: columns are the keys of the first projected row. */
  function EncodeCsv(data: seq<Record>, o: Options): (r: Option<Download>)
    ensures r.None? <==> |data| == 0
    ensures r.Some? ==> r.value.name == BaseName(o) + ".csv" && r.value.mime == "text/csv"
  {
    if |data| == 0 then None
    else
      var rows := ProjectAll(data, o.selectedFields);
      var headers := Keys(rows[0]);
      Some(Download(BaseName(o) + ".csv", Text.Join(CsvLines(rows, headers, WithHeaders(o)), "\n"), "text/csv"))
  }

  /** No string value under a column contains a newline. */
  predicate NoNewlineCells(rows: seq<Record>, headers: seq<string>) {
    forall i, j :: 0 <= i < |rows| && 0 <= j < |headers| ==>
      var v := Lookup(rows[i], headers[j]); !v.Str? || '\n' !in v.s
  }

  /** The CSV document: read back line by line, it is one unescaped header line
      when headers are on, then exactly one line per record, provided no header
      and no string cell contains a newline. */
  lemma CsvDocumentShape(data: seq<Record>, o: Options)
    requires |data| > 0
    requires var rows := ProjectAll(data, o.selectedFields);
      var headers := Keys(rows[0]);
      && Text.NoPieceHas(headers, '\n')
      && NoNewlineCells(rows, headers)
    ensures var rows := ProjectAll(data, o.selectedFields);
      var headers := Keys(rows[0]);
      var lines := Text.Split(EncodeCsv(data, o).value.content, '\n');
      && |lines| == |data| + (if WithHeaders(o) then 1 else 0)
      && (WithHeaders(o) ==> lines[0] == Text.Join(headers, ","))
      && (forall i :: 0 <= i < |data| ==>
            lines[i + (if WithHeaders(o) then 1 else 0)] == Text.Join(CsvCells(rows[i], headers), ","))
  {
    var rows := ProjectAll(data, o.selectedFields);
    var headers := Keys(rows[0]);
    var lines := CsvLines(rows, headers, WithHeaders(o));
    assert Text.Split(EncodeCsv(data, o).value.content, '\n') == lines by {
      CsvContent(data, o);
      CsvLinesSingle(rows, headers, WithHeaders(o));
      Text.SplitJoin(lines, '\n');
    }
    CsvLinesAt(rows, headers, WithHeaders(o));
  }

  lemma CsvContent(data: seq<Record>, o: Options)
    requires |data| > 0
    ensures var rows := ProjectAll(data, o.selectedFields);
      EncodeCsv(data, o).value.content == Text.Join(CsvLines(rows, Keys(rows[0]), WithHeaders(o)), ['\n'])
  {
  }

  lemma CsvLinesAt(rows: seq<Record>, headers: seq<string>, withHeader: bool)
    ensures var lines := CsvLines(rows, headers, withHeader);
      && (withHeader ==> lines[0] == Text.Join(headers, ","))
      && forall i :: 0 <= i < |rows| ==>
           lines[i + (if withHeader then 1 else 0)] == Text.Join(CsvCells(rows[i], headers), ",")
  {
  }

  lemma CsvLinesSingle(rows: seq<Record>, headers: seq<string>, withHeader: bool)
    requires Text.NoPieceHas(headers, '\n') && NoNewlineCells(rows, headers)
    ensures Text.NoPieceHas(CsvLines(rows, headers, withHeader), '\n')
  {
    var lines := CsvLines(rows, headers, withHeader);
    forall k | 0 <= k < |lines|
      ensures '\n' !in lines[k]
    {
      if withHeader && k == 0 {
        Text.JoinAvoids(headers, ",", '\n');
      } else {
        var i := k - (if withHeader then 1 else 0);
        assert lines[k] == CsvLine(rows[i], headers);
        CsvLineSingle(rows, headers, i);
      }
    }
  }

  lemma CsvLineSingle(rows: seq<Record>, headers: seq<string>, i: int)
    requires NoNewlineCells(rows, headers) && 0 <= i < |rows|
    ensures '\n' !in CsvLine(rows[i], headers)
  {
    var cells := CsvCells(rows[i], headers);
    forall j | 0 <= j < |cells|
      ensures '\n' !in cells[j]
    {
      CsvCellNewline(Lookup(rows[i], headers[j]));
    }
    Text.JoinAvoids(cells, ",", '\n');
  }

  /** As written, a string holding a newline is not quoted, so it breaks one
      record into two physical lines. */
  lemma CsvNewlineSplitsRecord()
    ensures var o := Options("csv", None, Some(false), None, None);
      var content := EncodeCsv([[("note", Str("a\nb"))]], o).value.content;
      content == "a\nb" && |Text.Split(content, '\n')| == 2
  {
    var row: Record := [("note", Str("a\nb"))];
    assert Keys(row) == ["note"];
    assert !NeedsQuoting("a\nb");
    assert CsvCells(row, ["note"]) == ["a\nb"];
    var s := "a\nb";
    assert s[1..] == "\nb";
    assert s[1..][1..] == "b";
    assert "b"[1..] == "";
  }

  // ---------------------------------------------------------- spreadsheet

  const HeaderFill := "23B245"
  const HeaderFont := "FFFFFF"
  const HeaderBorder := "000000"
  const EvenRowFill := "FFFFFF"
  const OddRowFill := "F8F9FA"
  const DataBorder := "E5E7EB"
  const HeaderHeight := 25
  const DataHeight := 20
  const WidthCap := 50

  /** What `exportToExcel` hands to the spreadsheet library: the records given
      to `json_to_sheet` with their column order, and the layout decisions. */
  datatype SheetPlan = SheetPlan(
    fileName: string,
    sheetName: string,
    rows: seq<Record>,
    columns: seq<string>,
    headerRow: bool,
    firstDataRow: nat,
    colWidths: seq<int>,
    rowHeights: seq<int>,
    dataFills: seq<string>)

  /** `Math.max(...rows.map(row => String(row[key] || "").length))`. */
  function MaxCellLength(rows: seq<Record>, key: string): (m: nat)
    requires |rows| > 0
    ensures forall i :: 0 <= i < |rows| ==> |OrEmptyText(Lookup(rows[i], key))| <= m
    ensures exists i :: 0 <= i < |rows| && |OrEmptyText(Lookup(rows[i], key))| == m
    decreases |rows|
  {
    var here := |OrEmptyText(Lookup(rows[0], key))|;
    if |rows| == 1 then here
    else
      var rest := MaxCellLength(rows[1..], key);
      assert forall i :: 1 <= i < |rows| ==> rows[i] == rows[1..][i - 1];
      if here >= rest then here else rest
  }

  /** `Math.min(Math.max(headerLength, maxDataLength) + 2, 50)`. */
  function ColumnWidth(key: string, rows: seq<Record>): (w: int)
    requires |rows| > 0
    ensures 2 <= w <= WidthCap
    ensures w < WidthCap ==> |key| + 2 <= w
    ensures forall i :: 0 <= i < |rows| && w < WidthCap ==> |OrEmptyText(Lookup(rows[i], key))| + 2 <= w
    ensures w == WidthCap
         || w == |key| + 2
         || exists i :: 0 <= i < |rows| && |OrEmptyText(Lookup(rows[i], key))| + 2 == w
    ensures w == WidthCap ==>
      |key| + 2 >= WidthCap || exists i :: 0 <= i < |rows| && |OrEmptyText(Lookup(rows[i], key))| + 2 >= WidthCap
  {
    var m := MaxCellLength(rows, key);
    var natural := (if |key| >= m then |key| else m) + 2;
    if natural < WidthCap then natural else WidthCap
  }

  /** The width is pinned down: any width that fits the header and every cell
      plus 2 below the cap, is reached by one of them or by the cap, and is
      capped only when the header or some cell needs it, is `ColumnWidth`. */
  lemma ColumnWidthUnique(key: string, rows: seq<Record>, w: int)
    requires |rows| > 0
    requires 2 <= w <= WidthCap
    requires w < WidthCap ==> |key| + 2 <= w
    requires forall i :: 0 <= i < |rows| && w < WidthCap ==> |OrEmptyText(Lookup(rows[i], key))| + 2 <= w
    requires w == WidthCap
          || w == |key| + 2
          || exists i :: 0 <= i < |rows| && |OrEmptyText(Lookup(rows[i], key))| + 2 == w
    requires w == WidthCap ==>
      |key| + 2 >= WidthCap || exists i :: 0 <= i < |rows| && |OrEmptyText(Lookup(rows[i], key))| + 2 >= WidthCap
    ensures w == ColumnWidth(key, rows)
  {
    var v := ColumnWidth(key, rows);
    if w < WidthCap && v < WidthCap {
      if w != |key| + 2 {
        var i :| 0 <= i < |rows| && |OrEmptyText(Lookup(rows[i], key))| + 2 == w;
      }
      if v != |key| + 2 {
        var i :| 0 <= i < |rows| && |OrEmptyText(Lookup(rows[i], key))| + 2 == v;
      }
    }
  }

  /** `Array(n).fill({ hpt: 20 })` then `rowHeights[0] = { hpt: 25 }` with headers. */
  function RowHeights(dataRows: nat, withHeader: bool): seq<int> {
    var all := seq(dataRows + (if withHeader then 1 else 0), _ => DataHeight);
    if withHeader then all[0 := HeaderHeight] else all
  }

  /** The fill of data row `rowIndex` (counted from the first data row). */
  function BandFill(rowIndex: nat): string {
    if rowIndex % 2 == 0 then EvenRowFill else OddRowFill
  }

  /** `exportToExcel`: columns come from `selectedFields` when given (even an
      empty list), else from the first projected row's keys. */
  function EncodeExcel(data: seq<Record>, o: Options): (r: Option<SheetPlan>)
    ensures r.None? <==> |data| == 0
    ensures r.Some? ==> r.value.fileName == BaseName(o) + ".xlsx" && r.value.sheetName == "Export"
  {
    if |data| == 0 then None
    else
      var rows := ProjectAll(data, o.selectedFields);
      var columns := o.selectedFields.GetOr(Keys(rows[0]));
      var withHeader := WithHeaders(o);
      Some(SheetPlan(
        BaseName(o) + ".xlsx",
        "Export",
        rows,
        columns,
        withHeader,
        if withHeader then 1 else 0,
        seq(|columns|, j requires 0 <= j < |columns| => ColumnWidth(columns[j], rows)),
        RowHeights(|rows|, withHeader),
        seq(|rows|, i requires 0 <= i < |rows| => BandFill(i))))
  }

  /** The spreadsheet columns: `selectedFields` when given, else the first
      record's keys, each with a width in [2, 50] that fits the header (and,
      below the cap, every cell text plus 2), and that is 50 only when the
      header or some cell text needs it. */
  lemma ExcelColumns(data: seq<Record>, o: Options)
    requires |data| > 0
    ensures var p := EncodeExcel(data, o).value;
      && p.columns == (if o.selectedFields.Some? then o.selectedFields.value else Keys(data[0]))
      && |p.colWidths| == |p.columns|
      && (forall j :: 0 <= j < |p.colWidths| ==> 2 <= p.colWidths[j] <= 50)
      && (forall j :: 0 <= j < |p.colWidths| && p.colWidths[j] < 50 ==> |p.columns[j]| + 2 <= p.colWidths[j])
      && (forall j, i :: 0 <= j < |p.colWidths| && 0 <= i < |data| && p.colWidths[j] < 50 ==>
            |OrEmptyText(Lookup(ProjectAll(data, o.selectedFields)[i], p.columns[j]))| + 2 <= p.colWidths[j])
      && (forall j :: 0 <= j < |p.colWidths| && p.colWidths[j] == 50 ==>
            || |p.columns[j]| + 2 >= 50
            || exists i :: 0 <= i < |data|
                 && |OrEmptyText(Lookup(ProjectAll(data, o.selectedFields)[i], p.columns[j]))| + 2 >= 50)
  {
    var p := EncodeExcel(data, o).value;
    var rows := ProjectAll(data, o.selectedFields);
    assert p.columns == o.selectedFields.GetOr(Keys(rows[0]));
    ColumnWidths(p.columns, rows, p.colWidths);
  }

  lemma ColumnWidths(columns: seq<string>, rows: seq<Record>, widths: seq<int>)
    requires |rows| > 0
    requires |widths| == |columns| && forall j :: 0 <= j < |columns| ==> widths[j] == ColumnWidth(columns[j], rows)
    ensures forall j :: 0 <= j < |widths| ==> 2 <= widths[j] <= 50
    ensures forall j :: 0 <= j < |widths| && widths[j] < 50 ==> |columns[j]| + 2 <= widths[j]
    ensures forall j, i :: 0 <= j < |widths| && 0 <= i < |rows| && widths[j] < 50 ==>
      |OrEmptyText(Lookup(rows[i], columns[j]))| + 2 <= widths[j]
    ensures forall j :: 0 <= j < |widths| && widths[j] == 50 ==>
      || |columns[j]| + 2 >= 50
      || exists i :: 0 <= i < |rows| && |OrEmptyText(Lookup(rows[i], columns[j]))| + 2 >= 50
  {
  }

  /** The records handed to `json_to_sheet` are the projected data set: the
      rows themselves without a selection, and otherwise, row by row, exactly
      the selected fields the record defines, with the record's values. */
  lemma ExcelCells(data: seq<Record>, o: Options)
    requires |data| > 0
    ensures var p := EncodeExcel(data, o).value;
      && |p.rows| == |data|
      && (o.selectedFields.None? ==> p.rows == data)
      && (o.selectedFields.Some? ==> SelectedRows(data, o.selectedFields.value, p.rows))
  {
    var p := EncodeExcel(data, o).value;
    if o.selectedFields.Some? {
      ProjectedRows(data, o.selectedFields.value);
    }
  }

  /** Row `i` of `out` holds exactly the `fields` that row `i` of `data`
      defines, each once, with that row's value. */
  ghost predicate SelectedRows(data: seq<Record>, fields: seq<string>, out: seq<Record>)
    requires |out| == |data|
  {
    forall i :: 0 <= i < |data| ==>
      && WellFormed(out[i])
      && (forall k :: k in Keys(out[i]) <==> k in fields && Lookup(data[i], k) != Undefined)
      && (forall m :: 0 <= m < |out[i]| ==> out[i][m].1 == Lookup(data[i], out[i][m].0))
  }

  lemma ProjectedRows(data: seq<Record>, fields: seq<string>)
    ensures SelectedRows(data, fields, ProjectAll(data, Some(fields)))
  {
    var out := ProjectAll(data, Some(fields));
    forall i | 0 <= i < |data|
      ensures WellFormed(out[i])
      ensures forall k :: k in Keys(out[i]) <==> k in fields && Lookup(data[i], k) != Undefined
      ensures forall m :: 0 <= m < |out[i]| ==> out[i][m].1 == Lookup(data[i], out[i][m].0)
    {
      ProjectContents(data[i], fields);
    }
  }

  /** The spreadsheet rows: one height per sheet row with the header row
      taller, and data fills alternating by the data row's parity. */
  lemma ExcelRows(data: seq<Record>, o: Options)
    requires |data| > 0
    ensures var p := EncodeExcel(data, o).value;
      var n := |data| + (if WithHeaders(o) then 1 else 0);
      && p.headerRow == WithHeaders(o)
      && |p.rowHeights| == n
      && (forall k :: 0 <= k < n ==> p.rowHeights[k] == (if WithHeaders(o) && k == 0 then 25 else 20))
      && |p.dataFills| == |data|
      && (forall i :: 0 <= i < |data| ==>
            p.dataFills[i] == (if i % 2 == 0 then "FFFFFF" else "F8F9FA"))
      && (forall i :: 0 <= i && i + 1 < |data| ==> p.dataFills[i] != p.dataFills[i + 1])
      && p.firstDataRow == n - |data|
  {
    var p := EncodeExcel(data, o).value;
    RowHeightsShape(|data|, WithHeaders(o));
    forall i | 0 <= i && i + 1 < |data|
      ensures p.dataFills[i] != p.dataFills[i + 1]
    {
      assert p.dataFills[i] == BandFill(i) && p.dataFills[i + 1] == BandFill(i + 1);
    }
  }

  lemma RowHeightsShape(dataRows: nat, withHeader: bool)
    ensures var h := RowHeights(dataRows, withHeader);
      var n := dataRows + (if withHeader then 1 else 0);
      && |h| == n
      && forall k :: 0 <= k < n ==> h[k] == (if withHeader && k == 0 then 25 else 20)
  {
  }

  // ------------------------------------------------------------------ PDF

  /** The document `exportToPDF` lays out: a title block and one table. */
  datatype PdfPlan = PdfPlan(
    fileName: string,
    title: string,
    subtitle: string,
    head: Option<seq<string>>,
    body: seq<seq<string>>,
    startY: int,
    fontSize: int,
    cellPadding: int,
    headFill: (int, int, int),
    headTextColor: int,
    alternateFill: (int, int, int))

  /** `headers.map(header => String(row[header] || ""))`. */
  function PdfRow(row: Record, headers: seq<string>): (cells: seq<string>)
    ensures |cells| == |headers|
    ensures forall j :: 0 <= j < |headers| ==> cells[j] == OrEmptyText(Lookup(row, headers[j]))
  {
    seq(|headers|, j requires 0 <= j < |headers| => OrEmptyText(Lookup(row, headers[j])))
  }

  /** `exportToPDF`; `generatedAt` is the host's `new Date().toLocaleString()`. */
  function EncodePdf(data: seq<Record>, o: Options, generatedAt: string): (r: Option<PdfPlan>)
    ensures r.None? <==> |data| == 0
    ensures r.Some? ==> r.value.fileName == BaseName(o) + ".pdf"
  {
    if |data| == 0 then None
    else
      var rows := ProjectAll(data, o.selectedFields);
      var headers := Keys(rows[0]);
      Some(PdfPlan(
        BaseName(o) + ".pdf",
        "Data Export",
        "Generated on: " + generatedAt,
        if WithHeaders(o) then Some(headers) else None,
        seq(|rows|, i requires 0 <= i < |rows| => PdfRow(rows[i], headers)),
        35, 8, 2, (35, 178, 69), 255, (245, 245, 245)))
  }

  /** The PDF table: a head exactly when headers are on, one body row per record,
      and each cell the text of the record's value under that header, with a
      falsy value (and a field the record lacks) printed as the empty string. */
  lemma PdfTable(data: seq<Record>, o: Options, generatedAt: string)
    requires |data| > 0
    ensures var p := EncodePdf(data, o, generatedAt).value;
      var rows := ProjectAll(data, o.selectedFields);
      var headers := Keys(rows[0]);
      && (p.head.Some? <==> WithHeaders(o))
      && (p.head.Some? ==> p.head.value == headers)
      && |p.body| == |data|
      && (forall i :: 0 <= i < |data| ==> |p.body[i]| == |headers|)
      && (forall i, j :: 0 <= i < |data| && 0 <= j < |headers| ==>
            p.body[i][j] == OrEmptyText(Lookup(rows[i], headers[j])))
      && (forall i, j :: 0 <= i < |data| && 0 <= j < |headers| && !Truthy(Lookup(rows[i], headers[j])) ==>
            p.body[i][j] == "")
      && (forall i, j :: (0 <= i < |data| && 0 <= j < |headers| && headers[j] !in Keys(rows[i])) ==>
            p.body[i][j] == "")
  {
    var rows := ProjectAll(data, o.selectedFields);
    var headers := Keys(rows[0]);
    forall i, j | 0 <= i < |data| && 0 <= j < |headers| && headers[j] !in Keys(rows[i])
      ensures EncodePdf(data, o, generatedAt).value.body[i][j] == ""
    {
      LookupMissing(rows[i], headers[j]);
    }
  }

  // ----------------------------------------------------------------- JSON

  /** The object `exportToJSON` serialises. */
  datatype Envelope = Envelope(exportedAt: string, totalRecords: int, data: seq<Record>)

  datatype JsonFile = JsonFile(name: string, envelope: Envelope, mime: string)

  /** `exportToJSON`; `exportedAt` is the host's `new Date().toISOString()`. */
  function EncodeJson(data: seq<Record>, o: Options, exportedAt: string): (r: Option<JsonFile>)
    ensures r.None? <==> |data| == 0
    ensures r.Some? ==> r.value.name == BaseName(o) + ".json" && r.value.mime == "application/json"
    ensures r.Some? ==> r.value.envelope.totalRecords == |r.value.envelope.data| == |data|
    ensures r.Some? ==> r.value.envelope.exportedAt == exportedAt
    ensures r.Some? && o.selectedFields.None? ==> r.value.envelope.data == data
  {
    if |data| == 0 then None
    else
      var rows := ProjectAll(data, o.selectedFields);
      Some(JsonFile(BaseName(o) + ".json", Envelope(exportedAt, |rows|, rows), "application/json"))
  }

  /** Each record of the JSON envelope holds exactly the selected fields the
      source record defines, with the source's values. */
  lemma JsonRecordsSelected(data: seq<Record>, o: Options, exportedAt: string)
    requires |data| > 0 && o.selectedFields.Some?
    ensures var env := EncodeJson(data, o, exportedAt).value.envelope;
      SelectedRows(data, o.selectedFields.value, env.data)
  {
    ProjectedRows(data, o.selectedFields.value);
  }

}

/** The export entry points of `lib/export.ts`: the date filter and format
    switch of `exportData`, the sequential `batchExport`, and the field helpers
    `getAvailableFields` and `formatFieldName`. */
module Export {
  import opened Wrappers
  import Text
  import opened Records
  import opened Encoders

  datatype Format = Csv | Xlsx | Pdf | Json

  function FormatName(f: Format): string {
    match f
    case Csv => "csv"
    case Xlsx => "xlsx"
    case Pdf => "pdf"
    case Json => "json"
  }

  /** The cases of the `switch (options.format)`. */
  function ParseFormat(s: string): (r: Option<Format>)
    ensures r.Some? ==> FormatName(r.value) == s
    ensures r.None? ==> s != "csv" && s != "xlsx" && s != "pdf" && s != "json"
  {
    if s == "csv" then Some(Csv)
    else if s == "xlsx" then Some(Xlsx)
    else if s == "pdf" then Some(Pdf)
    else if s == "json" then Some(Json)
    else None
  }

  /** What the host supplies: the two renderings of "now" and the `Date` parser. */
  datatype Host = Host(isoNow: string, localeNow: string, parseDate: Value -> Option<int>)

  /** The file one export call hands to its sink. */
  datatype Artifact =
    | CsvArtifact(file: Download)
    | XlsxArtifact(sheet: SheetPlan)
    | PdfArtifact(doc: PdfPlan)
    | JsonArtifact(json: JsonFile)
  {
    function Name(): string {
      match this
      case CsvArtifact(f) => f.name
      case XlsxArtifact(s) => s.fileName
      case PdfArtifact(d) => d.fileName
      case JsonArtifact(j) => j.name
    }

    function Kind(): Format {
      match this
      case CsvArtifact(_) => Csv
      case XlsxArtifact(_) => Xlsx
      case PdfArtifact(_) => Pdf
      case JsonArtifact(_) => Json
    }
  }

  /** Step one of `exportData`: the date filter, applied to the full rows. */
  function DateFiltered(data: seq<Record>, o: Options, parse: Value -> Option<int>): seq<Record> {
    if o.dateRange.Some? then FilterByDate(data, o.dateRange.value, parse) else data
  }

  function Encode(f: Format, rows: seq<Record>, o: Options, host: Host): Option<Artifact> {
    match f
    case Csv => (match EncodeCsv(rows, o) case Some(d) => Some(CsvArtifact(d)) case None => None)
    case Xlsx => (match EncodeExcel(rows, o) case Some(p) => Some(XlsxArtifact(p)) case None => None)
    case Pdf => (match EncodePdf(rows, o, host.localeNow) case Some(p) => Some(PdfArtifact(p)) case None => None)
    case Json => (match EncodeJson(rows, o, host.isoNow) case Some(j) => Some(JsonArtifact(j)) case None => None)
  }

  /** `exportData`: filter by date, then run exactly the encoder `format` names,
      or throw `Unsupported export format: <format>`. `Success(None)` is the
      encoders' silent return on an empty (filtered) data set. `fault` is an
      exception the spreadsheet or PDF library, the download, or `Math.max`
      over a very large data set raises in this call; the encoders reach none
      of them on an empty data set. */
  function ExportData(data: seq<Record>, o: Options, host: Host, fault: Option<string>): (r: Result<Option<Artifact>, string>)
    ensures r.Failure? <==> ((o.format != "csv" && o.format != "xlsx" && o.format != "pdf" && o.format != "json")
      || (fault.Some? && |DateFiltered(data, o, host.parseDate)| > 0))
    ensures ParseFormat(o.format).None? ==> r == Failure("Unsupported export format: " + o.format)
    ensures ParseFormat(o.format).Some? && r.Failure? ==> fault == Some(r.error)
    ensures r.Success? ==> (r.value.None? <==> |DateFiltered(data, o, host.parseDate)| == 0)
    ensures r.Success? && r.value.Some? ==> r.value.value.Name() == BaseName(o) + "." + o.format
    ensures r.Success? && r.value.Some? ==> FormatName(r.value.value.Kind()) == o.format
  {
    var rows := DateFiltered(data, o, host.parseDate);
    match ParseFormat(o.format)
    case None => Failure("Unsupported export format: " + o.format)
    case Some(f) =>
      if fault.Some? && |rows| > 0 then Failure(fault.value) else Success(Encode(f, rows, o, host))
  }

  /** The file's content comes from the rows that survive the date filter, and
      only from them: each artifact is its format's encoder applied to those
      rows, so the sheet and the PDF table hold one row per surviving row, and
      so does the JSON envelope. */
  lemma ExportEncodesFiltered(data: seq<Record>, o: Options, host: Host)
    requires ParseFormat(o.format).Some?
    requires |DateFiltered(data, o, host.parseDate)| > 0
    ensures var rows := DateFiltered(data, o, host.parseDate);
      var r := ExportData(data, o, host, None);
      && r.Success? && r.value.Some?
      && (o.format == "csv" ==> r.value.value == CsvArtifact(EncodeCsv(rows, o).value))
      && (o.format == "xlsx" ==> r.value.value == XlsxArtifact(EncodeExcel(rows, o).value))
      && (o.format == "pdf" ==> r.value.value == PdfArtifact(EncodePdf(rows, o, host.localeNow).value))
      && (o.format == "json" ==> r.value.value == JsonArtifact(EncodeJson(rows, o, host.isoNow).value))
      && (o.format == "xlsx" ==> (r.value.value.XlsxArtifact?
            && r.value.value.sheet.rows == ProjectAll(rows, o.selectedFields)
            && |r.value.value.sheet.rows| == |rows|))
      && (o.format == "pdf" ==> (r.value.value.PdfArtifact?
            && |r.value.value.doc.body| == |rows|
            && forall i :: 0 <= i < |rows| ==>
                 r.value.value.doc.body[i] == PdfRow(ProjectAll(rows, o.selectedFields)[i], Keys(ProjectAll(rows, o.selectedFields)[0]))))
      && (o.format == "json" ==> (r.value.value.JsonArtifact?
            && r.value.value.json.envelope.data == ProjectAll(rows, o.selectedFields)
            && r.value.value.json.envelope.totalRecords == |rows|))
  {
  }

  /** The JSON envelope counts the rows that survive the date filter, whatever
      the field selection: the filter reads `created_at`/`date` before projection. */
  lemma JsonCountsFilteredRows(data: seq<Record>, o: Options, host: Host)
    requires o.format == "json"
    requires |DateFiltered(data, o, host.parseDate)| > 0
    ensures var r := ExportData(data, o, host, None);
      && r.Success? && r.value.Some? && r.value.value.JsonArtifact?
      && r.value.value.json.envelope.totalRecords
         == (if o.dateRange.Some? then CountInRange(data, o.dateRange.value, host.parseDate) else |data|)
  {
    var rows := DateFiltered(data, o, host.parseDate);
    JsonEncodeCounts(rows, o, host);
    if o.dateRange.Some? {
      FilterCount(data, o.dateRange.value, host.parseDate);
    }
  }

  lemma JsonEncodeCounts(rows: seq<Record>, o: Options, host: Host)
    requires |rows| > 0
    ensures var a := Encode(Json, rows, o, host);
      a.Some? && a.value.JsonArtifact? && a.value.json.envelope.totalRecords == |rows|
  {
  }

  /** One named data set of a batch. */
  datatype Dataset = Dataset(name: string, data: seq<Record>)

  /** `new Date().toISOString().split("T")[0]`. */
  function Today(host: Host): string {
    Text.Split(host.isoNow, 'T')[0]
  }

  lemma TodayOfIso(date: string, time: string)
    requires 'T' !in date
    ensures Today(Host(date + "T" + time, "", _ => None)) == date
  {
    Text.SplitPrefix(date, time, 'T');
  }

  /** The options of one batch item: the shared options with `{name}_{today}` as filename. */
  function BatchOptions(o: Options, d: Dataset, host: Host): Options {
    o.(filename := Some(d.name + "_" + Today(host)))
  }

  /** `batchExport`: the data sets are exported one after the other, in order;
      the first throw propagates and no later data set is exported. Each
      export reads the clock anew, so data set `i` is exported under
      `hostAt(i)`, and `faultAt(i)` is the exception its libraries raise, if
      any. `produced[i]` is what data set `i` handed to the sink. */
  method BatchExport(datasets: seq<Dataset>, o: Options, hostAt: nat -> Host, faultAt: nat -> Option<string>)
    returns (produced: seq<Option<Artifact>>, failure: Option<string>)
    ensures |produced| <= |datasets|
    ensures forall i :: 0 <= i < |produced| ==>
      ExportData(datasets[i].data, BatchOptions(o, datasets[i], hostAt(i)), hostAt(i), faultAt(i)) == Success(produced[i])
    ensures forall i :: 0 <= i < |produced| && produced[i].Some? ==>
      produced[i].value.Name() == datasets[i].name + "_" + Today(hostAt(i)) + "." + o.format
    ensures failure.None? ==> |produced| == |datasets|
    ensures failure.Some? ==> (|produced| < |datasets|
      && ExportData(datasets[|produced|].data, BatchOptions(o, datasets[|produced|], hostAt(|produced|)),
                    hostAt(|produced|), faultAt(|produced|)) == Failure(failure.value))
    ensures failure.Some? && ParseFormat(o.format).None? ==>
      |produced| == 0 && failure.value == "Unsupported export format: " + o.format
    ensures failure.Some? && ParseFormat(o.format).Some? ==>
      failure == faultAt(|produced|) && |DateFiltered(datasets[|produced|].data, o, hostAt(|produced|).parseDate)| > 0
    ensures ParseFormat(o.format).Some? && (forall i :: 0 <= i < |datasets| ==> faultAt(i).None?) ==> failure.None?
  {
    produced := [];
    failure := None;
    var i := 0;
    while i < |datasets|
      invariant 0 <= i <= |datasets|
      invariant |produced| == i
      invariant forall k :: 0 <= k < i ==>
        ExportData(datasets[k].data, BatchOptions(o, datasets[k], hostAt(k)), hostAt(k), faultAt(k)) == Success(produced[k])
      invariant forall k :: 0 <= k < i && produced[k].Some? ==>
        produced[k].value.Name() == datasets[k].name + "_" + Today(hostAt(k)) + "." + o.format
      invariant i > 0 ==> ParseFormat(o.format).Some?
    {
      var r := ExportData(datasets[i].data, BatchOptions(o, datasets[i], hostAt(i)), hostAt(i), faultAt(i));
      BatchItem(o, datasets[i], hostAt(i), faultAt(i));
      if r.Failure? {
        failure := Some(r.error);
        return;
      }
      ghost var before := produced;
      produced := produced + [r.value];
      assert forall k :: 0 <= k < i ==> produced[k] == before[k];
      i := i + 1;
    }
  }

  /** One batch item fails on an unsupported format, or else exactly when its
      libraries throw on a non-empty filtered data set; a file it produces is
      named after the data set and the day. */
  lemma BatchItem(o: Options, d: Dataset, host: Host, fault: Option<string>)
    ensures var r := ExportData(d.data, BatchOptions(o, d, host), host, fault);
      && (ParseFormat(o.format).None? ==> r == Failure("Unsupported export format: " + o.format))
      && (ParseFormat(o.format).Some? ==>
            (r.Failure? <==> fault.Some? && |DateFiltered(d.data, o, host.parseDate)| > 0))
      && (r.Failure? && ParseFormat(o.format).Some? ==> fault == Some(r.error))
      && (r.Success? && r.value.Some? ==> r.value.value.Name() == d.name + "_" + Today(host) + "." + o.format)
  {
    assert DateFiltered(d.data, BatchOptions(o, d, host), host.parseDate) == DateFiltered(d.data, o, host.parseDate);
  }

  /** `getAvailableFields`: the first record's keys, or none. */
  function AvailableFields(data: seq<Record>): seq<string> {
    if |data| == 0 then [] else Keys(data[0])
  }

  /** Selecting every available field reproduces the first record when it has
      no `undefined` value. */
  lemma AvailableFieldsRoundTrip(data: seq<Record>)
    requires |data| > 0 && WellFormed(data[0])
    requires forall i :: 0 <= i < |data[0]| ==> data[0][i].1 != Undefined
    ensures Project(data[0], AvailableFields(data)) == data[0]
  {
    ProjectOwnKeys(data[0]);
  }

  /** `word.charAt(0).toUpperCase() + word.slice(1)`. */
  function Capitalize(w: string): string {
    if |w| == 0 then "" else [Text.Upper(w[0])] + w[1..]
  }

  function CapitalizeAll(ws: seq<string>): (r: seq<string>)
    ensures |r| == |ws|
    ensures forall i :: 0 <= i < |ws| ==> r[i] == Capitalize(ws[i])
  {
    seq(|ws|, i requires 0 <= i < |ws| => Capitalize(ws[i]))
  }

  /** `formatFieldName`: split on `_`, capitalise each word, join with spaces. */
  function FormatFieldName(name: string): string {
    Text.Join(CapitalizeAll(Text.Split(name, '_')), " ")
  }

  /** The caption character at position `i`, read off the field name alone. */
  function LabelChar(name: string, i: int): char
    requires 0 <= i < |name|
  {
    if name[i] == '_' then ' '
    else if i == 0 || name[i - 1] == '_' then Text.Upper(name[i])
    else name[i]
  }

  /** A field caption has one character per name character: every `_` becomes a
      space, the first letter of each word is upper-cased, the rest is kept. */
  lemma FormatFieldNameChars(name: string)
    ensures |FormatFieldName(name)| == |name|
    ensures forall i :: 0 <= i < |name| ==> FormatFieldName(name)[i] == LabelChar(name, i)
  {
    var parts := Text.Split(name, '_');
    SplitPiecesFree(name, '_');
    Text.JoinSplit(name, '_');
    JoinedLabels(parts);
  }

  lemma {:induction false} SplitPiecesFree(s: string, c: char)
    ensures Text.NoPieceHas(Text.Split(s, c), c)
    decreases |s|
  {
    if |s| > 0 {
      SplitPiecesFree(s[1..], c);
    }
  }

  lemma {:induction false} JoinedLabels(parts: seq<string>)
    requires |parts| >= 1
    requires Text.NoPieceHas(parts, '_')
    ensures var joined := Text.Join(parts, "_");
      var caption := Text.Join(CapitalizeAll(parts), " ");
      && |caption| == |joined|
      && forall i :: 0 <= i < |joined| ==> caption[i] == LabelChar(joined, i)
    decreases |parts|
  {
    var p := parts[0];
    if |parts| > 1 {
      var rest := parts[1..];
      JoinedLabels(rest);
      Text.JoinCons(p, rest, "_");
      assert CapitalizeAll(parts) == [Capitalize(p)] + CapitalizeAll(rest);
      Text.JoinCons(Capitalize(p), CapitalizeAll(rest), " ");
      LabelsCons(p, Text.Join(rest, "_"), Text.Join(CapitalizeAll(rest), " "));
    } else {
      assert Text.Join(parts, "_") == p;
      assert Text.Join(CapitalizeAll(parts), " ") == Capitalize(p);
    }
  }

  /** Prefixing a word and a separator to a name extends its caption likewise. */
  lemma LabelsCons(p: string, name: string, caption: string)
    requires '_' !in p
    requires |caption| == |name|
    requires forall i :: 0 <= i < |name| ==> caption[i] == LabelChar(name, i)
    ensures |Capitalize(p) + " " + caption| == |p + "_" + name|
    ensures forall i :: 0 <= i < |p + "_" + name| ==>
      (Capitalize(p) + " " + caption)[i] == LabelChar(p + "_" + name, i)
  {
    var joined := p + "_" + name;
    var full := Capitalize(p) + " " + caption;
    forall i | 0 <= i < |joined|
      ensures full[i] == LabelChar(joined, i)
    {
      if i < |p| {
        assert joined[i] == p[i];
        assert i > 0 ==> joined[i - 1] == p[i - 1];
      } else if i > |p| {
        assert joined[i] == name[i - |p| - 1];
        assert full[i] == caption[i - |p| - 1];
        if i - |p| - 1 > 0 {
          assert joined[i - 1] == name[i - |p| - 2];
        }
      }
    }
  }
}

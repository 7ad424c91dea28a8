/** The state logic of the single-export dialog (`ExportDialog`): field
    selection, the request it builds for `exportData`, the guarded export
    handler and the record count it previews. */
module ExportDialog {
  import opened Wrappers
  import opened Seqs
  import opened Records
  import opened Encoders
  import opened Export
  import opened Controls

  /** The dialog's state hooks (open/close and timers are not modelled). */
  datatype Dialog = Dialog(
    format: Format,
    filename: string,
    includeHeaders: bool,
    selected: seq<string>,
    start: string,
    end: string,
    isExporting: bool,
    exportSuccess: bool)

  /** The state on mount; `defaultFilename` defaults to `"export"`. */
  function Initial(defaultFilename: Option<string>): (d: Dialog)
    ensures d.format == Csv && d.includeHeaders && |d.selected| == 0
    ensures d.start == "" && d.end == "" && !d.isExporting && !d.exportSuccess
    ensures defaultFilename.None? ==> d.filename == "export"
    ensures defaultFilename.Some? ==> d.filename == defaultFilename.value
  {
    Dialog(Csv, defaultFilename.GetOr("export"), true, [], "", "", false, false)
  }

  /** The effect that fills an empty selection with every available field. */
  function InitFields(d: Dialog, data: seq<Record>): (r: Dialog)
    ensures |r.selected| == 0 <==> |d.selected| == 0 && |AvailableFields(data)| == 0
    ensures |d.selected| > 0 ==> r == d
    ensures |d.selected| == 0 && |AvailableFields(data)| > 0 ==> r.selected == AvailableFields(data)
    ensures r.(selected := d.selected) == d
  {
    if |AvailableFields(data)| > 0 && |d.selected| == 0 then d.(selected := AvailableFields(data)) else d
  }

  function ToggleField(d: Dialog, field: string): (r: Dialog)
    ensures field in r.selected <==> field !in d.selected
    ensures forall y :: y != field ==> (y in r.selected <==> y in d.selected)
    ensures r.(selected := d.selected) == d
  {
    d.(selected := Toggle(d.selected, field))
  }

  function SelectAll(d: Dialog, data: seq<Record>): (r: Dialog)
    ensures forall f :: f in r.selected <==> f in AvailableFields(data)
    ensures r.selected == AvailableFields(data)
    ensures r.(selected := d.selected) == d
  {
    d.(selected := AvailableFields(data))
  }

  function DeselectAll(d: Dialog): (r: Dialog)
    ensures |r.selected| == 0 && r.(selected := d.selected) == d
  {
    d.(selected := [])
  }

  /** The `ExportOptions` object `handleExport` passes to `exportData`. */
  function BuildOptions(d: Dialog, parseDay: string -> Option<int>): (o: Options)
    ensures ParseFormat(o.format) == Some(d.format)
    ensures BaseName(o) == d.filename && WithHeaders(o) == d.includeHeaders
    ensures o.selectedFields == Some(d.selected)
    ensures o.dateRange.Some? <==> d.start != "" && d.end != ""
  {
    Options(FormatName(d.format), Some(d.filename), Some(d.includeHeaders),
            DateRangeOf(d.start, d.end, parseDay), Some(d.selected))
  }

  /** The result of one click on the export button: the new state, the request
      sent (if any) and the file produced. `fault` stands for a failure inside
      the spreadsheet, PDF or download libraries. */
  datatype Click = Click(dialog: Dialog, request: Option<Options>, file: Option<Artifact>)

  /** `handleExport`: nothing happens with no field selected; otherwise the
      export runs, success is flagged unless it threw, and the busy flag is
      cleared in every case. */
  function HandleExport(d: Dialog, data: seq<Record>, host: Host, parseDay: string -> Option<int>, fault: Option<string>): (c: Click)
    ensures |d.selected| == 0 ==> c.dialog == d && c.request.None? && c.file.None?
    ensures |d.selected| > 0 ==> c.request == Some(BuildOptions(d, parseDay))
    ensures |d.selected| > 0 ==> (!c.dialog.isExporting
      && (c.dialog.exportSuccess <==> fault.None? || |DateFiltered(data, BuildOptions(d, parseDay), host.parseDate)| == 0))
    ensures c.dialog.(isExporting := d.isExporting, exportSuccess := d.exportSuccess) == d
    ensures c.file.Some? ==> (fault.None? && c.file.value.Kind() == d.format
      && c.file.value.Name() == d.filename + "." + FormatName(d.format))
    ensures |d.selected| > 0 && fault.None? ==>
      (c.file.None? <==> |DateFiltered(data, BuildOptions(d, parseDay), host.parseDate)| == 0)
  {
    if |d.selected| == 0 then Click(d, None, None)
    else
      var o := BuildOptions(d, parseDay);
      var r := ExportData(data, o, host, fault);
      if r.Failure? then Click(d.(isExporting := false, exportSuccess := false), Some(o), None)
      else Click(d.(isExporting := false, exportSuccess := true), Some(o), r.value)
  }

  /** `filteredDataCount`: the number of records the dialog previews. */
  function FilteredDataCount(d: Dialog, data: seq<Record>, parseDay: string -> Option<int>, parse: Value -> Option<int>): (n: nat)
    ensures n <= |data|
  {
    match DateRangeOf(d.start, d.end, parseDay)
    case Some(range) => |FilterByDate(data, range, parse)|
    case None => |data|
  }

  /** The previewed count is the number of records in range, and it is exactly
      the number of records the exported file holds. */
  lemma PreviewCountsRange(d: Dialog, data: seq<Record>, parseDay: string -> Option<int>, host: Host)
    ensures FilteredDataCount(d, data, parseDay, host.parseDate)
      == (if d.start != "" && d.end != ""
          then CountInRange(data, DateRange(parseDay(d.start), parseDay(d.end)), host.parseDate)
          else |data|)
    ensures FilteredDataCount(d, data, parseDay, host.parseDate)
      == |DateFiltered(data, BuildOptions(d, parseDay), host.parseDate)|
  {
    if d.start != "" && d.end != "" {
      FilterCount(data, DateRange(parseDay(d.start), parseDay(d.end)), host.parseDate);
    }
  }

  /** A JSON export reports as `totalRecords` the count the dialog previewed. */
  lemma JsonTotalIsPreview(d: Dialog, data: seq<Record>, host: Host, parseDay: string -> Option<int>)
    requires d.format == Json && |d.selected| > 0
    requires FilteredDataCount(d, data, parseDay, host.parseDate) > 0
    ensures var c := HandleExport(d, data, host, parseDay, None);
      && c.file.Some? && c.file.value.JsonArtifact?
      && c.file.value.json.envelope.totalRecords == FilteredDataCount(d, data, parseDay, host.parseDate)
  {
    PreviewCountsRange(d, data, parseDay, host);
    var o := BuildOptions(d, parseDay);
    JsonEncodeCounts(DateFiltered(data, o, host.parseDate), o, host);
  }
}

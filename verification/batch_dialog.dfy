/** The state logic of the batch-export dialog (`BatchExportDialog`): source
    selection, the per-source progress list and the sequential batch run. */
module BatchDialog {
  import opened Wrappers
  import opened Seqs
  import Text
  import opened Records
  import opened Encoders
  import opened Export
  import opened Controls

  datatype Status = Pending | Processing | Completed | Error

  /** One `BatchExportProgress` entry; `progress` is a percentage. */
  datatype Progress = Progress(sourceId: string, status: Status, progress: int, filename: Option<string>, error: Option<string>)

  /** A `DataSource` (its presentation fields are left out). */
  datatype Source = Source(id: string, name: string, data: seq<Record>)

  datatype Batch = Batch(
    selected: seq<string>,
    format: Format,
    includeHeaders: bool,
    prefix: string,
    start: string,
    end: string,
    isExporting: bool,
    progress: seq<Progress>,
    complete: bool)

  /** The state on mount. */
  function Initial(): (b: Batch)
    ensures |b.selected| == 0 && |b.progress| == 0 && b.prefix == "batch_export"
    ensures b.format == Csv && b.includeHeaders && !b.isExporting && !b.complete
  {
    Batch([], Csv, true, "batch_export", "", "", false, [], false)
  }

  /** One pending entry per selected id, in selection order. */
  function PendingFor(ids: seq<string>): (ps: seq<Progress>)
    ensures |ps| == |ids|
    ensures forall i :: 0 <= i < |ids| ==> ps[i] == Progress(ids[i], Pending, 0, None, None)
  {
    seq(|ids|, i requires 0 <= i < |ids| => Progress(ids[i], Pending, 0, None, None))
  }

  /** The effect on `selectedSources`: a non-empty selection resets the progress list. */
  function SelectionEffect(b: Batch): (r: Batch)
    ensures |b.selected| > 0 ==> (|r.progress| == |b.selected|
      && forall i :: 0 <= i < |b.selected| ==> r.progress[i].sourceId == b.selected[i] && r.progress[i].status == Pending)
    ensures |b.selected| == 0 ==> r == b
    ensures r.(progress := b.progress) == b
  {
    if |b.selected| > 0 then b.(progress := PendingFor(b.selected)) else b
  }

  function ToggleSource(b: Batch, id: string): (r: Batch)
    ensures id in r.selected <==> id !in b.selected
    ensures forall y :: y != id ==> (y in r.selected <==> y in b.selected)
    ensures r.(selected := b.selected) == b
  {
    b.(selected := Toggle(b.selected, id))
  }

  function SourceIds(ss: seq<Source>): (ids: seq<string>)
    ensures |ids| == |ss|
    ensures forall i :: 0 <= i < |ss| ==> ids[i] == ss[i].id
  {
    seq(|ss|, i requires 0 <= i < |ss| => ss[i].id)
  }

  function SelectAll(b: Batch, sources: seq<Source>): (r: Batch)
    ensures forall s :: s in sources ==> s.id in r.selected
    ensures forall id :: id in r.selected ==> exists s :: s in sources && s.id == id
    ensures |r.selected| == |sources| && forall i :: 0 <= i < |sources| ==> r.selected[i] == sources[i].id
    ensures r.(selected := b.selected) == b
  {
    b.(selected := SourceIds(sources))
  }

  function DeselectAll(b: Batch): (r: Batch)
    ensures |r.selected| == 0 && r.(selected := b.selected) == b
  {
    b.(selected := [])
  }

  /** `dataSources.filter(source => selectedSources.includes(source.id))`:
      the run follows the order of the data sources, not of the clicks. */
  function SelectedSources(sources: seq<Source>, selected: seq<string>): (r: seq<Source>)
    ensures IsSubsequence(r, sources)
    ensures forall s :: s in r <==> s in sources && s.id in selected
    decreases |sources|
  {
    if |sources| == 0 then []
    else
      var rest := SelectedSources(sources[1..], selected);
      if sources[0].id in selected then
        assert sources == [sources[0]] + sources[1..];
        [sources[0]] + rest
      else
        SubsequenceSkip(rest, sources);
        rest
  }

  /** The options of one source: the prefix and the slug of the source name as
      file name, no field selection, and the date range when both inputs are set. */
  function SourceOptions(b: Batch, src: Source, parseDay: string -> Option<int>): (o: Options)
    ensures ParseFormat(o.format) == Some(b.format)
    ensures BaseName(o) == b.prefix + "_" + Text.Slug(src.name)
    ensures WithHeaders(o) == b.includeHeaders && o.selectedFields.None?
    ensures o.dateRange.Some? <==> b.start != "" && b.end != ""
  {
    Options(FormatName(b.format), Some(b.prefix + "_" + Text.Slug(src.name)), Some(b.includeHeaders),
            DateRangeOf(b.start, b.end, parseDay), None)
  }

  /** The file name the progress entry records: `${options.filename}.${format}`. */
  function EntryFileName(b: Batch, src: Source): string {
    b.prefix + "_" + Text.Slug(src.name) + "." + FormatName(b.format)
  }

  /** `prev.map(item => item.sourceId === id ? { ...item, status, progress } : item)`. */
  function Mark(ps: seq<Progress>, id: string, st: Status, pct: int): seq<Progress> {
    seq(|ps|, i requires 0 <= i < |ps| => if ps[i].sourceId == id then ps[i].(status := st, progress := pct) else ps[i])
  }

  /** The update after a successful export of source `id`. */
  function Finish(ps: seq<Progress>, id: string, file: string): seq<Progress> {
    seq(|ps|, i requires 0 <= i < |ps| =>
      if ps[i].sourceId == id then ps[i].(status := Completed, progress := 100, filename := Some(file)) else ps[i])
  }

  /** The `catch` branch: every entry is marked as failed. */
  function FailAll(ps: seq<Progress>): seq<Progress> {
    seq(|ps|, i requires 0 <= i < |ps| => ps[i].(status := Error, error := Some("Export failed")))
  }

  /** One `exportData` call of the batch. */
  datatype Call = Call(source: Source, options: Options)

  datatype Run = Run(progress: seq<Progress>, calls: seq<Call>, failed: bool)

  /** The `for` loop over the selected sources. Each source is marked as
      processing, then completed by the progress simulation (only its final
      step is modelled), then exported; a source whose id is in `throwing`
      stands for an `exportData` call that throws, which ends the loop.
      `throwing` may name a source whose date-filtered data is empty, although
      `exportData` returns before any library call there; this only admits
      more runs than the program can produce. */
  function RunSources(todo: seq<Source>, ps: seq<Progress>, b: Batch, parseDay: string -> Option<int>, throwing: set<string>): (run: Run)
    ensures |run.progress| == |ps|
    ensures forall i :: 0 <= i < |ps| ==> run.progress[i].sourceId == ps[i].sourceId
    ensures |run.calls| <= |todo|
    ensures forall k :: 0 <= k < |run.calls| ==> run.calls[k] == Call(todo[k], SourceOptions(b, todo[k], parseDay))
    ensures !run.failed ==> |run.calls| == |todo| && forall k :: 0 <= k < |todo| ==> todo[k].id !in throwing
    ensures run.failed ==> (0 < |run.calls| && todo[|run.calls| - 1].id in throwing
      && forall k :: 0 <= k < |run.calls| - 1 ==> todo[k].id !in throwing)
    decreases |todo|
  {
    if |todo| == 0 then Run(ps, [], false)
    else
      var src := todo[0];
      var call := Call(src, SourceOptions(b, src, parseDay));
      var started := Mark(Mark(ps, src.id, Processing, 0), src.id, Completed, 100);
      if src.id in throwing then Run(started, [call], true)
      else
        var rest := RunSources(todo[1..], Finish(started, src.id, EntryFileName(b, src)), b, parseDay, throwing);
        ConsCalls(todo, rest, b, parseDay, throwing);
        assert |[call] + rest.calls| == |rest.calls| + 1;
        Run(rest.progress, [call] + rest.calls, rest.failed)
  }

  /** The calls of the rest of the loop, shifted behind the first source's call. */
  lemma ConsCalls(todo: seq<Source>, rest: Run, b: Batch, parseDay: string -> Option<int>, throwing: set<string>)
    requires |todo| > 0 && todo[0].id !in throwing
    requires |rest.calls| <= |todo| - 1
    requires forall k :: 0 <= k < |rest.calls| ==> rest.calls[k] == Call(todo[1..][k], SourceOptions(b, todo[1..][k], parseDay))
    requires !rest.failed ==> |rest.calls| == |todo| - 1 && forall k :: 0 <= k < |todo| - 1 ==> todo[1..][k].id !in throwing
    requires rest.failed ==> (0 < |rest.calls| && todo[1..][|rest.calls| - 1].id in throwing
      && forall k :: 0 <= k < |rest.calls| - 1 ==> todo[1..][k].id !in throwing)
    ensures var calls := [Call(todo[0], SourceOptions(b, todo[0], parseDay))] + rest.calls;
      forall k :: 0 <= k < |calls| ==> calls[k] == Call(todo[k], SourceOptions(b, todo[k], parseDay))
    ensures !rest.failed ==> forall k :: 0 <= k < |todo| ==> todo[k].id !in throwing
    ensures rest.failed ==> (todo[|rest.calls|].id in throwing
      && forall k :: 0 <= k < |rest.calls| ==> todo[k].id !in throwing)
  {
    CallsShift(todo, rest.calls, b, parseDay);
    if rest.failed {
      FailedShift(todo, |rest.calls|, throwing);
    } else {
      CleanShift(todo, |todo| - 1, throwing);
    }
  }

  lemma FailedShift(todo: seq<Source>, n: int, throwing: set<string>)
    requires |todo| > 0 && todo[0].id !in throwing && 0 < n <= |todo| - 1
    requires todo[1..][n - 1].id in throwing
    requires forall k :: 0 <= k < n - 1 ==> todo[1..][k].id !in throwing
    ensures todo[n].id in throwing && forall k :: 0 <= k < n ==> todo[k].id !in throwing
  {
    CleanShift(todo, n - 1, throwing);
    assert todo[n] == todo[1..][n - 1];
  }

  lemma CallsShift(todo: seq<Source>, calls: seq<Call>, b: Batch, parseDay: string -> Option<int>)
    requires |todo| > 0 && |calls| <= |todo| - 1
    requires forall k :: 0 <= k < |calls| ==> calls[k] == Call(todo[1..][k], SourceOptions(b, todo[1..][k], parseDay))
    ensures var all := [Call(todo[0], SourceOptions(b, todo[0], parseDay))] + calls;
      forall k :: 0 <= k < |all| ==> all[k] == Call(todo[k], SourceOptions(b, todo[k], parseDay))
  {
    var all := [Call(todo[0], SourceOptions(b, todo[0], parseDay))] + calls;
    forall k | 0 < k < |all|
      ensures all[k] == Call(todo[k], SourceOptions(b, todo[k], parseDay))
    {
      assert all[k] == calls[k - 1] && todo[k] == todo[1..][k - 1];
    }
  }

  lemma CleanShift(todo: seq<Source>, n: int, throwing: set<string>)
    requires |todo| > 0 && todo[0].id !in throwing && 0 <= n <= |todo| - 1
    requires forall k :: 0 <= k < n ==> todo[1..][k].id !in throwing
    ensures forall k :: 0 <= k < n + 1 ==> todo[k].id !in throwing
  {
    forall k | 0 < k < n + 1
      ensures todo[k].id !in throwing
    {
      assert todo[k] == todo[1..][k - 1];
    }
  }

  datatype BatchClick = BatchClick(batch: Batch, calls: seq<Call>)

  /** `handleBatchExport`. */
  function HandleBatchExport(b: Batch, sources: seq<Source>, parseDay: string -> Option<int>, throwing: set<string>): (c: BatchClick)
    ensures |b.selected| == 0 ==> c.batch == b && |c.calls| == 0
    ensures |b.selected| > 0 ==> !c.batch.isExporting && |c.batch.progress| == |b.selected|
    ensures forall i :: 0 <= i < |b.selected| && |b.selected| > 0 ==> c.batch.progress[i].sourceId == b.selected[i]
    ensures c.batch.(isExporting := b.isExporting, progress := b.progress, complete := b.complete) == b
  {
    if |b.selected| == 0 then BatchClick(b, [])
    else
      var run := RunSources(SelectedSources(sources, b.selected), PendingFor(b.selected), b, parseDay, throwing);
      RunKeepsIds(b, sources, parseDay, throwing);
      if run.failed then BatchClick(b.(isExporting := false, complete := false, progress := FailAll(run.progress)), run.calls)
      else BatchClick(b.(isExporting := false, complete := true, progress := run.progress), run.calls)
  }

  /** The run over the selected sources keeps one entry per selected id. */
  lemma RunKeepsIds(b: Batch, sources: seq<Source>, parseDay: string -> Option<int>, throwing: set<string>)
    ensures var run := RunSources(SelectedSources(sources, b.selected), PendingFor(b.selected), b, parseDay, throwing);
      && |run.progress| == |b.selected|
      && (forall i :: 0 <= i < |b.selected| ==> run.progress[i].sourceId == b.selected[i])
      && (forall i :: 0 <= i < |b.selected| ==> FailAll(run.progress)[i].sourceId == b.selected[i])
  {
  }

  /** The entries' statuses, in list order. */
  function Statuses(ps: seq<Progress>): (ss: seq<Status>)
    ensures |ss| == |ps|
    ensures forall i :: 0 <= i < |ps| ==> ss[i] == ps[i].status
  {
    seq(|ps|, i requires 0 <= i < |ps| => ps[i].status)
  }

  /** `completedExports`: the number of entries whose status is completed. */
  function CompletedExports(ps: seq<Progress>): (n: nat)
    ensures n <= |ps|
    ensures n == multiset(Statuses(ps))[Completed]
    decreases |ps|
  {
    if |ps| == 0 then 0
    else
      assert Statuses(ps) == [ps[0].status] + Statuses(ps[1..]);
      (if ps[0].status == Completed then 1 else 0) + CompletedExports(ps[1..])
  }

  function ProgressSum(ps: seq<Progress>): int
    decreases |ps|
  {
    if |ps| == 0 then 0 else ps[0].progress + ProgressSum(ps[1..])
  }

  /** `totalProgress`: the mean percentage, 0 for an empty list. */
  function TotalProgress(ps: seq<Progress>): real {
    if |ps| > 0 then ProgressSum(ps) as real / |ps| as real else 0.0
  }

  /** Entries of ids the run never reaches keep their values. */
  lemma {:induction false} RunUntouched(todo: seq<Source>, ps: seq<Progress>, b: Batch, parseDay: string -> Option<int>, throwing: set<string>, i: int)
    requires 0 <= i < |ps| && ps[i].sourceId !in SourceIds(todo)
    ensures RunSources(todo, ps, b, parseDay, throwing).progress[i] == ps[i]
    decreases |todo|
  {
    if |todo| > 0 {
      var src := todo[0];
      assert src.id == SourceIds(todo)[0];
      var started := Mark(Mark(ps, src.id, Processing, 0), src.id, Completed, 100);
      if src.id !in throwing {
        var next := Finish(started, src.id, EntryFileName(b, src));
        assert SourceIds(todo[1..]) == SourceIds(todo)[1..];
        RunUntouched(todo[1..], next, b, parseDay, throwing, i);
      }
    }
  }

  /** A run that does not fail leaves every entry of an exported source
      completed at 100% with the source's file name, and no other entry changed. */
  lemma {:induction false} RunEntries(todo: seq<Source>, ps: seq<Progress>, b: Batch, parseDay: string -> Option<int>, throwing: set<string>)
    requires Distinct(SourceIds(todo))
    ensures var run := RunSources(todo, ps, b, parseDay, throwing);
      !run.failed ==> forall i, j :: 0 <= i < |ps| && 0 <= j < |todo| && ps[i].sourceId == todo[j].id ==>
        run.progress[i] == ps[i].(status := Completed, progress := 100, filename := Some(EntryFileName(b, todo[j])))
    decreases |todo|
  {
    var run := RunSources(todo, ps, b, parseDay, throwing);
    if |todo| > 0 && !run.failed {
      var src := todo[0];
      var started := Mark(Mark(ps, src.id, Processing, 0), src.id, Completed, 100);
      var next := Finish(started, src.id, EntryFileName(b, src));
      assert SourceIds(todo[1..]) == SourceIds(todo)[1..];
      RunEntries(todo[1..], next, b, parseDay, throwing);
      forall i, j | 0 <= i < |ps| && 0 <= j < |todo| && ps[i].sourceId == todo[j].id
        ensures run.progress[i] == ps[i].(status := Completed, progress := 100, filename := Some(EntryFileName(b, todo[j])))
      {
        if j == 0 {
          assert SourceIds(todo)[0] == src.id;
          assert forall k :: 0 <= k < |todo| - 1 ==> SourceIds(todo[1..])[k] == SourceIds(todo)[k + 1];
          assert src.id !in SourceIds(todo[1..]);
          RunUntouched(todo[1..], next, b, parseDay, throwing, i);
        } else {
          assert SourceIds(todo)[j] != SourceIds(todo)[0];
          assert todo[1..][j - 1] == todo[j];
        }
      }
    }
  }

  /** A batch in which no selected source throws ends complete: each entry
      whose id names a data source is completed at 100% with that source's
      file name, the others stay pending. */
  lemma BatchSucceeds(b: Batch, sources: seq<Source>, parseDay: string -> Option<int>, throwing: set<string>)
    requires |b.selected| > 0 && Distinct(SourceIds(sources))
    requires forall s :: s in sources && s.id in b.selected ==> s.id !in throwing
    ensures var c := HandleBatchExport(b, sources, parseDay, throwing).batch;
      && c.complete && !c.isExporting && |c.progress| == |b.selected|
      && (forall i, j :: 0 <= i < |b.selected| && 0 <= j < |sources| && sources[j].id == b.selected[i] ==>
            c.progress[i] == Progress(b.selected[i], Completed, 100, Some(EntryFileName(b, sources[j])), None))
      && (forall i :: 0 <= i < |b.selected| && b.selected[i] !in SourceIds(sources) ==>
            c.progress[i] == Progress(b.selected[i], Pending, 0, None, None))
  {
    var todo := SelectedSources(sources, b.selected);
    var ps := PendingFor(b.selected);
    var run := RunSources(todo, ps, b, parseDay, throwing);
    SelectedRunSucceeds(b, sources, parseDay, throwing);
    assert HandleBatchExport(b, sources, parseDay, throwing).batch.progress == run.progress;
    SucceedsFound(b, sources, parseDay, throwing);
    SucceedsMissing(b, sources, parseDay, throwing);
  }

  lemma SelectedRunSucceeds(b: Batch, sources: seq<Source>, parseDay: string -> Option<int>, throwing: set<string>)
    requires forall s :: s in sources && s.id in b.selected ==> s.id !in throwing
    ensures !RunSources(SelectedSources(sources, b.selected), PendingFor(b.selected), b, parseDay, throwing).failed
  {
    var todo := SelectedSources(sources, b.selected);
    forall k | 0 <= k < |todo|
      ensures todo[k].id !in throwing
    {
      assert todo[k] in todo;
    }
  }

  lemma SucceedsFound(b: Batch, sources: seq<Source>, parseDay: string -> Option<int>, throwing: set<string>)
    requires Distinct(SourceIds(sources))
    requires forall s :: s in sources && s.id in b.selected ==> s.id !in throwing
    ensures var run := RunSources(SelectedSources(sources, b.selected), PendingFor(b.selected), b, parseDay, throwing);
      forall i, j :: 0 <= i < |b.selected| && 0 <= j < |sources| && sources[j].id == b.selected[i] ==>
        run.progress[i] == Progress(b.selected[i], Completed, 100, Some(EntryFileName(b, sources[j])), None)
  {
    var todo := SelectedSources(sources, b.selected);
    var ps := PendingFor(b.selected);
    var run := RunSources(todo, ps, b, parseDay, throwing);
    SelectedRunSucceeds(b, sources, parseDay, throwing);
    SelectedDistinct(sources, b.selected);
    RunEntries(todo, ps, b, parseDay, throwing);
    forall i, j | 0 <= i < |b.selected| && 0 <= j < |sources| && sources[j].id == b.selected[i]
      ensures run.progress[i] == Progress(b.selected[i], Completed, 100, Some(EntryFileName(b, sources[j])), None)
    {
      var m := SelectedIndex(sources, b.selected, j);
      assert ps[i].sourceId == todo[m].id;
    }
  }

  /** Where a selected source sits among the selected sources. */
  lemma SelectedIndex(sources: seq<Source>, selected: seq<string>, j: int) returns (m: int)
    requires 0 <= j < |sources| && sources[j].id in selected
    ensures 0 <= m < |SelectedSources(sources, selected)| && SelectedSources(sources, selected)[m] == sources[j]
  {
    var todo := SelectedSources(sources, selected);
    assert sources[j] in todo;
    m :| 0 <= m < |todo| && todo[m] == sources[j];
  }

  lemma SucceedsMissing(b: Batch, sources: seq<Source>, parseDay: string -> Option<int>, throwing: set<string>)
    ensures var run := RunSources(SelectedSources(sources, b.selected), PendingFor(b.selected), b, parseDay, throwing);
      forall i :: 0 <= i < |b.selected| && b.selected[i] !in SourceIds(sources) ==>
        run.progress[i] == Progress(b.selected[i], Pending, 0, None, None)
  {
    var todo := SelectedSources(sources, b.selected);
    var ps := PendingFor(b.selected);
    SelectedIdsAmong(sources, b.selected);
    forall i | 0 <= i < |b.selected| && b.selected[i] !in SourceIds(sources)
      ensures RunSources(todo, ps, b, parseDay, throwing).progress[i] == ps[i]
    {
      RunUntouched(todo, ps, b, parseDay, throwing, i);
    }
  }

  lemma SelectedIdsAmong(sources: seq<Source>, selected: seq<string>)
    ensures forall id :: id in SourceIds(SelectedSources(sources, selected)) ==> id in SourceIds(sources)
  {
    var todo := SelectedSources(sources, selected);
    forall id | id in SourceIds(todo)
      ensures id in SourceIds(sources)
    {
      var m :| 0 <= m < |todo| && SourceIds(todo)[m] == id;
      assert todo[m] in sources;
      var j :| 0 <= j < |sources| && sources[j] == todo[m];
      assert SourceIds(sources)[j] == id;
    }
  }

  /** The ids of a filtered list of distinct sources stay distinct. */
  lemma {:induction false} SelectedDistinct(sources: seq<Source>, selected: seq<string>)
    requires Distinct(SourceIds(sources))
    ensures Distinct(SourceIds(SelectedSources(sources, selected)))
    decreases |sources|
  {
    if |sources| > 0 {
      assert SourceIds(sources[1..]) == SourceIds(sources)[1..];
      SelectedDistinct(sources[1..], selected);
      if sources[0].id in selected {
        HeadNotSelectedAgain(sources, selected);
        DistinctConsIds(sources[0], SelectedSources(sources[1..], selected));
      }
    }
  }

  /** With distinct ids, the head's id does not come back among the later selected sources. */
  lemma HeadNotSelectedAgain(sources: seq<Source>, selected: seq<string>)
    requires |sources| > 0 && Distinct(SourceIds(sources))
    ensures var rest := SelectedSources(sources[1..], selected);
      forall k :: 0 <= k < |rest| ==> rest[k].id != sources[0].id
  {
    var rest := SelectedSources(sources[1..], selected);
    forall k | 0 <= k < |rest|
      ensures rest[k].id != sources[0].id
    {
      assert rest[k] in sources[1..];
      var m :| 0 <= m < |sources| - 1 && sources[1..][m] == rest[k];
      assert SourceIds(sources)[m + 1] != SourceIds(sources)[0];
    }
  }

  lemma DistinctConsIds(s0: Source, rest: seq<Source>)
    requires Distinct(SourceIds(rest))
    requires forall k :: 0 <= k < |rest| ==> rest[k].id != s0.id
    ensures Distinct(SourceIds([s0] + rest))
  {
    var ids := SourceIds([s0] + rest);
    assert ids == [s0.id] + SourceIds(rest);
  }

  /** A batch in which some selected source throws marks every entry as
      failed and never reports completion: an error in one source is not
      isolated from the others. */
  lemma BatchFails(b: Batch, sources: seq<Source>, parseDay: string -> Option<int>, throwing: set<string>, s: Source)
    requires s in sources && s.id in b.selected && s.id in throwing
    ensures var c := HandleBatchExport(b, sources, parseDay, throwing).batch;
      && !c.complete && !c.isExporting && CompletedExports(c.progress) == 0
      && forall i :: 0 <= i < |c.progress| ==> c.progress[i].status == Error && c.progress[i].error == Some("Export failed")
  {
    var todo := SelectedSources(sources, b.selected);
    var run := RunSources(todo, PendingFor(b.selected), b, parseDay, throwing);
    assert s in todo;
    assert run.failed;
    NoneCompleted(FailAll(run.progress));
  }

  lemma {:induction false} NoneCompleted(ps: seq<Progress>)
    requires forall i :: 0 <= i < |ps| ==> ps[i].status == Error
    ensures CompletedExports(ps) == 0
    decreases |ps|
  {
    if |ps| > 0 {
      NoneCompleted(ps[1..]);
    }
  }

  /** The calls of a batch run: the selected sources in data-source order,
      each with its own options, stopping right after the first one that throws. */
  lemma BatchCalls(b: Batch, sources: seq<Source>, parseDay: string -> Option<int>, throwing: set<string>)
    requires |b.selected| > 0
    ensures var c := HandleBatchExport(b, sources, parseDay, throwing);
      var todo := SelectedSources(sources, b.selected);
      && |c.calls| <= |todo|
      && (forall k :: 0 <= k < |c.calls| ==> c.calls[k] == Call(todo[k], SourceOptions(b, todo[k], parseDay)))
      && (c.batch.complete <==> forall k :: 0 <= k < |todo| ==> todo[k].id !in throwing)
      && (c.batch.complete ==> |c.calls| == |todo|)
      && (!c.batch.complete ==> (0 < |c.calls| && todo[|c.calls| - 1].id in throwing
            && forall k :: 0 <= k < |c.calls| - 1 ==> todo[k].id !in throwing))
  {
  }

  /** When every selected id names a source and nothing throws, the progress
      panel shows all exports completed and a total of 100%. */
  lemma BatchTotals(b: Batch, sources: seq<Source>, parseDay: string -> Option<int>, throwing: set<string>)
    requires |b.selected| > 0 && Distinct(SourceIds(sources))
    requires forall id :: id in b.selected ==> id in SourceIds(sources) && id !in throwing
    ensures var c := HandleBatchExport(b, sources, parseDay, throwing).batch;
      CompletedExports(c.progress) == |b.selected| && TotalProgress(c.progress) == 100.0
  {
    var c := HandleBatchExport(b, sources, parseDay, throwing).batch;
    EveryEntryDone(b, sources, parseDay, throwing);
    AllCompleted(c.progress);
    MeanOfHundreds(|c.progress|);
  }

  lemma MeanOfHundreds(n: nat)
    requires n > 0
    ensures (100 * n) as real / n as real == 100.0
  {
    assert (100 * n) as real == 100.0 * n as real;
  }

  lemma EveryEntryDone(b: Batch, sources: seq<Source>, parseDay: string -> Option<int>, throwing: set<string>)
    requires |b.selected| > 0 && Distinct(SourceIds(sources))
    requires forall id :: id in b.selected ==> id in SourceIds(sources) && id !in throwing
    ensures var c := HandleBatchExport(b, sources, parseDay, throwing).batch;
      forall i :: 0 <= i < |c.progress| ==> c.progress[i].status == Completed && c.progress[i].progress == 100
  {
    BatchSucceeds(b, sources, parseDay, throwing);
    var c := HandleBatchExport(b, sources, parseDay, throwing).batch;
    forall i | 0 <= i < |c.progress|
      ensures c.progress[i].status == Completed && c.progress[i].progress == 100
    {
      assert b.selected[i] in b.selected;
      var j :| 0 <= j < |sources| && SourceIds(sources)[j] == b.selected[i];
    }
  }

  lemma {:induction false} AllCompleted(ps: seq<Progress>)
    requires forall i :: 0 <= i < |ps| ==> ps[i].status == Completed && ps[i].progress == 100
    ensures CompletedExports(ps) == |ps| && ProgressSum(ps) == 100 * |ps|
    decreases |ps|
  {
    if |ps| > 0 {
      AllCompleted(ps[1..]);
    }
  }
}

/** The pure helpers of the schedule table (`ScheduleManager`): the frequency
    description, the status and format badges and the pause/resume request. */
module ScheduleManager {
  import opened Wrappers
  import Text
  import opened Schedule

  /** A stored schedule: the created draft plus what the owner adds. */
  datatype Scheduled = Scheduled(id: string, draft: Draft, createdAt: int, runCount: int)

  const WeekDays: seq<string> := ["Sun", "Mon", "Tue", "Wed", "Thu", "Fri", "Sat"]

  /** `weekDays[schedule.dayOfWeek || 0]`: an absent or zero day is Sunday, an
      index outside the array renders as `undefined`. */
  function DayName(dow: Option<int>): (r: string)
    ensures dow.None? ==> r == "Sun"
    ensures dow.Some? && 0 <= dow.value < 7 ==> r == WeekDays[dow.value]
    ensures dow.Some? && !(0 <= dow.value < 7) ==> r == "undefined"
  {
    var i := if dow.Some? then dow.value else 0;
    if 0 <= i < |WeekDays| then WeekDays[i] else "undefined"
  }

  /** `${schedule.dayOfMonth}`. */
  function DayOfMonthText(dom: Option<int>): string {
    if dom.Some? then Text.IntToString(dom.value) else "undefined"
  }

  /** `getScheduleDescription`. */
  function Description(t: Timing): string {
    if t.kind == "once" then "Once at " + t.time
    else if t.kind == "daily" then "Daily at " + t.time
    else if t.kind == "weekly" then "Weekly on " + DayName(t.dayOfWeek) + " at " + t.time
    else if t.kind == "monthly" then "Monthly on day " + DayOfMonthText(t.dayOfMonth) + " at " + t.time
    else "Unknown schedule"
  }

  /** Every schedule the dialog creates gets a description that ends with its
      time and names the day it was given: the dialog stores the weekday and
      the day of the month exactly where the table reads them. */
  lemma DescribesCreated(f: Form, c: Clock)
    requires f.name != "" && f.sourceId != ""
    requires 0 <= f.dayOfWeek < 7
    ensures var t := HandleCreate(f, c).draft.value.timing;
      && Description(t) != "Unknown schedule"
      && (f.kind == Once ==> Description(t) == "Once at " + f.time)
      && (f.kind == Daily ==> Description(t) == "Daily at " + f.time)
      && (f.kind == Weekly ==> Description(t) == "Weekly on " + WeekDays[f.dayOfWeek] + " at " + f.time)
      && (f.kind == Monthly ==> Description(t) == "Monthly on day " + Text.IntToString(f.dayOfMonth) + " at " + f.time)
  {
    var t := HandleCreate(f, c).draft.value.timing;
    assert Description(t)[0] != "Unknown schedule"[0];
  }

  datatype Badge = Paused | Overdue | Active

  /** `getStatusBadge`; a stored `nextRun` that is an invalid date compares
      false with now. */
  function StatusBadge(s: Scheduled, now: int): (b: Badge)
    ensures b == Paused <==> !s.draft.isActive
    ensures b == Overdue <==> s.draft.isActive && s.draft.nextRun.Some? && s.draft.nextRun.value < now
  {
    if !s.draft.isActive then Paused
    else if s.draft.nextRun.Some? && s.draft.nextRun.value < now then Overdue
    else Active
  }

  /** A schedule is never overdue at the moment it is created, for the
      values the dialog's inputs produce (a day of month from 1 to 31, so
      possibly past the end of a shorter month) and a month step that moves
      this month's slot on by at least the current month's length. */
  lemma FreshNotOverdue(f: Form, c: Clock, id: string, createdAt: int, runCount: int)
    requires ValidClock(c) && f.name != "" && f.sourceId != ""
    requires 0 <= f.dayOfWeek < 7 && 1 <= f.dayOfMonth <= 31
    requires ParseTime(f.time).Some? ==> ParseTime(f.time).value.0 < 24 && ParseTime(f.time).value.1 < 60
    requires ParseTime(f.time).Some? ==>
      (var slot := MonthSlot(c, f.dayOfMonth, ParseTime(f.time).value.0, ParseTime(f.time).value.1);
       c.addMonth(slot) >= slot + c.monthLength * DayMs)
    ensures StatusBadge(Scheduled(id, HandleCreate(f, c).draft.value, createdAt, runCount), Instant(c)) != Overdue
  {
    var r := NextRun(f.kind, f.time, f.dayOfWeek, f.dayOfMonth, c);
    if r.Some? {
      var hm := ParseTime(f.time).value;
      match f.kind
      case Once => DailyRule(f.time, c, f.dayOfWeek, f.dayOfMonth, hm.0, hm.1);
      case Daily => DailyRule(f.time, c, f.dayOfWeek, f.dayOfMonth, hm.0, hm.1);
      case Weekly => WeeklyRule(f.time, c, f.dayOfWeek, f.dayOfMonth, hm.0, hm.1);
      case Monthly =>
        var t := MonthSlot(c, f.dayOfMonth, hm.0, hm.1);
        var first := c.day - (c.monthDay - 1);
        assert t >= first * DayMs;
        assert Instant(c) < (first + c.monthLength) * DayMs;
    }
  }

  const CsvClasses: string := "bg-green-50 text-green-700 border-green-200 dark:bg-green-950 dark:text-green-300 dark:border-green-800"
  const XlsxClasses: string := "bg-blue-50 text-blue-700 border-blue-200 dark:bg-blue-950 dark:text-blue-300 dark:border-blue-800"
  const PdfClasses: string := "bg-red-50 text-red-700 border-red-200 dark:bg-red-950 dark:text-red-300 dark:border-red-800"
  const JsonClasses: string := "bg-purple-50 text-purple-700 border-purple-200 dark:bg-purple-950 dark:text-purple-300 dark:border-purple-800"

  datatype FormatBadge = FormatBadge(caption: string, classes: string)

  /** `getFormatBadge`: the upper-cased format and its colour classes, with
      the csv colours for any format without its own entry. */
  function FormatBadgeOf(format: string): (b: FormatBadge)
    ensures b.caption == Text.UpperAll(format)
    ensures b.classes == "font-semibold " + CsvClasses || b.classes == "font-semibold " + XlsxClasses
      || b.classes == "font-semibold " + PdfClasses || b.classes == "font-semibold " + JsonClasses
  {
    var colors := map["csv" := CsvClasses, "xlsx" := XlsxClasses, "pdf" := PdfClasses, "json" := JsonClasses];
    FormatBadge(Text.UpperAll(format), "font-semibold " + if format in colors then colors[format] else colors["csv"])
  }

  /** Formats outside the four share the csv badge colours; the four known
      ones each get a distinct colour. */
  lemma FormatBadgeFallback(format: string)
    ensures format != "csv" && format != "xlsx" && format != "pdf" && format != "json"
      ==> FormatBadgeOf(format).classes == FormatBadgeOf("csv").classes
    ensures FormatBadgeOf("xlsx").classes != FormatBadgeOf("csv").classes
    ensures FormatBadgeOf("pdf").classes != FormatBadgeOf("csv").classes
    ensures FormatBadgeOf("json").classes != FormatBadgeOf("csv").classes
  {
    assert |CsvClasses| == 103 && |XlsxClasses| == 97 && |PdfClasses| == 91 && |JsonClasses| == 109;
  }

  /** The pause/resume button: `onToggleSchedule(schedule.id, !schedule.isActive)`. */
  function ToggleRequest(s: Scheduled): (req: (string, bool))
    ensures req.0 == s.id && req.1 != s.draft.isActive
  {
    (s.id, !s.draft.isActive)
  }

  /** Applying the request flips between Paused and a running badge. */
  lemma ToggleFlipsPaused(s: Scheduled, now: int)
    ensures var req := ToggleRequest(s);
      var next := s.(draft := s.draft.(isActive := req.1));
      (StatusBadge(next, now) == Paused) != (StatusBadge(s, now) == Paused)
  {
  }
}

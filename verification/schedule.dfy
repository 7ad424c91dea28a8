/** The logic of the scheduled-export dialog (`ScheduledExportDialog`): the
    filename slug effect, `calculateNextRun` over abstract integer time and
    the guarded `handleCreateSchedule`. */
module Schedule {
  import opened Wrappers
  import Text
  import opened Encoders
  import opened Export

  /** Milliseconds in a day. Time is local and days are all this long
      (daylight-saving shifts are not modelled). */
  const DayMs: int := 86_400_000

  /** The host's "now": the local day index, the milliseconds since local
      midnight, `getDay()`, `getDate()`, the number of days of the current
      month, and `setMonth(getMonth() + 1)` as a function on instants. */
  datatype Clock = Clock(day: int, ms: int, weekday: int, monthDay: int, monthLength: int, addMonth: int -> int)

  predicate ValidClock(c: Clock) {
    && 0 <= c.ms < DayMs && 0 <= c.weekday < 7
    && 28 <= c.monthLength <= 31 && 1 <= c.monthDay <= c.monthLength
  }

  function Instant(c: Clock): int {
    c.day * DayMs + c.ms
  }

  /** `Number(s)` for the texts a time input can hold: the empty text is 0, a
      run of ASCII digits is its decimal value, anything else is `NaN` (`None`). */
  function DigitsValue(s: string): (r: Option<nat>)
    ensures r.Some? ==> forall i :: 0 <= i < |s| ==> '0' <= s[i] <= '9'
    decreases |s|
  {
    if |s| == 0 then Some(0)
    else if !('0' <= s[|s| - 1] <= '9') then None
    else match DigitsValue(s[..|s| - 1])
      case None => None
      case Some(v) => Some(10 * v + (s[|s| - 1] as int - '0' as int))
  }

  /** `scheduleTime.split(":").map(Number)` taken as `[hours, minutes]`; a
      missing minutes piece is `Number(undefined)`, which is `NaN`. */
  function ParseTime(time: string): (r: Option<(nat, nat)>)
    ensures r.Some? ==> ':' in time
  {
    var pieces := Text.Split(time, ':');
    var h := DigitsValue(pieces[0]);
    var m := if |pieces| > 1 then DigitsValue(pieces[1]) else None;
    if h.Some? && m.Some? then
      assert ':' in time by { SplitSingle(time, ':'); }
      Some((h.value, m.value))
    else None
  }

  lemma {:induction false} SplitSingle(s: string, c: char)
    requires |Text.Split(s, c)| > 1
    ensures c in s
    decreases |s|
  {
    if |s| > 0 && s[0] != c {
      SplitSingle(s[1..], c);
    }
  }

  /** Two-digit zero-padded rendering, as an `<input type="time">` writes it. */
  function TwoDigits(n: nat): (r: string)
    requires n < 100
    ensures |r| == 2
  {
    [Text.DigitChar(n / 10), Text.DigitChar(n % 10)]
  }

  lemma TwoDigitsValue(n: nat)
    requires n < 100
    ensures DigitsValue(TwoDigits(n)) == Some(n)
  {
    var s := TwoDigits(n);
    Text.DigitCharValue(n / 10);
    Text.DigitCharValue(n % 10);
    assert DigitsValue(s[..1][..0]) == Some(0);
    assert DigitsValue(s[..1]) == Some(n / 10);
    assert s[..|s| - 1] == s[..1];
  }

  /** Every time the input can produce reads back as its hours and minutes. */
  lemma ParseTimeOfInput(h: nat, m: nat)
    requires h < 24 && m < 60
    ensures ParseTime(TwoDigits(h) + ":" + TwoDigits(m)) == Some((h, m))
  {
    var hh, mm := TwoDigits(h), TwoDigits(m);
    Text.SplitPrefix(hh, mm, ':');
    Text.SplitPlain(mm, ':');
    assert hh + ":" + mm == hh + [':'] + mm;
    TwoDigitsValue(h);
    TwoDigitsValue(m);
  }

  /** `setHours(hours, minutes, 0, 0)` as an offset from local midnight. */
  function SlotMs(h: nat, m: nat): nat {
    h * 3_600_000 + m * 60_000
  }

  /** JavaScript's `%`, whose result takes the sign of the dividend. */
  function JsRem(a: int, n: int): int
    requires n > 0
  {
    if a >= 0 then a % n else -((-a) % n)
  }

  datatype Kind = Once | Daily | Weekly | Monthly

  function KindName(k: Kind): string {
    match k
    case Once => "once"
    case Daily => "daily"
    case Weekly => "weekly"
    case Monthly => "monthly"
  }

  /** The first instant of the current month, from `setDate(dayOfMonth)`. */
  function MonthSlot(c: Clock, dom: int, h: nat, m: nat): int {
    (c.day - (c.monthDay - 1)) * DayMs + (dom - 1) * DayMs + SlotMs(h, m)
  }

  /** `calculateNextRun`; `None` is the invalid date an unparsable time gives. */
  function NextRun(kind: Kind, time: string, dow: int, dom: int, c: Clock): Option<int> {
    match ParseTime(time)
    case None => None
    case Some((h, m)) => Some(NextAt(kind, h, m, dow, dom, c))
  }

  /** `calculateNextRun` once the time has parsed as hours and minutes. */
  function NextAt(kind: Kind, h: nat, m: nat, dow: int, dom: int, c: Clock): int {
    var now := Instant(c);
    var today := c.day * DayMs + SlotMs(h, m);
    match kind
    case Once => if today <= now then today + DayMs else today
    case Daily => if today <= now then today + DayMs else today
    case Weekly => WeeklySlot(c, dow, SlotMs(h, m))
    case Monthly =>
      var t := MonthSlot(c, dom, h, m);
      if t <= now then c.addMonth(t) else t
  }

  lemma NextRunParsed(kind: Kind, time: string, dow: int, dom: int, c: Clock, h: nat, m: nat)
    requires ParseTime(time) == Some((h, m))
    ensures NextRun(kind, time, dow, dom, c) == Some(NextAt(kind, h, m, dow, dom, c))
  {
  }

  /** The weekly branch of `calculateNextRun` for a time of day `slot`: the
      weekday shown by today's slot, the days to the chosen weekday, and a
      week more when that is today and the slot has passed. */
  function WeeklySlot(c: Clock, dow: int, slot: int): int {
    var now := Instant(c);
    var today := c.day * DayMs + slot;
    var shown := (c.weekday + slot / DayMs) % 7;
    var offset := JsRem(dow - shown + 7, 7);
    if offset == 0 && today <= now then today + 7 * DayMs else today + offset * DayMs
  }

  /** `getDay()` of an instant, counted from the clock's own day. */
  function WeekdayAt(c: Clock, t: int): int {
    (c.weekday + (t / DayMs - c.day)) % 7
  }

  /** One-time and daily schedules run today at the chosen time, or tomorrow
      when that time is not after now: the first such slot in the future. */
  lemma DailyRule(time: string, c: Clock, dow: int, dom: int, h: nat, m: nat)
    requires ValidClock(c) && ParseTime(time) == Some((h, m)) && h < 24 && m < 60
    ensures NextRun(Once, time, dow, dom, c) == NextRun(Daily, time, dow, dom, c)
    ensures var r := NextRun(Daily, time, dow, dom, c);
      && r.Some? && r.value > Instant(c) && r.value - DayMs <= Instant(c)
      && r.value % DayMs == SlotMs(h, m)
  {
    NextRunParsed(Once, time, dow, dom, c, h, m);
    NextRunParsed(Daily, time, dow, dom, c, h, m);
    var r := NextRun(Daily, time, dow, dom, c).value;
    var today := c.day * DayMs + SlotMs(h, m);
    assert r == today || r == (c.day + 1) * DayMs + SlotMs(h, m);
    SlotOfDay(c.day, SlotMs(h, m));
    SlotOfDay(c.day + 1, SlotMs(h, m));
  }

  lemma SlotOfDay(d: int, slot: int)
    requires 0 <= slot < DayMs
    ensures (d * DayMs + slot) % DayMs == slot && (d * DayMs + slot) / DayMs == d
  {
  }

  /** A weekly schedule runs at the chosen time on the chosen weekday, strictly
      after now and no later than a week after now: the offset
      `(dayOfWeek - getDay() + 7) % 7` lands on that weekday, and a week is
      added when it is today and the time has passed. */
  lemma WeeklyRule(time: string, c: Clock, dow: int, dom: int, h: nat, m: nat)
    requires ValidClock(c) && ParseTime(time) == Some((h, m)) && h < 24 && m < 60
    requires 0 <= dow < 7
    ensures var r := NextRun(Weekly, time, dow, dom, c);
      && r.Some? && r.value > Instant(c) && r.value - 7 * DayMs <= Instant(c)
      && r.value % DayMs == SlotMs(h, m)
      && WeekdayAt(c, r.value) == dow
  {
    NextRunParsed(Weekly, time, dow, dom, c, h, m);
    SlotInDay(h, m);
    WeeklyNext(h, m, dow, dom, c);
    WeeklyAt(c, dow, SlotMs(h, m));
  }

  lemma SlotInDay(h: nat, m: nat)
    requires h < 24 && m < 60
    ensures SlotMs(h, m) < DayMs
  {
  }

  /** The weekly slot is ahead of now by at most a week, at the chosen time of
      day, on the chosen weekday. */
  lemma WeeklyAt(c: Clock, dow: int, slot: int)
    requires ValidClock(c) && 0 <= dow < 7 && 0 <= slot < DayMs
    ensures var r := (c.day + WeeklyDays(c, dow, slot)) * DayMs + slot;
      && r > Instant(c) && r - 7 * DayMs <= Instant(c)
      && r % DayMs == slot
      && WeekdayAt(c, r) == dow
  {
    var days := WeeklyDays(c, dow, slot);
    WeeklyDaysFacts(c, dow, slot);
    WeeklyBounds(c, slot, days);
    WeekdayShift(c, days, slot);
  }

  lemma WeeklyDaysFacts(c: Clock, dow: int, slot: int)
    requires ValidClock(c) && 0 <= dow < 7
    ensures var days := WeeklyDays(c, dow, slot);
      && 0 <= days <= 7 && (c.weekday + days) % 7 == dow
      && (days == 0 ==> c.day * DayMs + slot > Instant(c))
      && (days == 7 ==> c.day * DayMs + slot <= Instant(c))
  {
    WeeklyOffset(c.weekday, dow);
  }

  /** The days `calculateNextRun` adds for a weekly schedule. */
  function WeeklyDays(c: Clock, dow: int, slot: int): int {
    var offset := JsRem(dow - c.weekday + 7, 7);
    if offset == 0 && c.day * DayMs + slot <= Instant(c) then 7 else offset
  }

  lemma WeeklyNext(h: nat, m: nat, dow: int, dom: int, c: Clock)
    requires ValidClock(c) && h < 24 && m < 60
    ensures NextAt(Weekly, h, m, dow, dom, c) == (c.day + WeeklyDays(c, dow, SlotMs(h, m))) * DayMs + SlotMs(h, m)
  {
    SlotInDay(h, m);
    WeeklySlotDays(c, dow, SlotMs(h, m));
  }

  lemma WeeklySlotDays(c: Clock, dow: int, slot: int)
    requires ValidClock(c) && 0 <= slot < DayMs
    ensures WeeklySlot(c, dow, slot) == (c.day + WeeklyDays(c, dow, slot)) * DayMs + slot
  {
    assert slot / DayMs == 0;
  }

  /** The offset `(dayOfWeek - getDay() + 7) % 7` reaches the wanted weekday within a week. */
  lemma WeeklyOffset(weekday: int, dow: int)
    requires 0 <= weekday < 7 && 0 <= dow < 7
    ensures var offset := JsRem(dow - weekday + 7, 7);
      0 <= offset < 7 && (weekday + offset) % 7 == dow
  {
  }

  lemma WeeklyBounds(c: Clock, slot: int, days: int)
    requires ValidClock(c) && 0 <= slot < DayMs && 0 <= days <= 7
    requires days == 0 ==> c.day * DayMs + slot > Instant(c)
    requires days == 7 ==> c.day * DayMs + slot <= Instant(c)
    ensures var r := (c.day + days) * DayMs + slot;
      r > Instant(c) && r - 7 * DayMs <= Instant(c)
  {
    assert (c.day + days) * DayMs == c.day * DayMs + days * DayMs;
  }

  lemma WeekdayShift(c: Clock, days: int, slot: int)
    requires 0 <= slot < DayMs
    ensures WeekdayAt(c, (c.day + days) * DayMs + slot) == (c.weekday + days) % 7
    ensures ((c.day + days) * DayMs + slot) % DayMs == slot
  {
    SlotOfDay(c.day + days, slot);
  }

  /** A monthly schedule runs this month on the chosen day and time when that
      comes after now (by day, then by time), and one month later otherwise. */
  lemma MonthlyRule(time: string, c: Clock, dow: int, dom: int, h: nat, m: nat)
    requires ValidClock(c) && ParseTime(time) == Some((h, m)) && h < 24 && m < 60
    ensures var t := MonthSlot(c, dom, h, m);
      NextRun(Monthly, time, dow, dom, c)
        == Some(if dom < c.monthDay || (dom == c.monthDay && SlotMs(h, m) <= c.ms) then c.addMonth(t) else t)
  {
    NextRunParsed(Monthly, time, dow, dom, c, h, m);
    var t := MonthSlot(c, dom, h, m);
    var first := c.day - (c.monthDay - 1);
    assert t == (first + dom - 1) * DayMs + SlotMs(h, m);
    assert Instant(c) == (first + c.monthDay - 1) * DayMs + c.ms;
    SlotOrder(first + dom - 1, SlotMs(h, m), first + c.monthDay - 1, c.ms);
  }

  /** Instants compare as (day, time of day) pairs. */
  lemma SlotOrder(d1: int, s1: int, d2: int, s2: int)
    requires 0 <= s1 < DayMs && 0 <= s2 < DayMs
    ensures d1 * DayMs + s1 <= d2 * DayMs + s2 <==> d1 < d2 || (d1 == d2 && s1 <= s2)
  {
    if d1 < d2 {
      assert (d2 - d1) * DayMs >= DayMs;
    } else if d1 > d2 {
      assert (d1 - d2) * DayMs >= DayMs;
    }
  }

  /** A schedule's `schedule` block. */
  datatype Timing = Timing(kind: string, time: string, dayOfWeek: Option<int>, dayOfMonth: Option<int>, timezone: string)

  /** The object passed to `onScheduleCreate` (a schedule without id,
      creation date and run count). */
  datatype Draft = Draft(
    name: string,
    description: Option<string>,
    dataSourceId: string,
    options: Options,
    timing: Timing,
    isActive: bool,
    lastRun: Option<int>,
    nextRun: Option<int>)

  /** The dialog's form state. */
  datatype Form = Form(
    name: string,
    description: string,
    sourceId: string,
    kind: Kind,
    time: string,
    dayOfWeek: int,
    dayOfMonth: int,
    timezone: string,
    format: Format,
    filename: string,
    includeHeaders: bool,
    isActive: bool)

  /** The form on mount, after the effect that stores the host's time zone. */
  function InitialForm(hostZone: string): (f: Form)
    ensures f.name == "" && f.description == "" && f.sourceId == "" && f.filename == ""
    ensures f.kind == Daily && f.time == "09:00" && ParseTime(f.time) == Some((9, 0))
    ensures f.dayOfWeek == 1 && f.dayOfMonth == 1 && f.timezone == hostZone
    ensures f.format == Csv && f.includeHeaders && f.isActive
  {
    ParseTimeOfInput(9, 0);
    Form("", "", "", Daily, TwoDigits(9) + ":" + TwoDigits(0), 1, 1, hostZone, Csv, "", true, true)
  }

  /** The effect that proposes a file name: once a name is typed and the file
      name is empty, the file name becomes the slug of the name. */
  function FilenameEffect(f: Form): (r: Form)
    ensures f.name != "" && f.filename == "" ==> r.filename == Text.Slug(f.name)
    ensures f.name == "" || f.filename != "" ==> r == f
    ensures r.(filename := f.filename) == f
  {
    if f.name != "" && f.filename == "" then f.(filename := Text.Slug(f.name)) else f
  }

  /** The schedule `handleCreateSchedule` hands to `onScheduleCreate`. */
  function MakeDraft(f: Form, c: Clock): Draft {
    Draft(
      f.name,
      Some(f.description),
      f.sourceId,
      Options(FormatName(f.format), Some(if f.filename != "" then f.filename else Text.Slug(f.name)),
              Some(f.includeHeaders), None, None),
      Timing(KindName(f.kind), f.time,
             if f.kind == Weekly then Some(f.dayOfWeek) else None,
             if f.kind == Monthly then Some(f.dayOfMonth) else None,
             f.timezone),
      f.isActive,
      None,
      NextRun(f.kind, f.time, f.dayOfWeek, f.dayOfMonth, c))
  }

  datatype Created = Created(form: Form, draft: Option<Draft>)

  /** `handleCreateSchedule`: nothing happens without a name and a data
      source; otherwise the schedule is emitted and the name, description,
      source and file name fields are cleared. */
  function HandleCreate(f: Form, c: Clock): (r: Created)
    ensures f.name == "" || f.sourceId == "" ==> r.form == f && r.draft.None?
    ensures f.name != "" && f.sourceId != "" ==> (r.draft.Some?
      && r.form == f.(name := "", description := "", sourceId := "", filename := ""))
    ensures r.draft.Some? ==> (var d := r.draft.value;
      && d.name == f.name && d.dataSourceId == f.sourceId && d.description == Some(f.description)
      && d.lastRun.None? && d.isActive == f.isActive
      && ParseFormat(d.options.format) == Some(f.format) && d.options.dateRange.None? && d.options.selectedFields.None?
      && (d.timing.dayOfWeek.Some? <==> f.kind == Weekly)
      && (d.timing.dayOfMonth.Some? <==> f.kind == Monthly)
      && (d.timing.dayOfWeek.Some? ==> d.timing.dayOfWeek.value == f.dayOfWeek)
      && (d.timing.dayOfMonth.Some? ==> d.timing.dayOfMonth.value == f.dayOfMonth)
      && BaseName(d.options) == (if f.filename != "" then f.filename else Text.Slug(f.name))
      && d.options.includeHeaders == Some(f.includeHeaders)
      && d.timing.kind == KindName(f.kind) && d.timing.time == f.time && d.timing.timezone == f.timezone
      && d.nextRun == NextRun(f.kind, f.time, f.dayOfWeek, f.dayOfMonth, c))
  {
    if f.name == "" || f.sourceId == "" then Created(f, None)
    else Created(f.(name := "", description := "", sourceId := "", filename := ""), Some(MakeDraft(f, c)))
  }

  /** The fallback file name agrees with the one the effect proposes: creating
      before or after the effect has run yields the same schedule. */
  lemma FallbackMatchesEffect(f: Form, c: Clock)
    ensures HandleCreate(FilenameEffect(f), c).draft == HandleCreate(f, c).draft
  {
  }
}

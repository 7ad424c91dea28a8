# Movrr waitlist: export pipeline, dashboards and waitlist action in Dafny

This project models the data-handling core of the Movrr waitlist application:

- the export library (`lib/export.ts`): the date filter, the format switch, the four encoders (CSV, spreadsheet, PDF, JSON), `batchExport`, `getAvailableFields` and `formatFieldName`;
- the state logic of the three export dialogs:
  - the single export dialog;
  - the batch export dialog with its per-source progress list;
  - the scheduled-export dialog with its next-run calculation;
- the schedule manager's description, status and format badges;
- the statistics of the admin dashboard: counts, the per-city breakdown and the top five cities;
- the plain-text bodies of the admin notification and user confirmation e-mails;
- the waitlist server action: the `waitlistSchema` validator and the `submitWaitlistForm` outcome.

Everything is pure functions over immutable datatypes. Everything the program takes from its host is a parameter:

- the current time: an abstract `Clock`, plus the ISO and locale renderings of "now";
- JavaScript's `Date` parser;
- the e-mail syntax check;
- the mail senders;
- whether an export call throws.

Files, in dependency order:

- `wrappers.dfy` defines `Option` and `Result`. `seqs.dfy` holds subsequences, distinctness and the filter `Without`.
- `text.dfy` holds JavaScript string operations: `join`, one-character `split`, `String(n)`, ASCII case mapping, and the `\s`-run slug.
- `records.dfy` holds the dynamically typed record and its helpers:
  - JavaScript truthiness and `String(v || "")`;
  - projection onto selected fields;
  - the inclusive date filter.
- `encoders.dfy` and `export.dfy` model `lib/export.ts`.
- `controls.dfy` holds the include-or-remove toggle and the date-range rule the dialogs share.
- The remaining files each model one component:
  - `export_dialog.dfy`;
  - `batch_dialog.dfy`;
  - `schedule.dfy` (the scheduled-export dialog);
  - `schedule_manager.dfy`;
  - `admin_stats.dfy`;
  - `emails.dfy`;
  - `waitlist.dfy`.

Two behaviours of the code worth knowing:

- **Batch failures.** The batch dialog stops at the first throwing export, and its `catch` marks every progress entry (including completed ones) as `error` with "Export failed" (`components/export/batch-export-dialog.tsx:224-233`). `BatchDialog.BatchFails` states this.
- **CSV quoting.** The CSV encoder quotes a string only when it holds a comma or a double quote. A string holding a newline is written raw and splits its record (`Encoders.CsvNewlineSplitsRecord`).

## Model

| member | source | states |
|---|---|---|
| Export.ParseFormat | lib/export.ts:285-300 | the format switch recognises exactly "csv", "xlsx", "pdf" and "json", and a recognised format names itself back |
| Export.ExportData | lib/export.ts:270-301 | an unknown format throws "Unsupported export format: <format>". Otherwise the encoder for that format runs, and the call throws exactly when a library or the download throws on a non-empty date-filtered set. Nothing is produced iff that set is empty, and the file is named `<filename>.<format>` |
| Export.ExportEncodesFiltered | lib/export.ts:274-299 | the content comes from the date-filtered rows only: each artifact is its format's encoder applied to those rows, so the sheet's records, the PDF body and the JSON envelope hold one row per filtered row, projected onto the selected fields |
| Export.JsonCountsFilteredRows | lib/export.ts:276-283 | the JSON envelope's `totalRecords` is the number of rows whose date lies in the range, or all rows without a range |
| Export.BatchExport | lib/export.ts:303-313 | data sets are exported in order, each as `<name>_<YYYY-MM-DD>.<format>` with the date read when that data set is exported. The first throw stops the batch: an unknown format throws on the first data set; otherwise the batch stops at the first non-empty data set whose libraries throw, and runs to the end when none throws |
| Export.TodayOfIso | lib/export.ts:310 | `toISOString().split("T")[0]` is the date part of an ISO timestamp |
| Export.AvailableFieldsRoundTrip | lib/export.ts:331-334 | selecting every available field reproduces the first record when none of its values is `undefined` |
| Export.FormatFieldNameChars | lib/export.ts:336-342 | the caption has one character per name character: `_` becomes a space, each word's first letter is upper-cased, and the rest is kept |
| Records.ProjectAll | lib/export.ts:39-49 | without `selectedFields` the rows pass unchanged; with them every row is projected |
| Records.ProjectContents | lib/export.ts:42-46 | a projected row holds exactly the selected keys whose value is not `undefined`, each once, with the row's value |
| Records.ProjectOrder | lib/export.ts:42-46 | projection onto distinct fields keeps the order of `selectedFields` |
| Records.ProjectOwnKeys | lib/export.ts:42-46 | projecting a row onto its own keys gives the row back when no value is `undefined` |
| Records.OrEmptyText | lib/export.ts:158 | `String(v \|\| "")` is empty for a falsy value and `String(v)` otherwise |
| Records.FilterByDate | lib/export.ts:276-283 | the filter keeps exactly the rows whose `created_at \|\| date` parses inside the inclusive range, each with its multiplicity |
| Records.FilterOrder | lib/export.ts:277 | the surviving rows keep their order |
| Records.FilterCount | lib/export.ts:277-282 | the number of surviving rows is the number of rows dated inside the range |
| Records.FilterBoundaries | lib/export.ts:279-281 | both bounds are inclusive. A unit outside either bound is dropped, and so is an unparsable date |
| Encoders.CsvCell | lib/export.ts:57-66 | a string with a comma or quote is wrapped in quotes with inner quotes doubled, and a standard CSV reader recovers it. Other strings pass raw; `null`/`undefined` give "" and numbers and booleans print as `String` does |
| Encoders.UnescapeDoubleQuotes | lib/export.ts:64 | undoing `replace(/"/g, '""')` gives back the original string |
| Encoders.EncodeCsv | lib/export.ts:27-73 | empty data produces no file; otherwise one `text/csv` download named `<filename>.csv` |
| Encoders.CsvDocumentShape | lib/export.ts:52-70 | with no newline in any value, the document reads back as the header line (iff headers are on) followed by one line per row, each with one cell per key of the first projected row |
| Encoders.CsvNewlineSplitsRecord | lib/export.ts:59-66 | a string value holding a newline is not quoted, so the document has more lines than records |
| Encoders.EncodeExcel | lib/export.ts:75-177 | empty data produces nothing; otherwise a workbook `<filename>.xlsx` with one sheet named "Export" |
| Encoders.ExcelCells | lib/export.ts:88-103 | the records handed to `json_to_sheet` are the data rows themselves without a selection. Otherwise each holds exactly the selected fields its data row defines, with that row's values |
| Encoders.ExcelColumns | lib/export.ts:101-105 | the columns are `selectedFields` when given (even keys that no row has), else the first projected row's keys. Each width is in [2, 50] and fits the header and, below 50, every cell text plus 2. It reaches 50 only when the header or some cell text needs it |
| Encoders.ColumnWidth | lib/export.ts:155-161 | the width is exactly the longer of the header and the longest cell text, plus 2, capped at 50. Below 50 it fits all of them and equals one of them plus 2; 50 is reached only when one of them needs it |
| Encoders.ColumnWidthUnique | lib/export.ts:155-161 | those properties admit only one width, so the column width is determined by them |
| Encoders.MaxCellLength | lib/export.ts:157-159 | the maximum is an upper bound on every cell length and is reached by some cell |
| Encoders.ExcelRows | lib/export.ts:106-170 | there is one height per sheet row: 25 for the header row when headers are on, 20 otherwise. Data rows alternate fills |
| Encoders.EncodePdf | lib/export.ts:179-237 | empty data produces nothing; otherwise a document `<filename>.pdf` |
| Encoders.PdfTable | lib/export.ts:206-219 | the table has a head exactly when headers are on and one body row per record. Each cell is `String(value \|\| "")` of the record's value under that header: a falsy value, or a field the record lacks, prints as the empty string |
| Encoders.EncodeJson | lib/export.ts:239-268 | the envelope carries `exportedAt`, `totalRecords` equal to the number of rows, and the rows themselves when no field is selected |
| Encoders.JsonRecordsSelected | lib/export.ts:248-257 | each JSON record holds exactly the selected defined fields, with the source row's values |
| Controls.Toggle | components/export/export-dialog.tsx:127-131 | toggling flips membership of the item only. An absent item is appended; a present one is removed wherever it occurs, keeping the others' order |
| Controls.ToggleTwice | components/export/export-dialog.tsx:127-131 | toggling an absent item twice restores the selection |
| Controls.ToggleTwicePresent | components/export/export-dialog.tsx:127-131 | toggling a present item twice keeps the same items but moves it to the end |
| Controls.ToggleDistinct | components/export/batch-export-dialog.tsx:109-115 | toggling keeps a selection free of duplicates |
| Controls.DateRangeOf | components/export/export-dialog.tsx:154-160 | a range is sent exactly when both date inputs are non-empty |
| ExportDialog.Initial | components/export/export-dialog.tsx:100-116 | the dialog opens on CSV with headers, no fields and no dates. The filename is the `defaultFilename` passed in, or "export" without one |
| ExportDialog.InitFields | components/export/export-dialog.tsx:121-125 | an empty selection becomes the available fields, in their order, when there are any; a non-empty one is left alone, and nothing else changes |
| ExportDialog.ToggleField | components/export/export-dialog.tsx:127-131 | the field's membership flips and nothing else changes |
| ExportDialog.SelectAll | components/export/export-dialog.tsx:133-135 | the selection becomes exactly the available fields, in their order, and nothing else changes |
| ExportDialog.DeselectAll | components/export/export-dialog.tsx:137-139 | the selection is emptied and nothing else changes |
| ExportDialog.BuildOptions | components/export/export-dialog.tsx:149-161 | the request carries the dialog's format, filename, header flag and fields, and a date range iff both dates are set |
| ExportDialog.HandleExport | components/export/export-dialog.tsx:141-176 | with no field selected nothing happens. Otherwise the built request is exported, success is set iff the export did not throw (a library fault on a non-empty filtered set), and the busy flag is cleared either way |
| ExportDialog.FilteredDataCount | components/export/export-dialog.tsx:182-191 | the preview count never exceeds the data size |
| ExportDialog.PreviewCountsRange | components/export/export-dialog.tsx:182-191 | the preview count equals the number of rows the export itself keeps |
| ExportDialog.JsonTotalIsPreview | components/export/export-dialog.tsx:182-191 | a JSON export's `totalRecords` equals the previewed count |
| BatchDialog.Initial | components/export/batch-export-dialog.tsx:79-94 | the dialog opens with nothing selected, no progress, CSV with headers and the prefix "batch_export" |
| BatchDialog.SelectionEffect | components/export/batch-export-dialog.tsx:97-107 | a non-empty selection resets the progress list to one pending 0% entry per selected id, in order |
| BatchDialog.ToggleSource | components/export/batch-export-dialog.tsx:109-115 | the source's membership flips and nothing else changes |
| BatchDialog.SelectAll | components/export/batch-export-dialog.tsx:117-119 | afterwards exactly the sources' ids are selected, in data-source order, and nothing else changes |
| BatchDialog.DeselectAll | components/export/batch-export-dialog.tsx:121-123 | the selection is emptied and nothing else changes |
| BatchDialog.SelectedSources | components/export/batch-export-dialog.tsx:161-163 | the sources to export are those whose id is selected, in source-list order |
| BatchDialog.SourceOptions | components/export/batch-export-dialog.tsx:188-199 | each source is exported as `<prefix>_<slug of its name>` with the shared format, header flag and date range, and no field selection |
| BatchDialog.RunSources | components/export/batch-export-dialog.tsx:175-213 | sources are exported in order with their own options. The run stops at the first source whose export throws, and the progress list keeps its ids |
| BatchDialog.HandleBatchExport | components/export/batch-export-dialog.tsx:154-237 | with nothing selected nothing happens. Otherwise the progress list has one entry per selected id and the busy flag ends cleared |
| BatchDialog.BatchSucceeds | components/export/batch-export-dialog.tsx:200-216 | when no export throws, every exported source's entry ends completed at 100% with its file name, and the batch is complete |
| BatchDialog.BatchFails | components/export/batch-export-dialog.tsx:224-233 | when any selected source throws, every entry ends in error with "Export failed", the batch is not complete, and no export counts as completed |
| BatchDialog.BatchCalls | components/export/batch-export-dialog.tsx:175-200 | the batch is complete iff no selected source throws, and then every selected source was exported exactly once |
| BatchDialog.BatchTotals | components/export/batch-export-dialog.tsx:239-247 | after a clean batch, completed exports equal the number selected and total progress is 100 |
| BatchDialog.CompletedExports | components/export/batch-export-dialog.tsx:245-247 | the count is the number of entries whose status is completed |
| Schedule.ParseTime | components/export/scheduled-export-dialog.tsx:138 | `time.split(":").map(Number)` yields hours and minutes only when the string has a colon and both parts are digit strings |
| Schedule.ParseTimeOfInput | components/export/scheduled-export-dialog.tsx:138 | every `HH:MM` value of a time input parses back to its hour and minute |
| Schedule.DailyRule | components/export/scheduled-export-dialog.tsx:141-156 | "once" and "daily" agree. The run is the next instant strictly after now at the set time of day, no later than one day ahead |
| Schedule.WeeklyRule | components/export/scheduled-export-dialog.tsx:157-167 | the weekly run falls on the requested weekday at the set time, strictly after now and at most seven days ahead |
| Schedule.MonthlyRule | components/export/scheduled-export-dialog.tsx:168-176 | the monthly run is this month's slot when it is still ahead of now, and the slot one month later otherwise |
| Schedule.InitialForm | components/export/scheduled-export-dialog.tsx:106-127 | the form opens as daily at 09:00 on Monday / day 1, CSV with headers, active, in the host's time zone |
| Schedule.FilenameEffect | components/export/scheduled-export-dialog.tsx:130-134 | an empty filename is filled with the slug of a non-empty name; nothing else changes |
| Schedule.HandleCreate | components/export/scheduled-export-dialog.tsx:182-214 | without a name or data source nothing happens. Otherwise the schedule carries the form's settings: name, description, source, format, headers, kind, time and time zone. Its `nextRun` is the next-run calculation for the form and the clock. The weekday is kept only for weekly and the day of month only for monthly. The filename falls back to the slug, `lastRun` is unset, and name, description, source and filename are reset |
| Schedule.FallbackMatchesEffect | components/export/scheduled-export-dialog.tsx:130-134 | the create-time filename fallback gives the same schedule as the auto-fill effect |
| ScheduleManager.DayName | components/export/schedule-manager.tsx:42 | `weekDays[dayOfWeek \|\| 0]` names the weekday; a missing one reads as Sunday and an out-of-range one as "undefined" |
| ScheduleManager.DescribesCreated | components/export/schedule-manager.tsx:53-66 | a created schedule is described by its kind, time and (weekly) weekday or (monthly) day of month |
| ScheduleManager.StatusBadge | components/export/schedule-manager.tsx:68-102 | a schedule is paused iff inactive, overdue iff active with its next run before now, and active otherwise |
| ScheduleManager.FreshNotOverdue | components/export/schedule-manager.tsx:79 | a schedule just created from a valid form is not overdue at creation time, for every day of month the input accepts (1 to 31, also past the end of a shorter month) |
| ScheduleManager.FormatBadgeOf | components/export/schedule-manager.tsx:104-117 | the badge caption is the upper-cased format, and its colours are one of the four palettes |
| ScheduleManager.FormatBadgeFallback | components/export/schedule-manager.tsx:113 | an unknown format falls back to the CSV palette; each known format has its own |
| ScheduleManager.ToggleRequest | components/export/schedule-manager.tsx:192 | the switch asks to set the schedule's active flag to its negation |
| ScheduleManager.ToggleFlipsPaused | components/export/schedule-manager.tsx:68-76 | after the toggle is applied, the paused badge shows iff it did not before |
| AdminStats.Entries | app/admin/page.tsx:70 | a failed query reads as no entries |
| AdminStats.CountOwnership | app/admin/page.tsx:75-80 | the owner and planning counts are the multiplicity of that answer among the entries |
| AdminStats.OwnershipPartition | app/admin/page.tsx:75-80 | with only valid answers, yes + no + planning counts add up to the total signups |
| AdminStats.BreakdownCities | app/admin/page.tsx:82-88 | the breakdown lists each city exactly once, and exactly the cities of the entries |
| AdminStats.BreakdownCounts | app/admin/page.tsx:82-88 | each city's tally is its number of entries |
| AdminStats.BreakdownTotal | app/admin/page.tsx:82-88 | the tallies add up to the total signups |
| AdminStats.BreakdownSize | app/admin/page.tsx:74-88 | the breakdown has as many cities as the distinct-city count |
| AdminStats.BreakdownOrder | app/admin/page.tsx:82-88 | the breakdown lists its cities in the order of their first entry in the list it reduces. The list is fetched newest first (page.tsx:61-64), so this is by each city's latest signup |
| AdminStats.SortFacts | app/admin/page.tsx:90-91 | the sort is descending by count, a permutation, and stable: equal counts keep the breakdown's key order, which is the order of first appearance in the fetched, newest-first list |
| AdminStats.TopCitiesFacts | app/admin/page.tsx:90-92 | the top list holds min(5, number of cities) true (city, count) pairs in descending order, and no city left out beats one listed |
| Emails.AdminLines | emails/admin-notification.tsx:326-347 | the admin text has 13 fixed lines plus one per truthy optional prop, opens with the signup headline and closes with the automated-notification sentence |
| Emails.AdminOptionalLines | emails/admin-notification.tsx:328-342 | the ID, Source and Admin dashboard lines appear exactly when their props are truthy, and each is the only line with its leading letter |
| Emails.AdminTextLines | emails/admin-notification.tsx:348 | with single-line props, splitting the text on newlines gives back exactly the lines. The text ends with a newline and the closing sentence |
| Emails.AdminBikeLine | emails/admin-notification.tsx:331-333 | the bike line shows the phrase for the answer, or the raw answer when unknown |
| Emails.AdminRegisteredLine | emails/admin-notification.tsx:331-334 | the "Registered on:" line carries the timestamp verbatim, right after the bike line |
| Emails.AdminPhrase | emails/admin-notification.tsx:320-325 | the three known answers have their phrases; any other answer is shown as is |
| Emails.UserLines | emails/user-confirmation.tsx:211-229 | the welcome text has 13 fixed lines plus one per truthy optional prop, opens with the greeting and ends with the two sign-off lines |
| Emails.UserOptionalLines | emails/user-confirmation.tsx:218-225 | the Signup ID and Learn more lines appear exactly when their props are truthy, each the only line with its leading letter |
| Emails.UserTextLines | emails/user-confirmation.tsx:230 | with single-line props, splitting the text on newlines gives back exactly the lines, and it ends with the two sign-off lines |
| Emails.UserPhrase | emails/user-confirmation.tsx:205-210 | the three known answers have their phrases; any other answer is shown as is |
| Waitlist.Validate | lib/actions.ts:9-16 | input is accepted iff name and city have at least 2 characters, the e-mail passes the e-mail check and the bike answer is yes/no/planning. The accepted data equals the input |
| Waitlist.ValidateFields | lib/actions.ts:9-16 | a rejected input reports each field exactly when that field fails |
| Waitlist.ValidateMessages | lib/actions.ts:10-15 | each failing field carries the schema's message: the two length messages, the e-mail message, and the required-option message |
| Waitlist.ValidateOrder | lib/actions.ts:9-16 | reported fields come in schema order |
| Waitlist.Submit | lib/actions.ts:20-57 | an invalid input returns its field errors and sends nothing. A valid one sends the user confirmation, then the admin notification, and succeeds with "Successfully joined the waitlist!". Any other throw returns "Something went wrong. Please try again." |
| Waitlist.DeliveryIgnored | lib/actions.ts:28-45 | what the mail senders report never changes the response |
| Waitlist.RejectedSendsNothing | lib/actions.ts:47-49 | the response is a rejection iff validation fails, and a rejection sends no mail |

## Left out

- Time and dates:
  - JavaScript `Date` arithmetic is abstracted. A `Clock` supplies the day number, the time of day, the weekday, the day of the month and the month length, with no time zones or daylight saving.
  - `setMonth(+1)` overflow into the next month is an oracle `addMonth` on the clock.
  - Date strings are parsed by a host parser parameter.
- `Number` on strings: only plain decimal digit strings are parsed. Other syntaxes `Number` accepts (signs, spaces, exponents, hex) are treated as NaN.
- Numbers and strings:
  - Record numbers are integers; floating-point values and their printing are not modelled.
  - String lengths are counted in characters, not UTF-16 code units.
  - Case mapping is ASCII-only.
- Object key order: integer-like keys, which JavaScript orders first, are not modelled.
- AdminStats.BreakdownOrder: a city named like "12" is placed at its first appearance, while JavaScript enumerates integer-like keys first in ascending numeric order, because object key order is not modelled.
- Library effects:
  - The spreadsheet, PDF and JSON libraries are modelled only by the plans handed to them: for the spreadsheet, the records given to `json_to_sheet` with the column order, and the widths, heights and fills; for the PDF, the title and the table; for JSON, the envelope.
  - How `json_to_sheet` renders each value into a cell is left out, because that is the library's behaviour, not this repository's. So is the extra column it adds for a key that is missing from the header list.
  - `downloadFile`, `XLSX.writeFile` and `doc.save` are the sink and are left out, as are fonts, colours and page layout.
- Dialog timers: the auto-close timers of the dialogs are left out.
- BatchDialog.BatchSucceeds, BatchDialog.BatchTotals: assume the data-source ids are distinct, as they are React keys; with a repeated id the shared progress entry takes the later source's file name, which these lemmas do not describe.
- BatchDialog.RunSources: a source may be marked throwing even when its date-filtered data is empty, where `exportData` returns before any library call; this admits more runs than the program produces and hides none.
- BatchDialog.RunSources: the random intermediate steps of `simulateProgress` are left out, because only its final step (completed, 100%) is observable once the export runs.
- `TotalProgress` is exact real division. The dashboard's `Math.round` of it is not modelled.
- Prototype-key lookups: every object used as a dictionary is modelled as a plain list of own keys. JavaScript objects also inherit `Object.prototype`, which this model does not have:
  - `bikeStatusText[...] ?? bikeOwnership` and `colors[format] || colors.csv`: an answer or format such as "toString" reads an inherited function in JavaScript.
  - AdminStats.Breakdown: `acc[entry.city] || 0` starts from `{}`. A city named "constructor" or "toString" reads an inherited function, so `+ 1` yields a string and not a count, and a city named "__proto__" is not stored at all. The model counts such cities like any other.
  - Records.Lookup: `row[field]` in projection, in the date filter and in the encoders reads inherited properties for such field names. The model gives `undefined` for any key the record does not own.
- Admin dashboard:
  - The seven-day "recent signups" count needs the wall clock and is left out.
  - The Supabase query, authentication, redirects and the sign-out flow are left out.
- Waitlist validation:
  - The Zod e-mail syntax is an abstract predicate.
  - Non-string field values are not modelled.
  - The invalid-enum wording is Zod's default, not written in this repository.
- Logging: `console.log`/`console.error` calls are left out, as is the one-second delay in `submitWaitlistForm`.
- Email rendering: the React e-mail components (HTML bodies) are left out; only the plain-text functions are modelled.

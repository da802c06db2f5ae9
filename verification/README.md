# Study-schedule scraper: schedule extraction, cache and workday date

This project is a Dafny model of the two pieces of logic in the Electron study-schedule app.

- **`ScheduleParser`** (`src/schedule.js`) scrapes the group's weekly timetable from a published page.
  - The in-page routine walks the lesson elements in document order.
  - A day counter advances whenever the header found by `closest` mentions "неде". That header is the lesson element itself when it matches the day/heading selector, else its nearest matching ancestor.
  - Lessons without a subject are dropped.
  - Every other lesson becomes one line of the form "time subject teacher room". The line goes into the current day's bucket.
  - `getWeekSchedule` keeps the result in a 30-minute cache.
  - `getDaySchedule` picks one day, with a "Нет данных" placeholder, and relabels today's entry "Сегодня".
  - `getCurrentDayName` names today's weekday.
- **`getWorkdayUrl`** (`mainstable.js`) builds the timetable address for today when today is Monday to Friday. Otherwise it builds it for the next Monday, with the date written as `YYYY-MM-DD`.

Modules:

| file | module | contents |
|---|---|---|
| `wrappers.dfy` | `Wrappers` | `Option`, `Result` |
| `strings.dfy` | `Strings` | `String(n)` rendering and its parser, `padStart(2, '0')`, `includes`, `join(' ')` and its inverse split |
| `extraction.dfy` | `Extraction` | lesson candidates, the grouping fold over them (the sparse `week` array and the day counter), the final `filter`, an independent reference description of the result, and the properties proved from it |
| `schedule_parser.dfy` | `ScheduleParser` | the explicit `CacheState`, the fetch outcome, `GetWeekSchedule`, `GetDaySchedule`, `CurrentDayName` |
| `calendar.dfy` | `Calendar` | proleptic Gregorian dates, leap years, a day numbering, `getDay()`, and `setDate` day arithmetic with month and year carry |
| `workday.dfy` | `Workday` | the weekday test, days until Monday, the `YYYY-MM-DD` rendering and its parser, and the URL |

Modelling choices:

- **Candidates.** The browser DOM is reduced to a sequence of `Candidate` records. Each record holds the text that `closest` finds: the lesson element itself when it matches the day/heading selector, otherwise its nearest matching ancestor (`None` when there is none) and the texts of the time, subject, teacher and room sub-elements (`""` when missing). Selector matching itself is not modelled.
- **Clock.** Every clock reading is a parameter:
  - `now` is the `Date.now()` of the cache check.
  - `finishedAt` is the second `Date.now()`, read after the fetch, which becomes `cacheTime`.
  - `today` is `new Date().getDay()` in the day lookup.
  - The date in `getWorkdayUrl` is passed in as well.
- **Browser session.** The session is reduced to its outcome: `Rendered(candidates)` or `BrowserFailed(reason)`. A cache hit is shown to ignore that argument.
- **Cache.** The process-wide `cache`/`cacheTime` fields are an explicit `CacheState` value. Every operation takes one and returns one.

## Model

| member | source | states |
|---|---|---|
| `Strings.IntToStringRoundTrip` | mainstable.js:28-36 | the year rendering `String(year)` reads back as the same integer, negative years included |
| `Strings.NatToString` | mainstable.js:28 | `String(n)` of a natural number is a non-empty run of digits, one digit below 10 and two from 10 to 99, and starts with `0` only when n is 0 |
| `Strings.IntToString` | mainstable.js:28-36 | `String(year)` in the URL starts with `-` exactly for negative years and is never padded: a leading `0` only for year 0, and the first digit after a minus sign is not `0` |
| `Strings.PadTwo` | mainstable.js:26-27 | `padStart(2, '0')` yields digits only, exactly two of them for any number below 100, and leaves a rendering of three or more digits as it is; that it still reads as the same number is `PadTwoRoundTrip` |
| `Strings.PadTwoRoundTrip` | mainstable.js:26-27 | `padStart(2, '0')` only adds leading zeros: the padded text still reads as the same number |
| `Strings.NatToStringInjective` | src/schedule.js:59 | different numbers render as different decimal texts |
| `Strings.Contains` | src/schedule.js:48 | `includes`: the marker occurs in the header text; `ContainsIffOccurs` states that it holds exactly when some position starts an occurrence |
| `Strings.ContainsIffOccurs` | src/schedule.js:48 | the marker test `includes` holds exactly when the marker occurs at some position of the header text |
| `Strings.JoinSpace` | src/schedule.js:68 | `join(' ')`: the parts in order with one space between neighbours; `SplitJoinRoundTrip` states that splitting at spaces gives back non-empty, space-free parts, and `LineFieldsOrder` the fields a lesson line joins |
| `Strings.SplitJoinRoundTrip` | src/schedule.js:68 | `join(' ')` of non-empty, space-free parts can be split back into exactly those parts |
| `Extraction.MarksNewDay` | src/schedule.js:47-48 | a candidate starts a new day when `closest` found a header and its text contains "неде"; `Step` states that the counter rises by one exactly on such a candidate, and `RunTracks` that the counter equals their number |
| `Extraction.Kept` | src/schedule.js:56 | a candidate yields a lesson exactly when its subject text is non-empty; `DroppedCandidateAddsNothing` and `LessonCount` state the effect of the test |
| `Extraction.DayLabel` | src/schedule.js:59 | the label of counter d is `daysRu[d]` for d from 0 to 6, and from 7 on "День " followed by the decimal text of d+1, which reads back as d+1; it is never empty and is a `daysRu` name exactly below 7 (distinctness is `DayLabelInjective`) |
| `Extraction.Place` | src/schedule.js:58 | assigning `week[d]` on the sparse array: slot d holds the entry, the array grows to d+1 when d is past its end, the slots in between are holes, and every other slot is unchanged |
| `Extraction.LessonLine` | src/schedule.js:64-68 | the line is empty exactly when all four fields are empty, so a kept lesson never yields an empty line (field order and splitting are `LineFieldsOrder` and `LessonLineSplits`) |
| `Extraction.AddLesson` | src/schedule.js:57-68 | appending a line creates the day's bucket (labelled for that day, lessons `[line]`) only when it is missing, otherwise extends its lessons by the line; writing past the end leaves holes; every other slot is unchanged |
| `Extraction.Step` | src/schedule.js:45-69 | one `forEach` callback: the counter never falls, and goes up by exactly one exactly when the header carries the marker; a subject-less candidate leaves the array as it was; a kept one makes the current day's bucket end with its line, after the bucket's earlier lines (none if the bucket was missing); every other old slot is unchanged, every other new slot is a hole, and the array never shrinks |
| `Extraction.Run` | src/schedule.js:42-70 | the counter starts at 0 and, after any prefix of the loop, equals the number of candidates so far whose header contains "неде"; the array reaches no further than the counter, and every present bucket is labelled for its index and holds at least one lesson (the exact contents are `RunTracks`) |
| `Extraction.Compact` | src/schedule.js:72 | the final filter keeps only present days with lessons, each taken from the sparse array, never more than it held, and every present day with lessons is kept |
| `Extraction.CompactAppend` | src/schedule.js:72 | `filter` works slot by slot in slot order: compacting a concatenation gives the concatenation of the two compactions |
| `Extraction.CompactSingle` | src/schedule.js:72 | a single slot survives exactly when it holds a day with at least one lesson, and an empty array compacts to nothing; with `CompactAppend` this determines the result on every array |
| `Extraction.Extract` | src/schedule.js:34-73 | every day of the extraction result has at least one lesson |
| `Extraction.RunTracks` | src/schedule.js:42-70 | after any prefix of the candidates, the day counter equals the number of marker candidates, and every bucket is exactly the reference bucket for its day: absent when that day has no lines, else its label and lines |
| `Extraction.ExtractIsReference` | src/schedule.js:42-72 | the extraction result equals the reference: in increasing counter order, one entry per counter value that received a kept candidate, labelled for that counter, holding those candidates' lines in candidate order |
| `Extraction.ExtractDayOrder` | src/schedule.js:57-72 | the result lists its days in strictly increasing counter order, each labelled by its counter with the lines that fell on it, and no day that received a line is missing |
| `Extraction.LessonCount` | src/schedule.js:56-68 | the total number of lesson lines equals the number of candidates with a non-empty subject |
| `Extraction.ExtractEmptyIff` | src/schedule.js:56-72 | the extraction finds no day exactly when no candidate has a subject |
| `Extraction.DroppedCandidateAddsNothing` | src/schedule.js:47-56 | a subject-less candidate adds no line and creates no bucket, but still advances the counter when its header carries the marker (the increment precedes the subject test) |
| `Extraction.DroppedCandidateInvisible` | src/schedule.js:45-56 | a subject-less candidate without a marker header can be removed from anywhere in the stream without changing the result |
| `Extraction.DayCounterMonotone` | src/schedule.js:42-48 | the counter never decreases as candidates are processed |
| `Extraction.DayLabelInjective` | src/schedule.js:57-61 | bucket labels (`daysRu[i]` below 7, "День i+1" from there on) are distinct for distinct counters |
| `Extraction.ExtractLabelsDistinct` | src/schedule.js:57-72 | no two days of an extraction result share a label |
| `Extraction.LineFieldsOrder` | src/schedule.js:64-68 | a lesson line's fields are time, subject, teacher, room in that order, each present exactly when non-empty |
| `Extraction.LessonLineSplits` | src/schedule.js:64-68 | when no field contains a space, cutting a kept lesson's line at spaces gives back exactly its non-empty fields |
| `Extraction.LessonLineExample` | src/schedule.js:64-68 | time "9:00", subject "Math", no teacher, room "204" gives the line "9:00 Math 204" |
| `Extraction.MarkerWithoutSubjectShiftsDay` | src/schedule.js:47-61 | a subject-less candidate under a "неделя" header is dropped yet moves the next lesson into day 1, labelled "Вторник" |
| `ScheduleParser.Fetch` | src/schedule.js:34-79 | a fetch succeeds only on a rendered page whose extraction is non-empty, returning that extraction; an empty extraction fails with "no lessons found", a browser failure fails with its reason |
| `ScheduleParser.GetWeekSchedule` | src/schedule.js:12-91 | a failure leaves the cache state untouched; a success always returns the week that is then in the cache; a valid cache (never an empty week, never an empty day) stays valid, so a success never returns an empty week |
| `ScheduleParser.GetDaySchedule` | src/schedule.js:94-108 | a failure leaves the cache state untouched, and a valid cache stays valid |
| `ScheduleParser.CurrentDayName` | src/schedule.js:110-113 | today's name under Sunday-first `getDay()` is the Monday-first `daysRu` name at index (today + 6) mod 7 |
| `ScheduleParser.IsFresh` | src/schedule.js:14 | the cache gate: a present week younger than the duration; its strict boundary is `CacheExpiryBoundary`, its effect `CacheHitSkipsFetch`, and its monotonicity `StaleStaysStale` |
| `ScheduleParser.StaleStaysStale` | src/schedule.js:14 | once the stored week has expired it stays expired as the clock advances, until a new week is stored |
| `ScheduleParser.CacheHitSkipsFetch` | src/schedule.js:14-17 | when the cache is present and younger than the duration, the cached week is returned, the state is unchanged, and the page outcome plays no part |
| `ScheduleParser.FirstCallFetches` | src/schedule.js:7-16 | the start-up cache (`null`, time 0) is valid and never fresh, so the first call runs a fetch cycle, answers with its outcome, and stores the week only on success |
| `ScheduleParser.CacheExpiryBoundary` | src/schedule.js:9-16 | the duration is 1,800,000 ms and the test is strict: at 1,799,999 ms the cache is served, at 1,800,000 ms it is refetched |
| `ScheduleParser.StaleCacheNotServedOnFailure` | src/schedule.js:14-31 | once the cache is stale or absent, a browser failure fails the call, and the old week is not served instead |
| `ScheduleParser.EmptyExtractionRejected` | src/schedule.js:77-82 | a page without any subject makes the call fail with "no lessons found", leaving both cache and cache time untouched |
| `ScheduleParser.MissStoresWeek` | src/schedule.js:81-85 | on a miss with lessons on the page, the extracted week is returned and stored together with the finishing time |
| `ScheduleParser.FreshnessScenario` | src/schedule.js:9-17 | after a successful fetch finishing at T, a call at T+29 min returns the same week without consulting the page; a call at T+31 min runs a new fetch |
| `ScheduleParser.DayScheduleFromWeek` | src/schedule.js:96-104 | the day call fails exactly when the week call fails, with the same error; otherwise it carries the lessons at the index (none if absent), labelled "Сегодня" when the index is today's `getDay()`, else the entry's label or "Нет данных" |
| `ScheduleParser.RelabelWritesThrough` | src/schedule.js:97-102 | relabelling today's present entry changes exactly that entry's label in the cached week (same length, same lessons, all other entries and the cache time unchanged); in every other case the cache is as the week call left it |
| `ScheduleParser.PlaceholderForMissingDay` | src/schedule.js:97 | index 99 on a cached five-day week gives `{day: "Нет данных", lessons: []}` and leaves the cache alone |
| `ScheduleParser.PlaceholderRelabelledToday` | src/schedule.js:97-102 | a missing entry at today's index comes back as a lesson-less "Сегодня", and the cache does not see it |
| `ScheduleParser.RelabelOutlivesToday` | src/schedule.js:97-102 | after relabelling index i, a later lookup of i on another weekday still reads "Сегодня" while the cache is fresh |
| `ScheduleParser.TodayIndexMismatch` | src/schedule.js:100-101 | the bucket label at today's `getDay()` index (Monday-first `daysRu`) is never today's weekday name |
| `ScheduleParser.MondayRelabelsTuesday` | src/schedule.js:97-102 | on a Monday the entry labelled "Вторник" is relabelled "Сегодня", and Monday's entry keeps its label |
| `Calendar.NextDay` | mainstable.js:31-32 | the day after a valid date is a valid date whose day number is one higher (month and year carry) |
| `Calendar.Weekday` | mainstable.js:22 | `getDay()`, Sunday 0 to Saturday 6, counted from Monday 1 January of year 1; `WeekdayAddDays` states that adding n days moves it by n modulo 7, and `RolloverExamples` pins it on 30 Dec 2023 (Saturday) |
| `Calendar.Normalize` | mainstable.js:32 | `setDate` with a day beyond the month's end lands on a valid date the right number of days past the first of the month |
| `Calendar.AddDays` | mainstable.js:31-32 | `setDate(getDate() + n)` yields a valid date exactly n days later |
| `Calendar.YearStep` | mainstable.js:32 | consecutive years differ by 366 days in leap years (divisible by 4, not by 100 unless by 400) and 365 otherwise |
| `Calendar.DayNumberInjective` | mainstable.js:31-35 | two valid dates share a day number only if they are the same date, so the day count pins down year, month and day |
| `Calendar.AddDaysSteps` | mainstable.js:32 | adding n+1 days equals stepping one calendar day after adding n, and adding 0 days changes nothing |
| `Calendar.WeekdayAddDays` | mainstable.js:22-32 | adding n days moves `getDay()` forward by n modulo 7 |
| `Calendar.RolloverExamples` | mainstable.js:31-35 | 30 Dec 2023 + 2 is 1 Jan 2024, 28 Feb + 1 is 29 Feb in 2024 and 2000 but 1 Mar in 2023 and 2100, and 30 Dec 2023 is a Saturday |
| `Workday.DaysUntilMonday` | mainstable.js:30 | the offset from a weekend day is positive and lands on weekday 1 (Monday) |
| `Workday.IsWorkday` | mainstable.js:24 | the test `dayOfWeek >= 1 && dayOfWeek <= 5`, Monday to Friday; `WorkdayOffsets` states that it gives offset 0 on exactly those days, and `WorkdayDate` that the chosen date always passes it |
| `Workday.WorkdayDate` | mainstable.js:24-37 | the chosen date is valid and falls on Monday to Friday; it is today when today is a workday, else a Monday; it is 0 to 2 days ahead, and every day skipped is a weekend day |
| `Workday.WeekendToMonday` | mainstable.js:30-32 | from Saturday or Sunday the offset is at most 2, the date reached is a Monday, and the days skipped are weekend days |
| `Workday.WorkdayOffsets` | mainstable.js:24-32 | Monday to Friday give offset 0, Sunday gives offset 1, Saturday gives offset 2 |
| `Workday.WorkdayUrl` | mainstable.js:20-38 | both branches produce the same fixed address, then `?date=`, then the `YYYY-MM-DD` text of the chosen workday date (`WorkdayDate`) |
| `Workday.FormatDate` | mainstable.js:25-36 | the `${year}-${month}-${day}` text; its layout is `FormatDateLayout` and its inverse `FormatDateRoundTrip` |
| `Workday.FormatDateLayout` | mainstable.js:33-36 | the string is the year as `String` writes it, unpadded (a leading `-` exactly for negative years, a leading `0` only for year 0), then `-MM-DD` with month and day in exactly two digits each |
| `Workday.FormatDateRoundTrip` | mainstable.js:25-27 | the `YYYY-MM-DD` text reads back as the same date |
| `Workday.WorkdayUrlDecodes` | mainstable.js:20-38 | the URL starts with the fixed address and `?date=`, and its remainder decodes to the chosen workday date |
| `Workday.SaturdayRollsIntoNewYear` | mainstable.js:29-36 | Saturday 30 Dec 2023 yields Monday 1 Jan 2024 and the URL ending `?date=2024-01-01` |
| `Workday.WeekdayKeepsToday` | mainstable.js:24-28 | Friday 1 Mar 2024 yields the URL ending `?date=2024-03-01` |

## Behaviour recorded, not changed

The model follows the code in these places:

- **Mismatched weekday numbering.** Buckets are labelled from the Monday-first `daysRu` (`src/schedule.js:36`). The "today" test compares the requested index with Sunday-first `getDay()` (`src/schedule.js:100`). `TodayIndexMismatch` and `MondayRelabelsTuesday` show the consequence.
- **Compaction.** The week is compacted by the final `filter`, so a result index is the position among non-empty days, not the day counter. `ExtractDayOrder` states what an index does mean.
- **Relabel writes into the cache.** The relabelled entry is the cached object, so "Сегодня" is written into the cache (`RelabelWritesThrough`). It survives until the cache is replaced (`RelabelOutlivesToday`). Later calls that are served from the cache see the relabelled entry.
- **Placeholder relabel.** A missing entry at today's index is still relabelled. The result is a "Сегодня" day with no lessons (`PlaceholderRelabelledToday`).
- **Browser close.** `browser.close()` (`src/schedule.js:75`) is not in a `finally`, so any failure after the launch (in `newPage`, `goto`, `waitForTimeout` or `evaluate`) skips it. The model claims nothing about closing.
- **Day-boundary elements.** `dayElements` (`src/schedule.js:39`) is computed and never read. Transitions come only from each lesson's `closest` ancestor, which is what `Candidate.headerText` models.

## Left out

- Puppeteer launch, `newPage`, `goto` with `networkidle2`, the 3000 ms `waitForTimeout`, and `browser.close` (`src/schedule.js:22-31`, `src/schedule.js:75`) are I/O against an external browser. They are replaced by the `PageResult` parameter.
- CSS selector matching and `closest`/`querySelector` (`src/schedule.js:39-54`) are browser DOM behaviour, abstracted into the `Candidate` record. `textContent` is taken as given, untrimmed.
- Console logging and the exact wording of the rethrown error (`src/schedule.js:15`, `src/schedule.js:84-90`) are left out. Any failure becomes `LoadFailed(cause)` with the cause kept. `getDaySchedule`'s `catch` only rethrows, which is modelled as plain propagation.
- Wall-clock reads (`Date.now()`, `new Date()`, `getDay()`) are parameters. The model does not assume they are consistent with each other or with the date given to `WorkdayUrl`.
- Duplicate fetches on simultaneous cache misses come from asynchronous interleaving, which this sequential model does not represent.
- Time of day, time zones and daylight-saving shifts are left out. Dates are calendar dates only. The JavaScript `Date` range limit (time values within ±8.64e15 ms of 1970, so years −271,821 to 275,760) is not modelled.
- `dayIndex` values that are not integers (`NaN`, fractions, strings from the caller) are left out. The index is an integer.
- `ScheduleParser.GetDaySchedule`: its contract states only the failure and validity facts. The answer itself is stated against `GetWeekSchedule` by `DayScheduleFromWeek` and `RelabelWritesThrough`.
- The rest of `mainstable.js` is Electron UI and timers: windows, injected title-bar and scroll code, tray placement, the widget hide timer and global shortcuts. `main.js` and `preload.js` are window, tray and IPC shell code. None of these is part of this model.

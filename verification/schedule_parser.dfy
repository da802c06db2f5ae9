/**
 * The schedule component: a 30-minute cache in front of the page fetch, the
 * per-day lookup with its "today" relabelling, and the current weekday name.
 *
 * The process-wide cache fields become an explicit `CacheState` that every
 * operation takes and returns. The clock readings (`Date.now()` before the
 * fetch and again after it, `new Date().getDay()` in the day lookup) are
 * parameters, and the browser session is reduced to its outcome: either the
 * rendered lesson candidates or a failure.
 */
module ScheduleParser {
  import opened Wrappers
  import opened Extraction
  import Calendar

  /** How long a fetched week is served from the cache: 30 minutes, in milliseconds. */
  const CacheDuration: int := 30 * 60 * 1000

  const TodayLabel: string := "Сегодня"
  const NoDataLabel: string := "Нет данных"

  /** Sunday-first weekday names, indexed by `Date.prototype.getDay()`. */
  const DaysSundayFirst: seq<string> :=
    ["Воскресенье", "Понедельник", "Вторник", "Среда", "Четверг", "Пятница", "Суббота"]

  /** The cached week (absent at start-up) and the time it was stored. */
  datatype CacheState = CacheState(cache: Option<Week>, cacheTime: int)

  /** The cache at start-up: no week, stored at time 0. */
  const Initial: CacheState := CacheState(None, 0)

  /** What one browser session yields: the lesson candidates, or the reason it failed. */
  datatype PageResult = Rendered(candidates: seq<Candidate>) | BrowserFailed(reason: string)

  /** Why a load failed: the browser session threw, or the page held no lessons. */
  datatype LoadCause = BrowserError(reason: string) | NoLessonsFound

  /** Every failure is rethrown as one "could not load the schedule" error carrying its cause. */
  datatype ScheduleError = LoadFailed(cause: LoadCause)

  /** An answer together with the cache state it leaves behind. */
  datatype Reply<T> = Reply(result: Result<T, ScheduleError>, state: CacheState)

  /** The placeholder returned for a day index with no entry. */
  const Placeholder: DayEntry := DayEntry(NoDataLabel, [])

  /** A cached week is non-empty and none of its days is empty. */
  ghost predicate Valid(st: CacheState) {
    st.cache.Some? ==>
      && |st.cache.value| > 0
      && forall k :: 0 <= k < |st.cache.value| ==> |st.cache.value[k].lessons| > 0
  }

  /** The cache gate: a stored week younger than the cache duration is served as is. */
  predicate IsFresh(st: CacheState, now: int) {
    st.cache.Some? && now - st.cacheTime < CacheDuration
  }

  /** One fetch cycle: extraction on a rendered page, with an empty week turned into an error. */
  function Fetch(page: PageResult): (r: Result<Week, ScheduleError>)
    ensures r.Success? ==> page.Rendered? && r.value == Extract(page.candidates) && |r.value| > 0
    ensures r.Failure? && page.Rendered? ==> Extract(page.candidates) == [] && r.error == LoadFailed(NoLessonsFound)
    ensures r.Failure? && page.BrowserFailed? ==> r.error == LoadFailed(BrowserError(page.reason))
  {
    match page
    case BrowserFailed(reason) => Failure(LoadFailed(BrowserError(reason)))
    case Rendered(cs) =>
      var week := Extract(cs);
      if |week| == 0 then Failure(LoadFailed(NoLessonsFound)) else Success(week)
  }

  /**
   * `getWeekSchedule`: serve the cache when it is fresh at `now`; otherwise run
   * a fetch cycle and, on success, store its week with the time `finishedAt`.
   */
  function GetWeekSchedule(st: CacheState, now: int, page: PageResult, finishedAt: int): (r: Reply<Week>)
    ensures r.result.Failure? ==> r.state == st
    ensures r.result.Success? ==> r.state.cache == Some(r.result.value)
    ensures Valid(st) ==> Valid(r.state)
    ensures Valid(st) && r.result.Success? ==> |r.result.value| > 0
  {
    if IsFresh(st, now) then Reply(Success(st.cache.value), st)
    else
      match Fetch(page)
      case Failure(e) => Reply(Failure(e), st)
      case Success(week) => Reply(Success(week), CacheState(Some(week), finishedAt))
  }

  /**
   * `getDaySchedule(dayIndex)`: the week's entry at `dayIndex`, or the placeholder,
   * relabelled "Сегодня" when `dayIndex` equals today's `getDay()`. The entry is
   * the cached object itself, so the relabelling is also written into the cache.
   */
  function GetDaySchedule(st: CacheState, dayIndex: int, today: Calendar.DayOfWeek, now: int, page: PageResult, finishedAt: int)
    : (r: Reply<DayEntry>)
    ensures r.result.Failure? ==> r.state == st
    ensures Valid(st) ==> Valid(r.state)
  {
    var weekReply := GetWeekSchedule(st, now, page, finishedAt);
    match weekReply.result
    case Failure(e) => Reply(Failure(e), weekReply.state)
    case Success(week) =>
      var present := 0 <= dayIndex < |week|;
      var dayData := if present then week[dayIndex] else Placeholder;
      if dayIndex == today then
        var relabelled := dayData.(day := TodayLabel);
        var cacheAfter := if present then CacheState(Some(week[dayIndex := relabelled]), weekReply.state.cacheTime)
                          else weekReply.state;
        Reply(Success(relabelled), cacheAfter)
      else
        Reply(Success(dayData), weekReply.state)
  }

  /** `getCurrentDayName`: the name of the weekday `today` (Sunday-first numbering). */
  function CurrentDayName(today: Calendar.DayOfWeek): (name: string)
    ensures name == DaysRu[(today + 6) % 7]
  {
    DaysSundayFirst[today]
  }

  // ---------------------------------------------------------------------------
  // The cache gate

  /** A fresh cache is returned unchanged, whatever the page would have rendered. */
  lemma CacheHitSkipsFetch(st: CacheState, now: int, page1: PageResult, t1: int, page2: PageResult, t2: int)
    requires IsFresh(st, now)
    ensures GetWeekSchedule(st, now, page1, t1) == Reply(Success(st.cache.value), st)
    ensures GetWeekSchedule(st, now, page1, t1) == GetWeekSchedule(st, now, page2, t2)
  {
  }

  /**
   * At start-up there is nothing to serve, whatever the clock says: the first
   * call always runs a fetch cycle and answers with its outcome.
   */
  lemma FirstCallFetches(now: int, page: PageResult, finishedAt: int)
    ensures Valid(Initial)
    ensures !IsFresh(Initial, now)
    ensures GetWeekSchedule(Initial, now, page, finishedAt).result == Fetch(page)
    ensures Fetch(page).Success? ==> GetWeekSchedule(Initial, now, page, finishedAt).state == CacheState(Some(Fetch(page).value), finishedAt)
    ensures Fetch(page).Failure? ==> GetWeekSchedule(Initial, now, page, finishedAt).state == Initial
  {
  }

  /** The gate only closes as the clock advances: once expired, a stored week stays expired until it is replaced. */
  lemma StaleStaysStale(st: CacheState, now: int, later: int)
    requires now <= later && !IsFresh(st, now)
    ensures !IsFresh(st, later)
  {
  }

  /** The comparison is strict: 1,799,999 ms after storing it serves the cache, 1,800,000 ms after it refetches. */
  lemma CacheExpiryBoundary(st: CacheState)
    requires st.cache.Some?
    ensures CacheDuration == 1800000
    ensures IsFresh(st, st.cacheTime + 1799999)
    ensures !IsFresh(st, st.cacheTime + 1800000)
  {
  }

  /** A stale cache is not a fallback: a failed fetch fails the call and leaves the cache alone. */
  lemma StaleCacheNotServedOnFailure(st: CacheState, now: int, reason: string, finishedAt: int)
    requires !IsFresh(st, now)
    ensures GetWeekSchedule(st, now, BrowserFailed(reason), finishedAt)
         == Reply(Failure(LoadFailed(BrowserError(reason))), st)
  {
  }

  /** A page without any subject is an error, and neither cache field changes. */
  lemma EmptyExtractionRejected(st: CacheState, now: int, cs: seq<Candidate>, finishedAt: int)
    requires !IsFresh(st, now)
    requires CountKept(cs) == 0
    ensures GetWeekSchedule(st, now, Rendered(cs), finishedAt) == Reply(Failure(LoadFailed(NoLessonsFound)), st)
  {
    ExtractEmptyIff(cs);
  }

  /** On a miss with lessons on the page, the extracted week and its time are stored together. */
  lemma MissStoresWeek(st: CacheState, now: int, cs: seq<Candidate>, finishedAt: int)
    requires !IsFresh(st, now)
    requires CountKept(cs) > 0
    ensures GetWeekSchedule(st, now, Rendered(cs), finishedAt)
         == Reply(Success(Extract(cs)), CacheState(Some(Extract(cs)), finishedAt))
  {
    ExtractEmptyIff(cs);
  }

  /**
   * After a successful fetch finishing at `t`, a call 29 minutes later returns
   * the very same week without consulting the page, while a call 31 minutes
   * later runs a new fetch cycle.
   */
  lemma FreshnessScenario(st: CacheState, now: int, cs: seq<Candidate>, t: int, later: PageResult, t2: int)
    requires !IsFresh(st, now)
    requires CountKept(cs) > 0
    ensures var first := GetWeekSchedule(st, now, Rendered(cs), t);
      && first.result == Success(Extract(cs))
      && GetWeekSchedule(first.state, t + 29 * 60 * 1000, later, t2) == Reply(Success(Extract(cs)), first.state)
      && GetWeekSchedule(first.state, t + 31 * 60 * 1000, later, t2).result == Fetch(later)
  {
    MissStoresWeek(st, now, cs, t);
  }

  // ---------------------------------------------------------------------------
  // Day lookup

  /**
   * The day answer is the week answer narrowed to one entry: it fails exactly
   * when the week fails, carries the lessons at `dayIndex` (none when absent),
   * and is labelled "Сегодня" when `dayIndex` is today's `getDay()`, otherwise
   * with the entry's own label or "Нет данных".
   */
  lemma DayScheduleFromWeek(st: CacheState, dayIndex: int, today: Calendar.DayOfWeek, now: int, page: PageResult, finishedAt: int)
    ensures var weekReply := GetWeekSchedule(st, now, page, finishedAt);
            var r := GetDaySchedule(st, dayIndex, today, now, page, finishedAt);
      && (r.result.Success? <==> weekReply.result.Success?)
      && (weekReply.result.Failure? ==> r.result.error == weekReply.result.error)
      && (weekReply.result.Success? ==>
            var w := weekReply.result.value;
            && r.result.value.lessons == (if 0 <= dayIndex < |w| then w[dayIndex].lessons else [])
            && r.result.value.day
               == (if dayIndex == today then TodayLabel
                   else if 0 <= dayIndex < |w| then w[dayIndex].day
                   else NoDataLabel))
  {
  }

  /**
   * The relabelling writes through to the cache: the cached week changes in
   * exactly one label, the one at today's index; when the index is absent or
   * is not today, the cache is left as the week lookup left it.
   */
  lemma RelabelWritesThrough(st: CacheState, dayIndex: int, today: Calendar.DayOfWeek, now: int, page: PageResult, finishedAt: int)
    requires GetWeekSchedule(st, now, page, finishedAt).result.Success?
    ensures var weekReply := GetWeekSchedule(st, now, page, finishedAt);
            var w := weekReply.result.value;
            var r := GetDaySchedule(st, dayIndex, today, now, page, finishedAt);
      && r.state.cacheTime == weekReply.state.cacheTime
      && (if dayIndex == today && 0 <= dayIndex < |w| then
            && r.state.cache.Some?
            && |r.state.cache.value| == |w|
            && r.state.cache.value[dayIndex] == DayEntry(TodayLabel, w[dayIndex].lessons)
            && (forall k :: 0 <= k < |w| && k != dayIndex ==> r.state.cache.value[k] == w[k])
          else r.state == weekReply.state)
  {
  }

  /** `getDaySchedule(99)` on a cached five-day week gives the "Нет данных" placeholder. */
  lemma PlaceholderForMissingDay(w: Week, cacheTime: int, now: int, today: Calendar.DayOfWeek, page: PageResult, t: int)
    requires |w| == 5
    requires now - cacheTime < CacheDuration
    ensures GetDaySchedule(CacheState(Some(w), cacheTime), 99, today, now, page, t)
         == Reply(Success(DayEntry(NoDataLabel, [])), CacheState(Some(w), cacheTime))
  {
  }

  /** A missing entry at today's index is still relabelled: a lesson-less "Сегодня" that the cache never sees. */
  lemma PlaceholderRelabelledToday(w: Week, cacheTime: int, now: int, today: Calendar.DayOfWeek, page: PageResult, t: int)
    requires today >= |w|
    requires now - cacheTime < CacheDuration
    ensures GetDaySchedule(CacheState(Some(w), cacheTime), today, today, now, page, t)
         == Reply(Success(DayEntry(TodayLabel, [])), CacheState(Some(w), cacheTime))
  {
  }

  /**
   * Because the relabelling is written into the cache, the entry keeps the
   * "Сегодня" label on later lookups while the cache stays fresh, even once the
   * index is no longer today's.
   */
  lemma RelabelOutlivesToday(w: Week, cacheTime: int, i: Calendar.DayOfWeek, now: int, later: int, tomorrow: Calendar.DayOfWeek,
                             page: PageResult, t: int)
    requires 0 <= i < |w|
    requires now - cacheTime < CacheDuration && later - cacheTime < CacheDuration
    requires tomorrow != i
    ensures var first := GetDaySchedule(CacheState(Some(w), cacheTime), i, i, now, page, t);
      GetDaySchedule(first.state, i, tomorrow, later, page, t).result
        == Success(DayEntry(TodayLabel, w[i].lessons))
  {
  }

  /**
   * Bucket labels are Monday-first while the "today" test uses Sunday-first
   * `getDay()`: the label a bucket gets at today's index is never today's name.
   */
  lemma TodayIndexMismatch(today: Calendar.DayOfWeek)
    ensures DayLabel(today) != CurrentDayName(today)
  {
    DayLabelInjective(today, (today + 6) % 7);
  }

  /**
   * On a Monday (`getDay()` is 1) the entry relabelled "Сегодня" is the one the
   * extraction labelled Tuesday, and Monday's own entry keeps its label.
   */
  lemma MondayRelabelsTuesday(cacheTime: int, now: int, page: PageResult, t: int)
    requires now - cacheTime < CacheDuration
    ensures var st := CacheState(Some([DayEntry("Понедельник", ["9:00 Math"]), DayEntry("Вторник", ["10:00 Art"])]), cacheTime);
      && GetDaySchedule(st, 1, 1, now, page, t).result == Success(DayEntry(TodayLabel, ["10:00 Art"]))
      && GetDaySchedule(st, 0, 1, now, page, t).result == Success(DayEntry("Понедельник", ["9:00 Math"]))
  {
  }
}

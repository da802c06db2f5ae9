/**
 * The address the main window opens: the published timetable for today when
 * today is Monday to Friday, otherwise for the coming Monday, with the date
 * written as `YYYY-MM-DD` in a `date` query parameter.
 */
module Workday {
  import opened Wrappers
  import opened Strings
  import opened Calendar

  /** The fixed published-schedule address of the group's lessons. */
  const ScheduleUrl: string :=
    "https://schedule.mstimetables.ru/publications/cdb2a14c-a891-4f9f-b56c-7e8eb559c766#/groups/140/lessons"

  const DateQuery: string := "?date="

  predicate IsWorkday(dow: int) {
    1 <= dow <= 5
  }

  /** Days from a weekend day to the next Monday: one from Sunday, `8 - dow` otherwise. */
  function DaysUntilMonday(dow: int): (n: int)
    requires 0 <= dow < 7 && !IsWorkday(dow)
    ensures n > 0 && (dow + n) % 7 == 1
  {
    if dow == 0 then 1 else 8 - dow
  }

  /** `YYYY-MM-DD`: the year as `String` renders it, month and day padded to two digits. */
  function FormatDate(d: Date): string
    requires ValidDate(d)
  {
    IntToString(d.year) + "-" + PadTwo(d.month) + "-" + PadTwo(d.day)
  }

  /** Reads a date back from the end of a `YYYY-MM-DD` string. */
  function ParseDate(s: string): Option<Date> {
    if |s| < 7 || s[|s| - 3] != '-' || s[|s| - 6] != '-' then None
    else
      match (ParseInt(s[..|s| - 6]), ParseNat(s[|s| - 5..|s| - 3]), ParseNat(s[|s| - 2..]))
      case (Some(y), Some(m), Some(d)) => Some(Date(y, m, d))
      case _ => None
  }

  /**
   * `getWorkdayUrl`, with today's date passed in. Both branches build the same
   * prefix followed by the chosen date.
   */
  function WorkdayUrl(today: Date): (url: string)
    requires ValidDate(today)
    ensures url == ScheduleUrl + DateQuery + FormatDate(WorkdayDate(today))
  {
    var dow := Weekday(today);
    if IsWorkday(dow) then
      ScheduleUrl + DateQuery + FormatDate(today)
    else
      var nextMonday := AddDays(today, DaysUntilMonday(dow));
      ScheduleUrl + DateQuery + FormatDate(nextMonday)
  }

  /** The date the URL asks for: the first day from `today` on that falls on Monday to Friday. */
  function WorkdayDate(today: Date): (r: Date)
    requires ValidDate(today)
    ensures ValidDate(r)
    ensures IsWorkday(Weekday(r))
    ensures IsWorkday(Weekday(today)) ==> r == today
    ensures !IsWorkday(Weekday(today)) ==> Weekday(r) == 1
    ensures 0 <= DayNumber(r) - DayNumber(today) <= 2
    ensures forall k: nat :: k < DayNumber(r) - DayNumber(today) ==> !IsWorkday(Weekday(AddDays(today, k)))
  {
    var dow := Weekday(today);
    if IsWorkday(dow) then today
    else
      WeekendToMonday(today);
      AddDays(today, DaysUntilMonday(dow))
  }

  /** From a weekend day, the days skipped are weekend days and the one reached is a Monday. */
  lemma WeekendToMonday(today: Date)
    requires ValidDate(today) && !IsWorkday(Weekday(today))
    ensures var n := DaysUntilMonday(Weekday(today));
      && n <= 2
      && Weekday(AddDays(today, n)) == 1
      && forall k: nat :: k < n ==> !IsWorkday(Weekday(AddDays(today, k)))
  {
    var n := DaysUntilMonday(Weekday(today));
    WeekdayAddDays(today, n);
    forall k: nat | k < n
      ensures !IsWorkday(Weekday(AddDays(today, k)))
    {
      WeekdayAddDays(today, k);
    }
  }

  // ---------------------------------------------------------------------------
  // Properties of the URL

  /** Sunday moves one day ahead, Saturday two; Monday to Friday stay put. */
  lemma WorkdayOffsets(today: Date)
    requires ValidDate(today)
    ensures IsWorkday(Weekday(today)) ==> WorkdayDate(today) == AddDays(today, 0)
    ensures Weekday(today) == 0 ==> WorkdayDate(today) == AddDays(today, 1)
    ensures Weekday(today) == 6 ==> WorkdayDate(today) == AddDays(today, 2)
  {
    AddDaysSteps(today, 0);
  }

  /** The year is written unpadded with its sign; month and day are always two digits, in fixed places at the end. */
  lemma FormatDateLayout(d: Date)
    requires ValidDate(d)
    ensures var s := FormatDate(d);
      && |s| == |IntToString(d.year)| + 6
      && s[|s| - 3] == '-' && s[|s| - 6] == '-'
      && s[..|s| - 6] == IntToString(d.year)
      && (s[0] == '-' <==> d.year < 0)
      && (s[0] == '0' ==> d.year == 0)
      && s[|s| - 5..|s| - 3] == PadTwo(d.month)
      && s[|s| - 2..] == PadTwo(d.day)
  {
  }

  /** The formatted date reads back as the same date. */
  lemma FormatDateRoundTrip(d: Date)
    requires ValidDate(d)
    ensures ParseDate(FormatDate(d)) == Some(d)
  {
    FormatDateLayout(d);
    IntToStringRoundTrip(d.year);
    PadTwoRoundTrip(d.month);
    PadTwoRoundTrip(d.day);
  }

  /** The URL's query decodes to the workday date: the first Monday-to-Friday day from today on. */
  lemma WorkdayUrlDecodes(today: Date)
    requires ValidDate(today)
    ensures var url := WorkdayUrl(today);
      && ScheduleUrl + DateQuery <= url
      && ParseDate(url[|ScheduleUrl + DateQuery|..]) == Some(WorkdayDate(today))
  {
    var prefix := ScheduleUrl + DateQuery;
    var url := WorkdayUrl(today);
    assert url[|prefix|..] == FormatDate(WorkdayDate(today));
    FormatDateRoundTrip(WorkdayDate(today));
  }

  lemma Render2024()
    ensures IntToString(2024) == "2024"
  {
    assert NatToString(2) == "2";
    assert NatToString(20) == NatToString(2) + "0";
    assert NatToString(202) == NatToString(20) + "2";
    assert NatToString(2024) == NatToString(202) + "4";
  }

  /** Saturday 30 December 2023 leads to Monday 1 January 2024. */
  lemma SaturdayRollsIntoNewYear()
    ensures WorkdayDate(Date(2023, 12, 30)) == Date(2024, 1, 1)
    ensures WorkdayUrl(Date(2023, 12, 30)) == ScheduleUrl + "?date=2024-01-01"
  {
    var saturday := Date(2023, 12, 30);
    RolloverExamples();
    WorkdayOffsets(saturday);
    assert WorkdayDate(saturday) == Date(2024, 1, 1);
    Render2024();
    assert PadTwo(1) == "01";
    assert FormatDate(Date(2024, 1, 1)) == "2024-01-01";
    assert WorkdayUrl(saturday) == ScheduleUrl + DateQuery + "2024-01-01";
  }

  /** A weekday date is used as it is: Friday 1 March 2024. */
  lemma WeekdayKeepsToday()
    ensures WorkdayUrl(Date(2024, 3, 1)) == ScheduleUrl + "?date=2024-03-01"
  {
    assert DayNumber(Date(2024, 3, 1)) == 738945;
    assert Weekday(Date(2024, 3, 1)) == 5;
    Render2024();
    assert PadTwo(3) == "03";
    assert PadTwo(1) == "01";
    assert FormatDate(Date(2024, 3, 1)) == "2024-03-01";
  }
}

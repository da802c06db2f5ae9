/**
 * The in-page extraction routine of the schedule scraper: a grouping fold over
 * the flat, document-ordered stream of lesson candidates.
 *
 * The browser's selector matching is abstracted away: each candidate arrives as
 * the text `closest` finds for the day/heading selector (the element itself when
 * it matches, else its nearest matching ancestor, if any) and the texts of its
 * time, subject, teacher and room sub-elements (the empty string when the
 * sub-element is missing).
 *
 * The fold keeps a day counter, starting at 0, that is bumped for every
 * candidate whose header text contains the marker "неде". Candidates with an
 * empty subject are dropped; every other candidate becomes one lesson line,
 * appended to the bucket of the current day, which is created on first use.
 * The buckets live in a JavaScript array that may have holes; the final
 * `filter` removes the holes and keeps the days in counter order.
 */
module Extraction {
  import opened Wrappers
  import opened Strings

  /** One element matched by the lesson selector, as seen by the extraction code. */
  datatype Candidate = Candidate(
    headerText: Option<string>,
    time: string,
    subject: string,
    teacher: string,
    room: string)

  /** A day of the week schedule: its label and its lesson lines in page order. */
  datatype DayEntry = DayEntry(day: string, lessons: seq<string>)

  type Week = seq<DayEntry>

  /** Monday-first weekday names used to label the day buckets. */
  const DaysRu: seq<string> :=
    ["Понедельник", "Вторник", "Среда", "Четверг", "Пятница", "Суббота", "Воскресенье"]

  /** Header text containing this marks the start of a new day. */
  const DayMarker: string := "неде"

  predicate MarksNewDay(c: Candidate) {
    match c.headerText
    case Some(h) => Contains(h, DayMarker)
    case None => false
  }

  /** Only candidates with a subject produce a lesson. */
  predicate Kept(c: Candidate) {
    c.subject != ""
  }

  /** The lesson fields that make it into the line, in their fixed order. */
  function LineFields(c: Candidate): seq<string> {
    NonEmpty([c.time, c.subject, c.teacher, c.room])
  }

  /** The display line of a lesson: its non-empty fields joined by single spaces. */
  function LessonLine(c: Candidate): (l: string)
    ensures l == "" <==> c.time == "" && c.subject == "" && c.teacher == "" && c.room == ""
  {
    var parts := [c.time, c.subject, c.teacher, c.room];
    var fields := LineFields(c);
    assert fields != [] ==> fields[0] in parts && fields[0] != "";
    assert c.time in parts && c.subject in parts && c.teacher in parts && c.room in parts;
    assert fields != [] ==> |JoinSpace(fields)| >= |fields[0]|;
    JoinSpace(fields)
  }

  /** Label of the bucket created at counter `d`: a weekday name, or "День <d+1>" past Sunday. */
  function DayLabel(d: nat): (l: string)
    ensures l != ""
    ensures l in DaysRu <==> d < 7
    ensures d < 7 ==> l == DaysRu[d]
    ensures d >= 7 ==> |l| > 5 && l[..5] == "День " && ParseNat(l[5..]) == Some(d + 1)
    ensures d >= 7 ==> l[5] != '0'
  {
    if d < |DaysRu| then DaysRu[d]
    else
      var l := "День " + NatToString(d + 1);
      assert forall k :: 0 <= k < |DaysRu| ==> DaysRu[k][0] != l[0];
      NatToStringRoundTrip(d + 1);
      assert l[5..] == NatToString(d + 1);
      l
  }

  // ---------------------------------------------------------------------------
  // The fold, as the page code performs it

  /** The sparse `week` array (None is a hole) and the current day counter. */
  datatype Fold = Fold(week: seq<Option<DayEntry>>, currentDay: nat)

  const Start: Fold := Fold([], 0)

  /** `week[d] = value` on a JavaScript array: writing past the end leaves holes. */
  function Place(week: seq<Option<DayEntry>>, d: nat, e: DayEntry): (r: seq<Option<DayEntry>>)
    ensures |r| == if d < |week| then |week| else d + 1
    ensures r[d] == Some(e)
    ensures forall k :: 0 <= k < |week| && k != d ==> r[k] == week[k]
    ensures forall k :: |week| <= k < |r| && k != d ==> r[k] == None
  {
    if d < |week| then week[d := Some(e)]
    else week + seq(d - |week|, _ => None) + [Some(e)]
  }

  /** Appends a line to the bucket of day `d`, creating the bucket first if it is missing. */
  function AddLesson(week: seq<Option<DayEntry>>, d: nat, line: string): (r: seq<Option<DayEntry>>)
    ensures |r| == if d < |week| then |week| else d + 1
    ensures d < |week| && week[d].Some? ==>
      r[d] == Some(week[d].value.(lessons := week[d].value.lessons + [line]))
    ensures !(d < |week| && week[d].Some?) ==> r[d] == Some(DayEntry(DayLabel(d), [line]))
    ensures forall k :: 0 <= k < |week| && k != d ==> r[k] == week[k]
    ensures forall k :: |week| <= k < |r| && k != d ==> r[k] == None
  {
    var bucketed := if d < |week| && week[d].Some? then week else Place(week, d, DayEntry(DayLabel(d), []));
    var entry := bucketed[d].value;
    assert !(d < |week| && week[d].Some?) ==> entry.lessons + [line] == [line];
    bucketed[d := Some(entry.(lessons := entry.lessons + [line]))]
  }

  /** One iteration of the `forEach` callback. */
  function Step(f: Fold, c: Candidate): (g: Fold)
    ensures MarksNewDay(c) <==> g.currentDay > f.currentDay
    ensures f.currentDay <= g.currentDay <= f.currentDay + 1
    ensures !Kept(c) ==> g.week == f.week
    ensures Kept(c) ==>
      var d := g.currentDay;
      var bucket := if d < |f.week| && f.week[d].Some? then f.week[d].value else DayEntry(DayLabel(d), []);
      d < |g.week| && g.week[d] == Some(bucket.(lessons := bucket.lessons + [LessonLine(c)]))
    ensures |g.week| >= |f.week|
    ensures forall k :: 0 <= k < |f.week| && k != g.currentDay ==> g.week[k] == f.week[k]
    ensures forall k :: |f.week| <= k < |g.week| && k != g.currentDay ==> g.week[k] == None
  {
    var day := if MarksNewDay(c) then f.currentDay + 1 else f.currentDay;
    if Kept(c) then Fold(AddLesson(f.week, day, LessonLine(c)), day)
    else Fold(f.week, day)
  }

  /** The fold over the candidates in document order. */
  function Run(cs: seq<Candidate>): (f: Fold)
    ensures f.currentDay == CountMarkers(cs)
    ensures |f.week| <= f.currentDay + 1
    ensures forall d :: 0 <= d < |f.week| && f.week[d].Some? ==>
      f.week[d].value.day == DayLabel(d) && |f.week[d].value.lessons| > 0
  {
    if cs == [] then Start else Step(Run(cs[..|cs| - 1]), cs[|cs| - 1])
  }

  /** The `filter` test: the slot holds a day, and that day has lessons. */
  predicate Survives(slot: Option<DayEntry>) {
    slot.Some? && |slot.value.lessons| > 0
  }

  /** `week.filter(day => day && day.lessons.length > 0)`. */
  function Compact(week: seq<Option<DayEntry>>): (r: Week)
    ensures |r| <= |week|
    ensures forall k :: 0 <= k < |r| ==> |r[k].lessons| > 0
    ensures forall k :: 0 <= k < |r| ==> Some(r[k]) in week
    ensures forall i {:trigger Survives(week[i])} :: 0 <= i < |week| && Survives(week[i]) ==> week[i].value in r
  {
    if week == [] then []
    else
      var head := if Survives(week[0]) then [week[0].value] else [];
      var rest := Compact(week[1..]);
      assert forall i :: 1 <= i < |week| ==> week[i] == week[1..][i - 1];
      head + rest
  }

  /** The first slot is tested on its own, ahead of the rest. */
  lemma CompactCons(slot: Option<DayEntry>, rest: seq<Option<DayEntry>>)
    ensures Compact([slot] + rest) == (if Survives(slot) then [slot.value] else []) + Compact(rest)
  {
    var s := [slot] + rest;
    assert s[0] == slot;
    assert s[1..] == rest;
  }

  /**
   * `filter` works slot by slot and keeps the survivors in slot order: the
   * compaction of a concatenation is the concatenation of the compactions.
   * With `CompactSingle` this fixes `Compact` on every array.
   */
  lemma {:induction false} CompactAppend(a: seq<Option<DayEntry>>, b: seq<Option<DayEntry>>)
    ensures Compact(a + b) == Compact(a) + Compact(b)
    decreases |a|
  {
    if a == [] {
      assert a + b == b;
    } else {
      var head := if Survives(a[0]) then [a[0].value] else [];
      calc {
        Compact(a + b);
        == { assert a + b == [a[0]] + (a[1..] + b); CompactCons(a[0], a[1..] + b); }
        head + Compact(a[1..] + b);
        == { CompactAppend(a[1..], b); }
        head + (Compact(a[1..]) + Compact(b));
        ==
        (head + Compact(a[1..])) + Compact(b);
        == { assert a == [a[0]] + a[1..]; CompactCons(a[0], a[1..]); }
        Compact(a) + Compact(b);
      }
    }
  }

  /** A single slot is kept exactly when it survives the test; nothing comes from nothing. */
  lemma CompactSingle(slot: Option<DayEntry>)
    ensures Compact([]) == []
    ensures Compact([slot]) == (if Survives(slot) then [slot.value] else [])
  {
    assert [slot][1..] == [];
  }

  /** The whole extraction: the value `page.evaluate` hands back. */
  function Extract(cs: seq<Candidate>): (w: Week)
    ensures forall k :: 0 <= k < |w| ==> |w[k].lessons| > 0
  {
    Compact(Run(cs).week)
  }

  // ---------------------------------------------------------------------------
  // A reference description of the extraction result, independent of the fold

  /** How many candidates mark a new day. */
  function CountMarkers(cs: seq<Candidate>): nat {
    if cs == [] then 0
    else CountMarkers(cs[..|cs| - 1]) + (if MarksNewDay(cs[|cs| - 1]) then 1 else 0)
  }

  /** How many candidates carry a subject. */
  function CountKept(cs: seq<Candidate>): nat {
    if cs == [] then 0
    else CountKept(cs[..|cs| - 1]) + (if Kept(cs[|cs| - 1]) then 1 else 0)
  }

  /**
   * The lines of day `d`: one per kept candidate whose day number (the count of
   * markers up to and including it) is `d`, in candidate order.
   */
  function LinesOn(cs: seq<Candidate>, d: nat): seq<string> {
    if cs == [] then []
    else
      var c := cs[|cs| - 1];
      LinesOn(cs[..|cs| - 1], d) + (if Kept(c) && CountMarkers(cs) == d then [LessonLine(c)] else [])
  }

  /** The days `lo .. hi-1` that received at least one line, in increasing day order. */
  function DaysFrom(cs: seq<Candidate>, lo: nat, hi: nat): Week
    decreases hi - lo
  {
    if lo >= hi then []
    else
      (if LinesOn(cs, lo) == [] then [] else [DayEntry(DayLabel(lo), LinesOn(cs, lo))])
      + DaysFrom(cs, lo + 1, hi)
  }

  /** Every day number the candidates can reach, from 0 to the number of markers. */
  function Reference(cs: seq<Candidate>): Week {
    DaysFrom(cs, 0, CountMarkers(cs) + 1)
  }

  /** The bucket the reference predicts for day `d`. */
  function Bucket(cs: seq<Candidate>, d: nat): Option<DayEntry> {
    if LinesOn(cs, d) == [] then None else Some(DayEntry(DayLabel(d), LinesOn(cs, d)))
  }

  /** The fold state after `cs` is the one the reference predicts. */
  ghost predicate Tracks(f: Fold, cs: seq<Candidate>) {
    && f.currentDay == CountMarkers(cs)
    && |f.week| <= f.currentDay + 1
    && (forall d :: 0 <= d < |f.week| ==> f.week[d] == Bucket(cs, d))
    && (forall d: nat :: d >= |f.week| ==> LinesOn(cs, d) == [])
  }

  lemma {:induction false} LinesBeyondCounter(cs: seq<Candidate>, d: nat)
    requires d > CountMarkers(cs)
    ensures LinesOn(cs, d) == []
    decreases |cs|
  {
    if cs != [] {
      LinesBeyondCounter(cs[..|cs| - 1], d);
    }
  }

  /** How the reference lines change when one candidate is appended. */
  lemma LinesOnSnoc(p: seq<Candidate>, c: Candidate, d: nat)
    ensures CountMarkers(p + [c]) == CountMarkers(p) + (if MarksNewDay(c) then 1 else 0)
    ensures LinesOn(p + [c], d)
         == LinesOn(p, d) + (if Kept(c) && CountMarkers(p + [c]) == d then [LessonLine(c)] else [])
  {
    assert (p + [c])[..|p|] == p;
  }

  /** One fold step keeps the fold in step with the reference. */
  lemma StepTracks(f: Fold, p: seq<Candidate>, c: Candidate)
    requires Tracks(f, p)
    ensures Tracks(Step(f, c), p + [c])
  {
    LinesOnSnoc(p, c, 0);
    if Kept(c) {
      KeptStepTracks(f, p, c);
    } else {
      DroppedStepTracks(f, p, c);
    }
  }

  lemma DroppedStepTracks(f: Fold, p: seq<Candidate>, c: Candidate)
    requires Tracks(f, p)
    requires !Kept(c)
    ensures Tracks(Step(f, c), p + [c])
  {
    var g := Step(f, c);
    assert g.week == f.week;
    LinesOnSnoc(p, c, 0);
    forall d: nat
      ensures LinesOn(p + [c], d) == LinesOn(p, d)
    {
      LinesOnSnoc(p, c, d);
    }
  }

  lemma KeptStepTracks(f: Fold, p: seq<Candidate>, c: Candidate)
    requires Tracks(f, p)
    requires Kept(c)
    ensures Tracks(Step(f, c), p + [c])
  {
    var cs := p + [c];
    var g := Step(f, c);
    var day := g.currentDay;
    var line := LessonLine(c);
    LinesOnSnoc(p, c, 0);
    assert day == CountMarkers(cs);
    assert g.week == AddLesson(f.week, day, line);
    forall d: nat
      ensures LinesOn(cs, d) == LinesOn(p, d) + (if day == d then [line] else [])
    {
      LinesOnSnoc(p, c, d);
    }
    if day < |f.week| && f.week[day].Some? {
      assert f.week[day] == Bucket(p, day);
      assert g.week[day] == Bucket(cs, day);
    } else {
      assert LinesOn(p, day) == [];
      assert LinesOn(cs, day) == [line];
      assert g.week[day] == Bucket(cs, day);
    }
    forall d | 0 <= d < |g.week|
      ensures g.week[d] == Bucket(cs, d)
    {
      if d != day {
        assert LinesOn(cs, d) == LinesOn(p, d);
        if d < |f.week| {
          assert g.week[d] == f.week[d] == Bucket(p, d);
        } else {
          assert LinesOn(p, d) == [];
        }
      }
    }
  }

  lemma {:induction false} RunTracks(cs: seq<Candidate>)
    ensures Tracks(Run(cs), cs)
    decreases |cs|
  {
    if cs != [] {
      var p := cs[..|cs| - 1];
      RunTracks(p);
      StepTracks(Run(p), p, cs[|cs| - 1]);
      assert p + [cs[|cs| - 1]] == cs;
    }
  }

  lemma {:induction false} CompactMatchesDays(cs: seq<Candidate>, week: seq<Option<DayEntry>>, lo: nat)
    requires lo <= |week|
    requires forall d :: 0 <= d < |week| ==> week[d] == Bucket(cs, d)
    ensures Compact(week[lo..]) == DaysFrom(cs, lo, |week|)
    decreases |week| - lo
  {
    if lo < |week| {
      CompactMatchesDays(cs, week, lo + 1);
      assert week[lo..][1..] == week[lo + 1..];
      assert week[lo..][0] == Bucket(cs, lo);
    }
  }

  lemma {:induction false} DaysFromEmptyTail(cs: seq<Candidate>, lo: nat, k: nat, hi: nat)
    requires lo <= k <= hi
    requires forall d: nat :: k <= d < hi ==> LinesOn(cs, d) == []
    ensures DaysFrom(cs, lo, hi) == DaysFrom(cs, lo, k)
    decreases hi - lo
  {
    if lo < hi {
      DaysFromEmptyTail(cs, lo + 1, if lo < k then k else lo + 1, hi);
    }
  }

  /**
   * The extraction result is exactly the reference: in increasing day-counter
   * order, one entry per counter value that received a kept candidate, labelled
   * for that counter and holding those candidates' lines in candidate order.
   */
  lemma ExtractIsReference(cs: seq<Candidate>)
    ensures Extract(cs) == Reference(cs)
  {
    var f := Run(cs);
    calc {
      Extract(cs);
      == { assert f.week[0..] == f.week; }
      Compact(f.week[0..]);
      == { RunTracks(cs); CompactMatchesDays(cs, f.week, 0); }
      DaysFrom(cs, 0, |f.week|);
      == { RunTracks(cs); DaysFromEmptyTail(cs, 0, |f.week|, CountMarkers(cs) + 1); }
      Reference(cs);
    }
  }

  // ---------------------------------------------------------------------------
  // Counting lessons

  /** The number of lesson lines in a week. */
  function TotalLessons(w: Week): nat {
    if w == [] then 0 else |w[0].lessons| + TotalLessons(w[1..])
  }

  /** The number of reference lines on days `lo .. hi-1`. */
  function SumLines(cs: seq<Candidate>, lo: nat, hi: nat): nat
    decreases hi - lo
  {
    if lo >= hi then 0 else |LinesOn(cs, lo)| + SumLines(cs, lo + 1, hi)
  }

  lemma {:induction false} TotalLessonsAppend(a: Week, b: Week)
    ensures TotalLessons(a + b) == TotalLessons(a) + TotalLessons(b)
    decreases |a|
  {
    if a != [] {
      TotalLessonsAppend(a[1..], b);
      assert (a + b)[1..] == a[1..] + b;
    } else {
      assert a + b == b;
    }
  }

  lemma {:induction false} TotalDaysFrom(cs: seq<Candidate>, lo: nat, hi: nat)
    ensures TotalLessons(DaysFrom(cs, lo, hi)) == SumLines(cs, lo, hi)
    decreases hi - lo
  {
    if lo < hi {
      TotalDaysFrom(cs, lo + 1, hi);
      var head := if LinesOn(cs, lo) == [] then [] else [DayEntry(DayLabel(lo), LinesOn(cs, lo))];
      TotalLessonsAppend(head, DaysFrom(cs, lo + 1, hi));
      assert TotalLessons(head) == |LinesOn(cs, lo)| by {
        if head != [] {
          assert head[1..] == [];
        }
      }
    }
  }

  lemma {:induction false} SumLinesSnoc(p: seq<Candidate>, c: Candidate, lo: nat, hi: nat)
    ensures SumLines(p + [c], lo, hi)
         == SumLines(p, lo, hi) + (if Kept(c) && lo <= CountMarkers(p + [c]) < hi then 1 else 0)
    decreases hi - lo
  {
    if lo < hi {
      SumLinesSnoc(p, c, lo + 1, hi);
      LinesOnSnoc(p, c, lo);
    }
  }

  lemma {:induction false} SumLinesEmptyTail(cs: seq<Candidate>, lo: nat, hi: nat)
    requires lo <= hi
    requires LinesOn(cs, hi) == []
    ensures SumLines(cs, lo, hi + 1) == SumLines(cs, lo, hi)
    decreases hi - lo
  {
    if lo < hi {
      SumLinesEmptyTail(cs, lo + 1, hi);
    }
  }

  lemma {:induction false} SumLinesCountsKept(cs: seq<Candidate>)
    ensures SumLines(cs, 0, CountMarkers(cs) + 1) == CountKept(cs)
    decreases |cs|
  {
    if cs != [] {
      var p := cs[..|cs| - 1];
      var c := cs[|cs| - 1];
      assert p + [c] == cs;
      SumLinesCountsKept(p);
      LinesOnSnoc(p, c, 0);
      SumLinesSnoc(p, c, 0, CountMarkers(cs) + 1);
      if MarksNewDay(c) {
        LinesBeyondCounter(p, CountMarkers(p) + 1);
        SumLinesEmptyTail(p, 0, CountMarkers(p) + 1);
      }
    }
  }

  /** Every candidate with a subject yields exactly one line, and nothing else does. */
  lemma LessonCount(cs: seq<Candidate>)
    ensures TotalLessons(Extract(cs)) == CountKept(cs)
  {
    ExtractIsReference(cs);
    TotalDaysFrom(cs, 0, CountMarkers(cs) + 1);
    SumLinesCountsKept(cs);
  }

  // ---------------------------------------------------------------------------
  // Candidates without a subject, and the day counter

  /**
   * A trailing candidate without a subject changes nothing in the result,
   * yet still advances the day counter when its header carries the marker.
   */
  lemma DroppedCandidateAddsNothing(cs: seq<Candidate>, c: Candidate)
    requires !Kept(c)
    ensures Run(cs + [c]).week == Run(cs).week
    ensures Extract(cs + [c]) == Extract(cs)
    ensures Run(cs + [c]).currentDay == Run(cs).currentDay + (if MarksNewDay(c) then 1 else 0)
  {
    assert (cs + [c])[..|cs|] == cs;
  }

  /** The fold over a sequence extended by one candidate is one more step. */
  lemma RunSnoc(xs: seq<Candidate>, e: Candidate)
    ensures Run(xs + [e]) == Step(Run(xs), e)
  {
    assert (xs + [e])[..|xs|] == xs;
  }

  /** Equal folds stay equal when both sequences are extended by the same candidate. */
  lemma RunSnocCongruent(xs: seq<Candidate>, ys: seq<Candidate>, e: Candidate)
    requires Run(xs) == Run(ys)
    ensures Run(xs + [e]) == Run(ys + [e])
  {
    RunSnoc(xs, e);
    RunSnoc(ys, e);
  }

  /** A dropped candidate at the end leaves the fold as it was. */
  lemma RunSkipsDroppedLast(cs: seq<Candidate>, c: Candidate)
    requires !Kept(c) && !MarksNewDay(c)
    ensures Run(cs + [c]) == Run(cs)
  {
    RunSnoc(cs, c);
  }

  /** Splitting off the last element of a non-empty suffix. */
  lemma AppendSnoc<T>(xs: seq<T>, ds: seq<T>)
    requires ds != []
    ensures xs + ds == (xs + ds[..|ds| - 1]) + [ds[|ds| - 1]]
  {
  }

  /** Equal folds stay equal when both sequences are extended by the same candidates. */
  lemma {:induction false} RunAppendCongruent(xs: seq<Candidate>, ys: seq<Candidate>, ds: seq<Candidate>)
    requires Run(xs) == Run(ys)
    ensures Run(xs + ds) == Run(ys + ds)
    decreases |ds|
  {
    if ds == [] {
      assert xs + ds == xs && ys + ds == ys;
    } else {
      var ds' := ds[..|ds| - 1];
      var e := ds[|ds| - 1];
      AppendSnoc(xs, ds);
      AppendSnoc(ys, ds);
      RunAppendCongruent(xs, ys, ds');
      RunSnocCongruent(xs + ds', ys + ds', e);
    }
  }

  lemma RunSkipsDropped(cs: seq<Candidate>, c: Candidate, ds: seq<Candidate>)
    requires !Kept(c) && !MarksNewDay(c)
    ensures Run(cs + [c] + ds) == Run(cs + ds)
  {
    RunSkipsDroppedLast(cs, c);
    RunAppendCongruent(cs + [c], cs, ds);
  }

  /** A subject-less candidate outside any day header can be removed anywhere without effect. */
  lemma DroppedCandidateInvisible(cs: seq<Candidate>, c: Candidate, ds: seq<Candidate>)
    requires !Kept(c) && !MarksNewDay(c)
    ensures Extract(cs + [c] + ds) == Extract(cs + ds)
  {
    RunSkipsDropped(cs, c, ds);
  }

  lemma {:induction false} CountMarkersMonotone(cs: seq<Candidate>, i: nat, j: nat)
    requires i <= j <= |cs|
    ensures CountMarkers(cs[..i]) <= CountMarkers(cs[..j])
    decreases j - i
  {
    if i < j {
      CountMarkersMonotone(cs, i, j - 1);
      assert cs[..j][..j - 1] == cs[..j - 1];
    }
  }

  /** The day counter never decreases as the candidates are processed. */
  lemma DayCounterMonotone(cs: seq<Candidate>, i: nat, j: nat)
    requires i <= j <= |cs|
    ensures Run(cs[..i]).currentDay <= Run(cs[..j]).currentDay
  {
    RunTracks(cs[..i]);
    RunTracks(cs[..j]);
    CountMarkersMonotone(cs, i, j);
  }

  // ---------------------------------------------------------------------------
  // Order of the days and their labels

  /** The day numbers `lo .. hi-1` that received at least one line, in increasing order. */
  function ActiveDaysFrom(cs: seq<Candidate>, lo: nat, hi: nat): seq<nat>
    decreases hi - lo
  {
    if lo >= hi then []
    else (if LinesOn(cs, lo) == [] then [] else [lo]) + ActiveDaysFrom(cs, lo + 1, hi)
  }

  ghost predicate StrictlyIncreasing(xs: seq<nat>) {
    forall k, l :: 0 <= k < l < |xs| ==> xs[k] < xs[l]
  }

  lemma {:induction false} DaysFromEntries(cs: seq<Candidate>, lo: nat, hi: nat)
    ensures |DaysFrom(cs, lo, hi)| == |ActiveDaysFrom(cs, lo, hi)|
    ensures forall k :: 0 <= k < |DaysFrom(cs, lo, hi)| ==>
      DaysFrom(cs, lo, hi)[k]
        == DayEntry(DayLabel(ActiveDaysFrom(cs, lo, hi)[k]), LinesOn(cs, ActiveDaysFrom(cs, lo, hi)[k]))
    decreases hi - lo
  {
    if lo < hi {
      DaysFromEntries(cs, lo + 1, hi);
    }
  }

  lemma {:induction false} ActiveDaysFromBounds(cs: seq<Candidate>, lo: nat, hi: nat)
    ensures forall k :: 0 <= k < |ActiveDaysFrom(cs, lo, hi)| ==> lo <= ActiveDaysFrom(cs, lo, hi)[k] < hi
    decreases hi - lo
  {
    if lo < hi {
      ActiveDaysFromBounds(cs, lo + 1, hi);
    }
  }

  lemma {:induction false} ActiveDaysFromIncreasing(cs: seq<Candidate>, lo: nat, hi: nat)
    ensures StrictlyIncreasing(ActiveDaysFrom(cs, lo, hi))
    decreases hi - lo
  {
    if lo < hi {
      var rest := ActiveDaysFrom(cs, lo + 1, hi);
      ActiveDaysFromIncreasing(cs, lo + 1, hi);
      ActiveDaysFromBounds(cs, lo + 1, hi);
      if LinesOn(cs, lo) != [] {
        var xs := [lo] + rest;
        assert ActiveDaysFrom(cs, lo, hi) == xs;
        forall k, l | 0 <= k < l < |xs|
          ensures xs[k] < xs[l]
        {
          assert xs[l] == rest[l - 1];
          if k > 0 {
            assert xs[k] == rest[k - 1];
          }
        }
      }
    }
  }

  /** A day in range that received a line is listed. */
  lemma {:induction false} ActiveDaysFromHas(cs: seq<Candidate>, lo: nat, hi: nat, d: nat)
    requires lo <= d < hi && LinesOn(cs, d) != []
    ensures d in ActiveDaysFrom(cs, lo, hi)
    decreases hi - lo
  {
    var head := if LinesOn(cs, lo) == [] then [] else [lo];
    var rest := ActiveDaysFrom(cs, lo + 1, hi);
    assert ActiveDaysFrom(cs, lo, hi) == head + rest;
    if d == lo {
      assert d in head;
    } else {
      ActiveDaysFromHas(cs, lo + 1, hi, d);
      assert d in rest;
    }
  }

  lemma ActiveDaysFromComplete(cs: seq<Candidate>, lo: nat, hi: nat)
    ensures forall d: nat :: lo <= d < hi && LinesOn(cs, d) != [] ==> d in ActiveDaysFrom(cs, lo, hi)
  {
    forall d: nat | lo <= d < hi && LinesOn(cs, d) != []
      ensures d in ActiveDaysFrom(cs, lo, hi)
    {
      ActiveDaysFromHas(cs, lo, hi, d);
    }
  }

  /** The day numbers that appear in the extraction result. */
  function ActiveDays(cs: seq<Candidate>): seq<nat> {
    ActiveDaysFrom(cs, 0, CountMarkers(cs) + 1)
  }

  /**
   * The result lists the days in increasing counter order, each labelled for its
   * counter and holding the lines of the candidates that fell on it; every
   * counter value that received a line is listed.
   */
  lemma ExtractDayOrder(cs: seq<Candidate>)
    ensures |Extract(cs)| == |ActiveDays(cs)|
    ensures StrictlyIncreasing(ActiveDays(cs))
    ensures forall k :: 0 <= k < |Extract(cs)| ==>
      Extract(cs)[k] == DayEntry(DayLabel(ActiveDays(cs)[k]), LinesOn(cs, ActiveDays(cs)[k]))
    ensures forall d: nat :: LinesOn(cs, d) != [] ==> d in ActiveDays(cs)
  {
    ExtractIsReference(cs);
    DaysFromEntries(cs, 0, CountMarkers(cs) + 1);
    ActiveDaysFromIncreasing(cs, 0, CountMarkers(cs) + 1);
    ActiveDaysFromComplete(cs, 0, CountMarkers(cs) + 1);
    forall d: nat | LinesOn(cs, d) != []
      ensures d in ActiveDays(cs)
    {
      if d > CountMarkers(cs) {
        LinesBeyondCounter(cs, d);
      }
    }
  }

  /** Distinct counters give distinct labels. */
  lemma DayLabelInjective(i: nat, j: nat)
    ensures DayLabel(i) == DayLabel(j) <==> i == j
  {
    if i != j {
      if i < 7 && j < 7 {
        assert DaysRu[i] != DaysRu[j];
      } else if i < 7 || j < 7 {
        assert DayLabel(i)[0] != DayLabel(j)[0];
      } else {
        var prefix := "День ";
        assert DayLabel(i)[|prefix|..] == NatToString(i + 1);
        assert DayLabel(j)[|prefix|..] == NatToString(j + 1);
        NatToStringInjective(i + 1, j + 1);
      }
    }
  }

  /** No two days of an extraction result share a label. */
  lemma ExtractLabelsDistinct(cs: seq<Candidate>)
    ensures forall k, l :: 0 <= k < l < |Extract(cs)| ==> Extract(cs)[k].day != Extract(cs)[l].day
  {
    ExtractDayOrder(cs);
    var days := ActiveDays(cs);
    forall k, l | 0 <= k < l < |Extract(cs)|
      ensures Extract(cs)[k].day != Extract(cs)[l].day
    {
      DayLabelInjective(days[k], days[l]);
    }
  }

  // ---------------------------------------------------------------------------
  // The lesson line

  /** The line lists time, subject, teacher and room in that order, skipping empty ones. */
  lemma LineFieldsOrder(c: Candidate)
    ensures LineFields(c)
         == (if c.time == "" then [] else [c.time])
          + ((if c.subject == "" then [] else [c.subject])
          + ((if c.teacher == "" then [] else [c.teacher])
          + (if c.room == "" then [] else [c.room])))
  {
    var p3 := [c.room] + [];
    var p2 := [c.teacher] + p3;
    var p1 := [c.subject] + p2;
    assert [c.time, c.subject, c.teacher, c.room] == [c.time] + p1;
    NonEmptyCons(c.time, p1);
    NonEmptyCons(c.subject, p2);
    NonEmptyCons(c.teacher, p3);
    NonEmptyCons(c.room, []);
  }

  /** When no field contains a space, cutting the line at its spaces gives the fields back. */
  lemma LessonLineSplits(c: Candidate)
    requires Kept(c)
    requires ' ' !in c.time && ' ' !in c.subject && ' ' !in c.teacher && ' ' !in c.room
    ensures SplitSpace(LessonLine(c)) == LineFields(c)
  {
    var fs := LineFields(c);
    LineFieldsOrder(c);
    assert c.subject in fs;
    forall k | 0 <= k < |fs|
      ensures fs[k] != "" && ' ' !in fs[k]
    {
      assert fs[k] in [c.time, c.subject, c.teacher, c.room];
    }
    assert |fs| > 0;
    SplitJoinRoundTrip(fs);
    assert SplitSpace(JoinSpace(fs)) == fs;
    assert LessonLine(c) == JoinSpace(fs);
  }

  lemma LessonLineExample()
    ensures LessonLine(Candidate(None, "9:00", "Math", "", "204")) == "9:00 Math 204"
  {
    var c := Candidate(None, "9:00", "Math", "", "204");
    LineFieldsOrder(c);
    assert LineFields(c) == ["9:00", "Math", "204"];
    assert LineFields(c)[1..] == ["Math", "204"];
    assert LineFields(c)[1..][1..] == ["204"];
  }

  /**
   * A subject-less candidate under a "неделя" header is dropped but still moves
   * the following lesson to the second day, which is labelled Tuesday.
   */
  lemma MarkerWithoutSubjectShiftsDay()
    ensures Extract([Candidate(Some("неделя"), "", "", "", ""), Candidate(None, "9:00", "Math", "", "204")])
         == [DayEntry("Вторник", ["9:00 Math 204"])]
  {
    var c0 := Candidate(Some("неделя"), "", "", "", "");
    var c1 := Candidate(None, "9:00", "Math", "", "204");
    var cs := [c0, c1];
    assert DayMarker <= "неделя";
    assert MarksNewDay(c0);
    LessonLineExample();
    assert cs[..1] == [c0];
    assert [c0][..0] == [];
    assert Run([c0]) == Fold([], 1);
    assert Run(cs) == Step(Fold([], 1), c1);
    assert Run(cs).week == [None, Some(DayEntry("Вторник", ["9:00 Math 204"]))];
    var w := Run(cs).week;
    assert w[1..][1..] == [];
  }

  /** The extraction finds no day exactly when no candidate carries a subject. */
  lemma ExtractEmptyIff(cs: seq<Candidate>)
    ensures Extract(cs) == [] <==> CountKept(cs) == 0
  {
    LessonCount(cs);
    var w := Extract(cs);
    if w != [] {
      assert TotalLessons(w) >= |w[0].lessons| > 0;
    }
  }
}

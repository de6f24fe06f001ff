/**
 * Weekly insights (`computeInsights`, src/utils/scheduler.js lines 203-252):
 * for this week and the four before it, the time spent in focus blocks, in
 * meetings, in one-on-one meetings and in recurring meetings. Durations are
 * kept in milliseconds; the conversion to hours and the rounding to one
 * decimal are not modelled.
 */
module Insights {
  import opened Intervals
  import opened Text
  import opened Calendar
  import opened Events

  /** One week's bucket (lines 209-215). */
  datatype WeekInsight = WeekInsight(focusMs: int, goal: int, meetingsMs: int, oneOnOneMs: int, recurrentMs: int)

  /** The oldest week offset that has a bucket. */
  const OldestOffset: int := -4

  /** Line 204: a goal of 0 or none falls back to 15 hours. */
  function InsightGoal(focusTimeGoal: int): int
  {
    if focusTimeGoal == 0 then 15 else focusTimeGoal
  }

  /** How many weeks before (negative) or after the run's week the event starts in (line 224). */
  function WeekOffset(c: Clock, e: RawEvent): int
    requires e.Timed?
  {
    c.weekOf(e.start) - c.weekOf(c.now)
  }

  /** Line 232 */
  predicate IsFocusTitle(summary: string)
  {
    Contains(summary, "Focus Time")
  }

  /** Line 233 */
  predicate IsLunchOrBreak(summary: string)
  {
    Contains(summary, "Lunch") || Contains(summary, "Coffee")
  }

  /** A meeting with exactly two attendees, counting oneself (line 243). */
  predicate IsOneOnOne(e: RawEvent)
  {
    e.Timed? && e.attendees == 2
  }

  /** A meeting of a recurring series (line 248). */
  predicate IsRecurring(e: RawEvent)
  {
    e.Timed? && e.recurring
  }

  /** Lines 230-251: what one timed event adds to its week's bucket. */
  function Record(w: WeekInsight, e: RawEvent): WeekInsight
    requires e.Timed?
  {
    var d := e.end - e.start;
    if IsFocusTitle(e.summary) then w.(focusMs := w.focusMs + d)
    else if IsLunchOrBreak(e.summary) then w
    else
      w.(meetingsMs := w.meetingsMs + d,
         oneOnOneMs := w.oneOnOneMs + (if IsOneOnOne(e) then d else 0),
         recurrentMs := w.recurrentMs + (if e.recurring then d else 0))
  }

  /** The bucket of week `offset` after the events of `events`, in order, are recorded. */
  function Bucket(events: seq<RawEvent>, c: Clock, offset: int, goal: int): WeekInsight
  {
    if events == [] then WeekInsight(0, goal, 0, 0, 0)
    else
      var e := events[|events| - 1];
      var w := Bucket(events[..|events| - 1], c, offset, goal);
      if e.Timed? && WeekOffset(c, e) == offset then Record(w, e) else w
  }

  /** The total length of the timed events of week `offset` whose summary satisfies `kind`. */
  function WeekTotal(events: seq<RawEvent>, c: Clock, offset: int, kind: string -> bool): int
  {
    if events == [] then 0
    else
      var e := events[|events| - 1];
      WeekTotal(events[..|events| - 1], c, offset, kind)
        + (if e.Timed? && WeekOffset(c, e) == offset && kind(e.summary) then e.end - e.start else 0)
  }

  /**
   * Every event of the week is counted exactly once: as focus time, as a
   * lunch or coffee break (which the bucket leaves out), or as a meeting.
   */
  lemma {:induction false} BucketPartition(events: seq<RawEvent>, c: Clock, offset: int, goal: int)
    ensures var w := Bucket(events, c, offset, goal);
      && w.focusMs == WeekTotal(events, c, offset, IsFocusTitle)
      && w.focusMs + w.meetingsMs + WeekTotal(events, c, offset, s => !IsFocusTitle(s) && IsLunchOrBreak(s))
         == WeekTotal(events, c, offset, s => true)
      && w.goal == goal
  {
    if events != [] {
      BucketPartition(events[..|events| - 1], c, offset, goal);
    }
  }

  /** Lines 234-235: a timed event that is neither focus time nor a lunch or coffee break counts as a meeting. */
  predicate IsMeeting(e: RawEvent)
  {
    e.Timed? && !IsFocusTitle(e.summary) && !IsLunchOrBreak(e.summary)
  }

  /** The total length of the meetings of week `offset` that satisfy `kind`. */
  function MeetingTotal(events: seq<RawEvent>, c: Clock, offset: int, kind: RawEvent -> bool): int
  {
    if events == [] then 0
    else
      var e := events[|events| - 1];
      MeetingTotal(events[..|events| - 1], c, offset, kind)
        + (if IsMeeting(e) && WeekOffset(c, e) == offset && kind(e) then e.end - e.start else 0)
  }

  /**
   * A bucket's meeting time is the time of all the week's meetings, its
   * one-on-one time that of the meetings with exactly two attendees, and its
   * recurring time that of the meetings that belong to a recurring series.
   */
  lemma {:induction false} BucketMeetings(events: seq<RawEvent>, c: Clock, offset: int, goal: int)
    ensures var w := Bucket(events, c, offset, goal);
      && w.meetingsMs == MeetingTotal(events, c, offset, (e: RawEvent) => true)
      && w.oneOnOneMs == MeetingTotal(events, c, offset, IsOneOnOne)
      && w.recurrentMs == MeetingTotal(events, c, offset, IsRecurring)
  {
    if events != [] {
      BucketMeetings(events[..|events| - 1], c, offset, goal);
    }
  }

  /**
   * In every bucket one-on-one time and recurring time are parts of meeting
   * time, and no total is negative, when no event ends before it starts.
   */
  lemma {:induction false} BucketBounds(events: seq<RawEvent>, c: Clock, offset: int, goal: int)
    requires WellFormedEvents(events)
    ensures var w := Bucket(events, c, offset, goal);
      && 0 <= w.focusMs
      && 0 <= w.oneOnOneMs <= w.meetingsMs
      && 0 <= w.recurrentMs <= w.meetingsMs
  {
    if events != [] {
      var init := events[..|events| - 1];
      assert forall i :: 0 <= i < |init| ==> init[i] == events[i];
      BucketBounds(init, c, offset, goal);
      assert events[|events| - 1].Timed? ==> events[|events| - 1].start <= events[|events| - 1].end;
    }
  }

  /** All-day events and events of other weeks leave a bucket as it is. */
  lemma BucketIgnores(events: seq<RawEvent>, e: RawEvent, c: Clock, offset: int, goal: int)
    requires !e.Timed? || WeekOffset(c, e) != offset
    ensures Bucket(events + [e], c, offset, goal) == Bucket(events, c, offset, goal)
  {
    assert (events + [e])[..|events + [e]| - 1] == events;
  }

  /** Lines 203-252: the buckets of this week and the four weeks before it. */
  method ComputeInsights(events: seq<RawEvent>, focusTimeGoal: int, c: Clock) returns (insightsByWeek: map<int, WeekInsight>)
    ensures forall k :: k in insightsByWeek <==> OldestOffset <= k <= 0
    ensures forall k :: k in insightsByWeek ==> insightsByWeek[k] == Bucket(events, c, k, InsightGoal(focusTimeGoal))
  {
    var focusGoal := InsightGoal(focusTimeGoal);
    insightsByWeek := map[];
    var i := 0;
    while i >= OldestOffset
      invariant OldestOffset - 1 <= i <= 0
      invariant forall k :: k in insightsByWeek <==> i < k <= 0
      invariant forall k :: k in insightsByWeek ==> insightsByWeek[k] == WeekInsight(0, focusGoal, 0, 0, 0)
      decreases i - OldestOffset
    {
      insightsByWeek := insightsByWeek[i := WeekInsight(0, focusGoal, 0, 0, 0)];
      i := i - 1;
    }
    var n := 0;
    while n < |events|
      invariant 0 <= n <= |events|
      invariant forall k :: k in insightsByWeek <==> OldestOffset <= k <= 0
      invariant forall k :: k in insightsByWeek ==> insightsByWeek[k] == Bucket(events[..n], c, k, focusGoal)
    {
      var ev := events[n];
      assert events[..n + 1] == events[..n] + [ev];
      assert events[..n + 1][..n] == events[..n];
      if ev.Timed? {
        var weekOffset := WeekOffset(c, ev);
        if OldestOffset <= weekOffset <= 0 && weekOffset in insightsByWeek {
          var durationMs := ev.end - ev.start;
          var w := insightsByWeek[weekOffset];
          if IsFocusTitle(ev.summary) {
            w := w.(focusMs := w.focusMs + durationMs);
          } else if !IsLunchOrBreak(ev.summary) {
            w := w.(meetingsMs := w.meetingsMs + durationMs);
            if ev.attendees == 2 {
              w := w.(oneOnOneMs := w.oneOnOneMs + durationMs);
            }
            if ev.recurring {
              w := w.(recurrentMs := w.recurrentMs + durationMs);
            }
          }
          insightsByWeek := insightsByWeek[weekOffset := w];
        }
      }
      n := n + 1;
    }
    assert events[..|events|] == events;
  }

  /** Recording one more event. */
  lemma BucketSnoc(events: seq<RawEvent>, e: RawEvent, c: Clock, offset: int, goal: int)
    ensures Bucket(events + [e], c, offset, goal)
         == if e.Timed? && WeekOffset(c, e) == offset then Record(Bucket(events, c, offset, goal), e)
            else Bucket(events, c, offset, goal)
  {
    assert (events + [e])[..|events|] == events;
  }

  /** The week number of an instant in the example below: the week before, this week, or the week after. */
  function ExampleWeekOf(t: int): int
  {
    if t < 0 then 9 else if t < 7 * 24 * Hour then 10 else 11
  }

  /** The events of the example below, with their summaries as parameters. */
  function ExampleEvents(focus: string, meeting: string, lunch: string, review: string): seq<RawEvent>
  {
    [ Timed(focus, 10 * Hour, 12 * Hour, 0, false),
      Timed(meeting, 13 * Hour, 14 * Hour, 2, true),
      Timed(lunch, 12 * Hour, 13 * Hour, 0, false),
      AllDay("Holiday"),
      Timed("Planning", 200 * Hour, 201 * Hour, 3, false),
      Timed(review, -20 * Hour, -20 * Hour + 90 * Minute, 5, false) ]
  }

  /** The focus summary of the example below is focus time. */
  lemma ExampleFocusTitle()
    ensures IsFocusTitle("⚡ Focus Time [Cai]")
  {
    assert "⚡ Focus Time [Cai]" == "⚡ " + "Focus Time" + " [Cai]";
    ContainsMiddle("⚡ ", "Focus Time", " [Cai]");
  }

  /** The lunch of the example below is a break. */
  lemma ExampleLunchTitle()
    ensures !IsFocusTitle("Lunch") && IsLunchOrBreak("Lunch")
  {
    assert "Lunch" == "" + "Lunch" + "";
    ContainsMiddle("", "Lunch", "");
    LacksFirstChar("Lunch", "Focus Time");
  }

  /** `s` lacks the first letters of "Focus Time", "Lunch" and "Coffee", so it names a meeting. */
  lemma MeetingTitle(s: string)
    requires 'F' !in s && 'L' !in s && 'C' !in s
    ensures !IsFocusTitle(s) && !IsLunchOrBreak(s)
  {
    LacksFirstChar(s, "Focus Time");
    LacksFirstChar(s, "Lunch");
    LacksFirstChar(s, "Coffee");
  }

  /**
   * An example: this week holds a two-hour focus block, a one-hour recurring
   * meeting with two attendees and a lunch; the week before holds a 90-minute
   * meeting with five attendees, and the week after a meeting, which no
   * bucket counts. `ExampleFocusTitle`, `ExampleLunchTitle` and
   * `MeetingTitle` show that summaries such as "⚡ Focus Time [Cai]",
   * "Lunch", "Team sync" and "Review" meet its requirements.
   */
  lemma ExampleBuckets(focus: string, meeting: string, lunch: string, review: string)
    requires IsFocusTitle(focus)
    requires !IsFocusTitle(meeting) && !IsLunchOrBreak(meeting)
    requires !IsFocusTitle(lunch) && IsLunchOrBreak(lunch)
    requires !IsFocusTitle(review) && !IsLunchOrBreak(review)
    ensures var c := Clock(t => LocalDate(2024, 1, 1), ExampleWeekOf, 3 * Hour);
      var events := ExampleEvents(focus, meeting, lunch, review);
      && Bucket(events, c, 0, 15) == WeekInsight(2 * Hour, 15, Hour, Hour, Hour)
      && Bucket(events, c, -1, 15) == WeekInsight(0, 15, 90 * Minute, 0, 0)
  {
    var c := Clock(t => LocalDate(2024, 1, 1), ExampleWeekOf, 3 * Hour);
    var ev := ExampleEvents(focus, meeting, lunch, review);
    assert WeekOffset(c, ev[0]) == 0 && WeekOffset(c, ev[1]) == 0 && WeekOffset(c, ev[2]) == 0;
    assert WeekOffset(c, ev[4]) == 1 && WeekOffset(c, ev[5]) == -1;
    var s0: seq<RawEvent> := [];
    var s1 := s0 + [ev[0]];
    var s2 := s1 + [ev[1]];
    var s3 := s2 + [ev[2]];
    var s4 := s3 + [ev[3]];
    var s5 := s4 + [ev[4]];
    assert ev == s5 + [ev[5]];
    BucketSnoc(s0, ev[0], c, 0, 15);
    BucketSnoc(s1, ev[1], c, 0, 15);
    BucketSnoc(s2, ev[2], c, 0, 15);
    BucketSnoc(s3, ev[3], c, 0, 15);
    BucketSnoc(s4, ev[4], c, 0, 15);
    BucketSnoc(s5, ev[5], c, 0, 15);
    BucketSnoc(s0, ev[0], c, -1, 15);
    BucketSnoc(s1, ev[1], c, -1, 15);
    BucketSnoc(s2, ev[2], c, -1, 15);
    BucketSnoc(s3, ev[3], c, -1, 15);
    BucketSnoc(s4, ev[4], c, -1, 15);
    BucketSnoc(s5, ev[5], c, -1, 15);
  }
}

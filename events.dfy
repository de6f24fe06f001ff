/**
 * Calendar events as the scheduler reads them (src/utils/scheduler.js,
 * lines 19-50 and 114-142): the fetched events, their per-day form, the
 * summaries of the events the scheduler itself creates, the guards that keep
 * a day from getting a second lunch or coffee break, and the seeding of the
 * weekly focus tallies.
 */
module Events {
  import opened Intervals
  import opened Text
  import opened Calendar

  /**
   * A fetched event: a timed one, with its start and end instants, the number
   * of attendees (0 when absent) and whether it belongs to a recurring series
   * (`recurringEventId` or `recurrence` set), or an all-day one, which has no
   * `start.dateTime`. A missing summary is the empty string.
   */
  datatype RawEvent =
    | Timed(summary: string, start: int, end: int, attendees: nat, recurring: bool)
    | AllDay(summary: string)

  /** The calendar returns timed events that do not end before they start. */
  predicate WellFormedEvents(raw: seq<RawEvent>)
  {
    forall i :: 0 <= i < |raw| && raw[i].Timed? ==> raw[i].start <= raw[i].end
  }

  /** An event of one day, as pushed on lines 28-33. */
  datatype DayEvent = DayEvent(span: Interval, summary: string, isCai: bool)

  /** The tag that marks the events the scheduler creates. */
  const CaiTag: string := "[Cai]"

  const LunchSummary: string := "\U{1F37D}\U{FE0F} Lunch [Cai]"
  const CoffeeSummary: string := "☕ Coffee Break [Cai]"
  const FocusSummary: string := "⚡ Focus Time [Cai]"
  const LunchColor: string := "5"
  const CoffeeColor: string := "4"
  const FocusColor: string := "1"

  /** Lines 29-32: a missing summary reads "Busy"; the tag is looked for in the summary as fetched. */
  function ToDayEvent(e: RawEvent): DayEvent
    requires e.Timed?
  {
    DayEvent(Interval(e.start, e.end), if e.summary == "" then "Busy" else e.summary, Contains(e.summary, CaiTag))
  }

  /** The grouping key of a timed event: the local date of its start. */
  function KeyOf(e: RawEvent, c: Clock): string
    requires e.Timed?
  {
    LocalDateString(c.dateOf(e.start))
  }

  /** `e` is a timed event whose key is `key`. */
  predicate OnDate(e: RawEvent, key: string, c: Clock)
  {
    e.Timed? && KeyOf(e, c) == key
  }

  /** The events of `raw` whose key is `key`, in fetch order. */
  function EventsOn(raw: seq<RawEvent>, key: string, c: Clock): seq<DayEvent>
  {
    if raw == [] then []
    else
      var e := raw[|raw| - 1];
      EventsOn(raw[..|raw| - 1], key, c) + (if OnDate(e, key, c) then [ToDayEvent(e)] else [])
  }

  /** The keys of the timed events of `raw`. */
  function DateKeys(raw: seq<RawEvent>, c: Clock): set<string>
  {
    set i | 0 <= i < |raw| && raw[i].Timed? :: KeyOf(raw[i], c)
  }

  /** A key has events exactly when some timed event has that key. */
  lemma {:induction false} EventsOnNonEmpty(raw: seq<RawEvent>, key: string, c: Clock)
    ensures EventsOn(raw, key, c) != [] <==> key in DateKeys(raw, c)
  {
    if raw != [] {
      var init := raw[..|raw| - 1];
      EventsOnNonEmpty(init, key, c);
      assert forall i :: 0 <= i < |init| ==> init[i] == raw[i];
      if key in DateKeys(raw, c) {
        var i :| 0 <= i < |raw| && raw[i].Timed? && KeyOf(raw[i], c) == key;
        if i < |init| {
          assert key in DateKeys(init, c);
        }
      }
      if key in DateKeys(init, c) {
        var i :| 0 <= i < |init| && init[i].Timed? && KeyOf(init[i], c) == key;
        assert raw[i] == init[i];
      }
    }
  }

  /** Every event of a group comes from a timed event of that date, and every timed event is in its date's group. */
  lemma {:induction false} EventsOnMembers(raw: seq<RawEvent>, key: string, c: Clock)
    ensures forall d :: d in EventsOn(raw, key, c) ==>
      exists i :: 0 <= i < |raw| && raw[i].Timed? && KeyOf(raw[i], c) == key && d == ToDayEvent(raw[i])
    ensures forall i :: 0 <= i < |raw| && raw[i].Timed? && KeyOf(raw[i], c) == key ==> ToDayEvent(raw[i]) in EventsOn(raw, key, c)
  {
    if raw != [] {
      var init := raw[..|raw| - 1];
      EventsOnMembers(init, key, c);
      assert forall i :: 0 <= i < |init| ==> init[i] == raw[i];
      forall i | 0 <= i < |raw| && raw[i].Timed? && KeyOf(raw[i], c) == key
        ensures ToDayEvent(raw[i]) in EventsOn(raw, key, c)
      {
        if i < |init| {
          assert ToDayEvent(init[i]) in EventsOn(init, key, c);
        }
      }
    }
  }

  /** `byDate` holds, under each key, the events of `raw` with that key, and has no other keys. */
  ghost predicate Grouped(byDate: map<string, seq<DayEvent>>, raw: seq<RawEvent>, c: Clock)
  {
    && byDate.Keys == DateKeys(raw, c)
    && forall k :: k in byDate ==> byDate[k] == EventsOn(raw, k, c)
  }

  /** Pushing one more event on its key's list keeps the grouping. */
  lemma GroupStep(byDate: map<string, seq<DayEvent>>, raw: seq<RawEvent>, e: RawEvent, c: Clock, updated: map<string, seq<DayEvent>>)
    requires Grouped(byDate, raw, c)
    requires e.Timed? ==> updated == byDate[KeyOf(e, c) := (if KeyOf(e, c) in byDate then byDate[KeyOf(e, c)] else []) + [ToDayEvent(e)]]
    requires !e.Timed? ==> updated == byDate
    ensures Grouped(updated, raw + [e], c)
  {
    var raw' := raw + [e];
    assert raw'[..|raw'| - 1] == raw;
    assert DateKeys(raw', c) == DateKeys(raw, c) + (if e.Timed? then {KeyOf(e, c)} else {}) by {
      assert forall j :: 0 <= j < |raw| ==> raw'[j] == raw[j];
      assert raw'[|raw|] == e;
    }
    if e.Timed? && KeyOf(e, c) !in byDate {
      EventsOnNonEmpty(raw, KeyOf(e, c), c);
    }
  }

  /** The grouping loop's invariant survives the event at index `i`. */
  lemma GroupIndexStep(byDate: map<string, seq<DayEvent>>, raw: seq<RawEvent>, i: int, c: Clock, updated: map<string, seq<DayEvent>>)
    requires 0 <= i < |raw| && Grouped(byDate, raw[..i], c)
    requires var e := raw[i];
      e.Timed? ==> updated == byDate[KeyOf(e, c) := (if KeyOf(e, c) in byDate then byDate[KeyOf(e, c)] else []) + [ToDayEvent(e)]]
    requires !raw[i].Timed? ==> updated == byDate
    ensures Grouped(updated, raw[..i + 1], c)
  {
    assert raw[..i + 1] == raw[..i] + [raw[i]];
    GroupStep(byDate, raw[..i], raw[i], c, updated);
  }

  /** Lines 19-34: the timed events grouped by the local date of their start. */
  method GroupByDate(raw: seq<RawEvent>, c: Clock) returns (byDate: map<string, seq<DayEvent>>)
    ensures byDate.Keys == DateKeys(raw, c)
    ensures forall k :: k in byDate ==> byDate[k] == EventsOn(raw, k, c)
  {
    byDate := map[];
    var i := 0;
    while i < |raw|
      invariant 0 <= i <= |raw|
      invariant Grouped(byDate, raw[..i], c)
    {
      var ev := raw[i];
      ghost var before := byDate;
      if ev.Timed? {
        var dateStr := KeyOf(ev, c);
        if dateStr !in byDate {
          byDate := byDate[dateStr := []];
        }
        byDate := byDate[dateStr := byDate[dateStr] + [ToDayEvent(ev)]];
      }
      GroupIndexStep(before, raw, i, c, byDate);
      i := i + 1;
    }
    assert raw[..|raw|] == raw;
  }

  /** A day event the scheduler treats as earlier focus time of its own (line 44). */
  predicate IsCaiFocus(d: DayEvent)
  {
    d.isCai && Contains(d.summary, "Focus Time")
  }

  /** Line 115: a summary that mentions lunch, in any letter case. */
  predicate MentionsLunch(d: DayEvent)
  {
    Contains(ToLower(d.summary), "lunch")
  }

  /** Line 140: a summary that mentions a coffee or a break. */
  predicate MentionsCoffee(d: DayEvent)
  {
    Contains(d.summary, "Coffee") || Contains(d.summary, "Break")
  }

  /** Line 115: the day already has a lunch. */
  predicate HasLunch(day: seq<DayEvent>)
  {
    exists d :: d in day && MentionsLunch(d)
  }

  /** Line 140: the day already has a coffee break. */
  predicate HasCoffee(day: seq<DayEvent>)
  {
    exists d :: d in day && MentionsCoffee(d)
  }

  /**
   * The events the scheduler creates are recognised by its own guards on a
   * later run: a lunch stops another lunch, a coffee break another coffee
   * break, and focus time is counted towards the week's tally.
   */
  lemma ManagedSummariesRecognised(span: Interval)
    ensures MentionsLunch(ToDayEvent(Timed(LunchSummary, span.start, span.end, 0, false)))
    ensures MentionsCoffee(ToDayEvent(Timed(CoffeeSummary, span.start, span.end, 0, false)))
    ensures IsCaiFocus(ToDayEvent(Timed(FocusSummary, span.start, span.end, 0, false)))
  {
    LunchRecognised();
    CoffeeRecognised();
    FocusRecognised();
  }

  lemma LunchRecognised()
    ensures Contains(ToLower(LunchSummary), "lunch")
  {
    assert LunchSummary == "\U{1F37D}\U{FE0F} " + "Lunch" + " [Cai]";
    ContainsMiddle("\U{1F37D}\U{FE0F} ", "Lunch", " [Cai]");
    ToLowerKeepsContains(LunchSummary, "Lunch");
    LowerLunch();
  }

  lemma LowerLunch()
    ensures ToLower("Lunch") == "lunch"
  {
    assert ToLower("Lunch")[0] == 'l';
  }

  lemma CoffeeRecognised()
    ensures Contains(CoffeeSummary, "Coffee")
  {
    assert CoffeeSummary == "☕ " + "Coffee" + " Break [Cai]";
    ContainsMiddle("☕ ", "Coffee", " Break [Cai]");
  }

  lemma FocusRecognised()
    ensures Contains(FocusSummary, "Focus Time") && Contains(FocusSummary, CaiTag)
  {
    assert FocusSummary == "⚡ " + "Focus Time" + " [Cai]";
    ContainsMiddle("⚡ ", "Focus Time", " [Cai]");
    assert FocusSummary == "⚡ Focus Time " + CaiTag + "";
    ContainsMiddle("⚡ Focus Time ", CaiTag, "");
  }

  /** The milliseconds of earlier focus time of the scheduler's own in `raw` that fall in the selected week. */
  function SeededMs(raw: seq<RawEvent>, c: Clock, thisWeek: bool): int
  {
    if raw == [] then 0
    else
      var e := raw[|raw| - 1];
      var counted := e.Timed? && IsCaiFocus(ToDayEvent(e))
        && (if thisWeek then IsThisWeek(c, e.start) else !IsThisWeek(c, e.start) && IsNextWeek(c, e.start));
      SeededMs(raw[..|raw| - 1], c, thisWeek) + (if counted then e.end - e.start else 0)
  }

  /** The milliseconds of all the scheduler's own focus time in `raw`, whatever its week. */
  function CaiFocusMs(raw: seq<RawEvent>): int
  {
    if raw == [] then 0
    else
      var e := raw[|raw| - 1];
      CaiFocusMs(raw[..|raw| - 1]) + (if e.Timed? && IsCaiFocus(ToDayEvent(e)) then e.end - e.start else 0)
  }

  /**
   * No focus block is counted in both weeks: together the two seeded tallies
   * never exceed the scheduler's own focus time in `raw`.
   */
  lemma {:induction false} SeededWithinFocus(raw: seq<RawEvent>, c: Clock)
    requires WellFormedEvents(raw)
    ensures SeededMs(raw, c, true) + SeededMs(raw, c, false) <= CaiFocusMs(raw)
  {
    if raw != [] {
      var init := raw[..|raw| - 1];
      assert forall i :: 0 <= i < |init| ==> init[i] == raw[i];
      SeededWithinFocus(init, c);
      assert raw[|raw| - 1].Timed? ==> raw[|raw| - 1].start <= raw[|raw| - 1].end;
    }
  }

  /** Seeded tallies are never negative when no event ends before it starts. */
  lemma {:induction false} SeededNonNegative(raw: seq<RawEvent>, c: Clock, thisWeek: bool)
    requires WellFormedEvents(raw)
    ensures SeededMs(raw, c, thisWeek) >= 0
  {
    if raw != [] {
      var init := raw[..|raw| - 1];
      assert forall i :: 0 <= i < |init| ==> init[i] == raw[i];
      SeededNonNegative(init, c, thisWeek);
    }
  }

  /** A focus block the scheduler created in this week adds its length to this week's tally, and nothing to next week's. */
  lemma SeededCountsOwnFocus(raw: seq<RawEvent>, c: Clock, span: Interval)
    requires IsThisWeek(c, span.start)
    ensures var e := Timed(FocusSummary, span.start, span.end, 0, false);
      && SeededMs(raw + [e], c, true) == SeededMs(raw, c, true) + Len(span)
      && SeededMs(raw + [e], c, false) == SeededMs(raw, c, false)
  {
    var e := Timed(FocusSummary, span.start, span.end, 0, false);
    ManagedSummariesRecognised(span);
    assert (raw + [e])[..|raw + [e]| - 1] == raw;
  }

  /** Lines 38-50: the focus time already scheduled this week and next week. */
  method SeedTallies(raw: seq<RawEvent>, c: Clock) returns (currentWeekMs: int, nextWeekMs: int)
    ensures currentWeekMs == SeededMs(raw, c, true)
    ensures nextWeekMs == SeededMs(raw, c, false)
  {
    currentWeekMs := 0;
    nextWeekMs := 0;
    var i := 0;
    while i < |raw|
      invariant 0 <= i <= |raw|
      invariant currentWeekMs == SeededMs(raw[..i], c, true)
      invariant nextWeekMs == SeededMs(raw[..i], c, false)
    {
      var ev := raw[i];
      assert raw[..i + 1][..i] == raw[..i];
      if ev.Timed? && IsCaiFocus(ToDayEvent(ev)) {
        var durationMs := ev.end - ev.start;
        if IsThisWeek(c, ev.start) {
          currentWeekMs := currentWeekMs + durationMs;
        } else if IsNextWeek(c, ev.start) {
          nextWeekMs := nextWeekMs + durationMs;
        }
      }
      i := i + 1;
    }
    assert raw[..|raw|] == raw;
  }
}

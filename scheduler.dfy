/**
 * The scheduling pass (`runScheduler`, src/utils/scheduler.js lines 7-201):
 * for each weekday of the next 14 days, the free time inside the working
 * hours receives a lunch, a coffee break and focus blocks, unless the day
 * already has them or the week already has enough focus time. Creating an
 * event is appending it to the run's output.
 */
module Scheduler {
  import opened Wrappers
  import opened Intervals
  import opened Text
  import opened Calendar
  import opened Consolidation
  import opened FreeSlots
  import opened Placement
  import opened FocusPacking
  import opened Events
  import opened Insights

  /**
   * The stored preferences. A text field left empty stands for a missing
   * one, as does a number 0, since the source reads them with `||`.
   */
  datatype Preferences = Preferences(
    workingHoursStart: string,
    workingHoursEnd: string,
    lunchPreference: string,
    lunchDuration: int,
    coffeeBreakDuration: int,
    focusTimeGoal: int)

  /** `s || fallback` on a string. */
  function OrDefault(s: string, fallback: string): string
  {
    if s == "" then fallback else s
  }

  /** Line 52: the weekly focus goal, 10 hours when none is set. */
  function FocusGoalMs(p: Preferences): int
  {
    (if p.focusTimeGoal == 0 then 10 else p.focusTimeGoal) * Hour
  }

  /** An event handed to `createEvent`. */
  datatype NewEvent = NewEvent(summary: string, span: Interval, colorId: string)

  /** One of the three kinds of event the scheduler creates, with its colour. */
  predicate Managed(e: NewEvent)
  {
    || (e.summary == LunchSummary && e.colorId == LunchColor)
    || (e.summary == CoffeeSummary && e.colorId == CoffeeColor)
    || (e.summary == FocusSummary && e.colorId == FocusColor)
  }

  /** A date of the horizon: its local date, the instant of its local midnight, and whether it is a Saturday or a Sunday. */
  datatype Day = Day(date: LocalDate, midnight: int, weekend: bool)

  /** The focus time counted so far in this week and in next week. */
  datatype Tallies = Tallies(currentWeekMs: int, nextWeekMs: int)

  /** The number of days the pass looks ahead (line 55). */
  const HorizonDays: int := 14

  /** Lines 66-73: the day's working window; `None` where a time does not parse, so that the window's instants are invalid dates. */
  function WorkWindow(p: Preferences, day: Day): Option<(int, int)>
  {
    var s := ParseTimeString(OrDefault(p.workingHoursStart, "09:00"));
    var e := ParseTimeString(OrDefault(p.workingHoursEnd, "17:00"));
    if s.Some? && e.Some? then Some((TimeOn(day.midnight, s.value), TimeOn(day.midnight, e.value))) else None
  }

  /** The time spans of a day's events. */
  function Spans(events: seq<DayEvent>): (r: seq<Interval>)
    ensures |r| == |events|
    ensures forall i :: 0 <= i < |events| ==> r[i] == events[i].span
  {
    seq(|events|, i requires 0 <= i < |events| => events[i].span)
  }

  /** Lines 62-63: the events of a date, none when it has no group. */
  function DayEvents(raw: seq<RawEvent>, day: Day, c: Clock): seq<DayEvent>
  {
    EventsOn(raw, LocalDateString(day.date), c)
  }

  /** `t` lies in the working window and in no event of the day. */
  ghost predicate FreeInstant(t: int, window: Option<(int, int)>, events: seq<DayEvent>)
  {
    window.Some? && window.value.0 <= t < window.value.1 && !Covers(Spans(events), t)
  }

  /** Created events are non-empty, lie in free time and share no instant. */
  ghost predicate SoundPlacement(made: seq<NewEvent>, window: Option<(int, int)>, events: seq<DayEvent>)
  {
    && (forall i :: 0 <= i < |made| ==> made[i].span.start < made[i].span.end)
    && (forall i, t :: 0 <= i < |made| && Has(made[i].span, t) ==> FreeInstant(t, window, events))
    && (forall i, j, t :: 0 <= i < j < |made| && Has(made[i].span, t) ==> !Has(made[j].span, t))
  }

  /** The free list: chronological non-empty slots of free time that no created event touches. */
  ghost predicate Available(free: seq<Interval>, window: Option<(int, int)>, events: seq<DayEvent>, made: seq<NewEvent>)
  {
    && Chronological(free)
    && (forall s :: s in free ==> s.start < s.end)
    && (forall t :: Covers(free, t) ==> FreeInstant(t, window, events))
    && (forall i, t :: 0 <= i < |made| && Has(made[i].span, t) ==> !Covers(free, t))
  }

  /** How many of `made` have summary `s`. */
  function Count(made: seq<NewEvent>, s: string): nat
  {
    if made == [] then 0 else (if made[0].summary == s then 1 else 0) + Count(made[1..], s)
  }

  /** The focus time among `made`. */
  function FocusTotal(made: seq<NewEvent>): int
  {
    if made == [] then 0
    else (if made[0].summary == FocusSummary then Len(made[0].span) else 0) + FocusTotal(made[1..])
  }

  /** The focus events for `blocks`, in order (lines 175-180). */
  function FocusEvents(blocks: seq<Interval>): (r: seq<NewEvent>)
    ensures |r| == |blocks|
    ensures forall i :: 0 <= i < |blocks| ==> r[i] == NewEvent(FocusSummary, blocks[i], FocusColor)
  {
    seq(|blocks|, i requires 0 <= i < |blocks| => NewEvent(FocusSummary, blocks[i], FocusColor))
  }

  lemma {:induction false} CountAppend(a: seq<NewEvent>, b: seq<NewEvent>, s: string)
    ensures Count(a + b, s) == Count(a, s) + Count(b, s)
    ensures FocusTotal(a + b) == FocusTotal(a) + FocusTotal(b)
  {
    if a != [] {
      assert (a + b)[1..] == a[1..] + b;
      CountAppend(a[1..], b, s);
    } else {
      assert a + b == b;
    }
  }

  lemma SummariesDistinct()
    ensures LunchSummary != FocusSummary && CoffeeSummary != FocusSummary && LunchSummary != CoffeeSummary
  {
    assert LunchSummary[0] != FocusSummary[0] && CoffeeSummary[0] != FocusSummary[0] && LunchSummary[0] != CoffeeSummary[0];
  }

  /** Focus events are managed, are neither lunches nor coffee breaks, and add up to the blocks' length. */
  lemma {:induction false} FocusEventsFacts(blocks: seq<Interval>)
    ensures Count(FocusEvents(blocks), LunchSummary) == 0 && Count(FocusEvents(blocks), CoffeeSummary) == 0
    ensures FocusTotal(FocusEvents(blocks)) == TotalLength(blocks)
  {
    if blocks != [] {
      SummariesDistinct();
      assert FocusEvents(blocks)[1..] == FocusEvents(blocks[1..]);
      FocusEventsFacts(blocks[1..]);
    }
  }

  /** Every instant of a block inside a slot of `free` is covered by `free`. */
  lemma InsideCovered(free: seq<Interval>, s: Interval, b: Interval, t: int)
    requires s in free && Inside(b, s) && Has(b, t)
    ensures Covers(free, t)
  {
    assert Has(s, t);
  }

  /** A block taken from the free list keeps the placement sound. */
  lemma PlaceFromFree(free: seq<Interval>, window: Option<(int, int)>, events: seq<DayEvent>, made: seq<NewEvent>, x: NewEvent)
    requires Available(free, window, events, made) && SoundPlacement(made, window, events)
    requires x.span.start < x.span.end
    requires exists s :: s in free && Inside(x.span, s)
    ensures SoundPlacement(made + [x], window, events)
  {
    var s :| s in free && Inside(x.span, s);
    var made' := made + [x];
    forall i, t | 0 <= i < |made'| && Has(made'[i].span, t) ensures FreeInstant(t, window, events) {
      if i == |made| {
        InsideCovered(free, s, x.span, t);
      } else {
        assert made'[i] == made[i];
      }
    }
    forall i, j, t | 0 <= i < j < |made'| && Has(made'[i].span, t) ensures !Has(made'[j].span, t) {
      assert made'[i] == made[i];
      if j == |made| {
        if Has(x.span, t) {
          InsideCovered(free, s, x.span, t);
        }
      } else {
        assert made'[j] == made[j];
      }
    }
  }

  /** Carving a placed block out of the free list keeps the list available. */
  lemma CarveAvailable(free: seq<Interval>, window: Option<(int, int)>, events: seq<DayEvent>, made: seq<NewEvent>, x: NewEvent, rest: seq<Interval>)
    requires Available(free, window, events, made)
    requires Chronological(rest) && forall s :: s in rest ==> s.start < s.end
    requires forall t :: Covers(rest, t) <==> Covers(free, t) && !Has(x.span, t)
    ensures Available(rest, window, events, made + [x])
  {
    var made' := made + [x];
    forall i, t | 0 <= i < |made'| && Has(made'[i].span, t) ensures !Covers(rest, t) {
      if i < |made| {
        assert made'[i] == made[i];
      }
    }
  }

  /** Focus blocks packed into the free list keep the placement sound. */
  lemma AddFocus(free: seq<Interval>, window: Option<(int, int)>, events: seq<DayEvent>, made: seq<NewEvent>, blocks: seq<Interval>)
    requires Available(free, window, events, made) && SoundPlacement(made, window, events)
    requires Chronological(blocks)
    requires forall b :: b in blocks ==> InSomeSlot(b, free) && 0 < Len(b)
    ensures SoundPlacement(made + FocusEvents(blocks), window, events)
  {
    var f := FocusEvents(blocks);
    var made' := made + f;
    forall k, t | 0 <= k < |blocks| && Has(blocks[k], t) ensures Covers(free, t) {
      assert blocks[k] in blocks;
      var s :| s in free && Inside(blocks[k], s);
      InsideCovered(free, s, blocks[k], t);
    }
    forall i | 0 <= i < |made'| ensures made'[i].span.start < made'[i].span.end {
      if i >= |made| {
        assert made'[i] == f[i - |made|];
        assert blocks[i - |made|] in blocks;
      }
    }
    forall i, t | 0 <= i < |made'| && Has(made'[i].span, t) ensures FreeInstant(t, window, events) {
      if i >= |made| {
        assert made'[i].span == blocks[i - |made|];
      } else {
        assert made'[i] == made[i];
      }
    }
    forall i, j, t | 0 <= i < j < |made'| && Has(made'[i].span, t) ensures !Has(made'[j].span, t) {
      if j < |made| {
        assert made'[i] == made[i] && made'[j] == made[j];
      } else if i < |made| {
        assert made'[i] == made[i];
        assert made'[j].span == blocks[j - |made|];
        assert !Covers(free, t);
      } else {
        var i', j' := i - |made|, j - |made|;
        assert made'[i].span == blocks[i'] && made'[j].span == blocks[j'];
        assert blocks[i'].end <= blocks[j'].start;
      }
    }
  }

  /**
   * Lines 66-112: the day's free slots, the gaps of the working window
   * between the consolidated busy blocks; none when a working hour does not
   * parse.
   */
  function DaySlots(p: Preferences, events: seq<DayEvent>, day: Day): seq<Interval>
  {
    var window := WorkWindow(p, day);
    if window.None? then []
    else Gaps(window.value.0, Busy(Spans(events), window.value.0, window.value.1), window.value.1)
  }

  /** A day's free slots hold exactly the instants of the working window that no event of the day occupies. */
  lemma DaySlotsFacts(p: Preferences, events: seq<DayEvent>, day: Day)
    requires WellFormed(Spans(events))
    ensures Available(DaySlots(p, events, day), WorkWindow(p, day), events, [])
    ensures forall t :: Covers(DaySlots(p, events, day), t) <==> FreeInstant(t, WorkWindow(p, day), events)
  {
    var window := WorkWindow(p, day);
    if window.Some? {
      var ws, we := window.value.0, window.value.1;
      BusyFacts(Spans(events), ws, we);
      GapsOfWindow(Busy(Spans(events), ws, we), ws, we);
    }
  }

  /** Lines 76-112, computed step by step. */
  method DayFreeSlots(p: Preferences, events: seq<DayEvent>, day: Day) returns (free: seq<Interval>)
    requires WellFormed(Spans(events))
    ensures free == DaySlots(p, events, day)
  {
    var window := WorkWindow(p, day);
    if window.None? {
      free := [];
    } else {
      var workStart := window.value.0;
      var workEnd := window.value.1;
      var busy := ConsolidateBusy(Spans(events), workStart, workEnd);
      BusyFacts(Spans(events), workStart, workEnd);
      free := ComputeFreeSlots(busy, workStart, workEnd);
    }
  }

  /** What `made` becomes when `booked` is created. */
  function WithBooked(made: seq<NewEvent>, booked: Option<NewEvent>): seq<NewEvent>
  {
    if booked.Some? then made + [booked.value] else made
  }

  /**
   * Lines 124-136 and 146-156: the best-fitting placement of an item of
   * `mins` minutes near `preferred`, created with `summary` and `color`, and
   * the free list with it cut out.
   */
  function Booking(free: seq<Interval>, mins: int, preferred: int, summary: string, color: string): (Option<NewEvent>, seq<Interval>)
  {
    var slot := BestFit(free, mins, preferred);
    if slot.None? then (None, free) else (Some(NewEvent(summary, slot.value, color)), Carved(free, slot.value))
  }

  /**
   * Booking finds nothing exactly when no slot fits and then leaves the free
   * list alone. Otherwise it creates the placement in the chosen slot, with
   * the given title, colour and length, carves it out of the free list, and
   * keeps the list available and the placement sound.
   */
  lemma BookingFacts(free: seq<Interval>, mins: int, preferred: int, summary: string, color: string,
                     window: Option<(int, int)>, events: seq<DayEvent>, made: seq<NewEvent>)
    requires mins > 0
    requires Available(free, window, events, made) && SoundPlacement(made, window, events)
    ensures var (booked, free') := Booking(free, mins, preferred, summary, color);
      && (booked.None? <==> forall s :: s in free ==> !Fits(s, mins * Minute))
      && (booked.None? ==> free' == free)
      && (booked.Some? ==>
            && booked.value.summary == summary && booked.value.colorId == color
            && Len(booked.value.span) == mins * Minute
            && (exists k :: ChosenAt(free, mins * Minute, preferred, k) && booked.value.span == Placed(free[k], mins * Minute, preferred))
            && free' == Carved(free, booked.value.span))
      && Available(free', window, events, WithBooked(made, booked))
      && SoundPlacement(WithBooked(made, booked), window, events)
  {
    BestFitFacts(free, mins, preferred);
    var slot := BestFit(free, mins, preferred);
    if slot.Some? {
      var item := NewEvent(summary, slot.value, color);
      PlaceFromFree(free, window, events, made, item);
      CarvedFacts(free, slot.value);
      CarveAvailable(free, window, events, made, item, Carved(free, slot.value));
    }
  }

  /** Lines 124-136 and 146-156, computed step by step. */
  method Book(free: seq<Interval>, mins: int, preferred: int, summary: string, color: string)
    returns (booked: Option<NewEvent>, free': seq<Interval>)
    ensures (booked, free') == Booking(free, mins, preferred, summary, color)
  {
    var slot := FindBestFit(free, mins, preferred);
    if slot.Some? {
      var item := NewEvent(summary, slot.value, color);
      free' := RemoveSlotUsage(free, slot.value);
      booked := Some(item);
    } else {
      booked := None;
      free' := free;
    }
  }

  /** Lines 116-123: the preferred lunch instant, `None` when the preference does not parse. */
  function LunchAt(p: Preferences, day: Day): Option<int>
  {
    var t := ParseTimeString(OrDefault(p.lunchPreference, "12:00"));
    if t.Some? then Some(TimeOn(day.midnight, t.value)) else None
  }

  /** Lines 114-137: the lunch booked on a day with no lunch yet, and the free slots left. */
  function LunchBooking(p: Preferences, events: seq<DayEvent>, day: Day, free: seq<Interval>): (Option<NewEvent>, seq<Interval>)
  {
    var at := LunchAt(p, day);
    if !HasLunch(events) && p.lunchDuration > 0 && at.Some? then
      Booking(free, p.lunchDuration, at.value, LunchSummary, LunchColor)
    else (None, free)
  }

  /** Lines 139-157: the coffee break booked near 15:00 on a day with none yet, and the free slots left. */
  function CoffeeBooking(p: Preferences, events: seq<DayEvent>, day: Day, free: seq<Interval>): (Option<NewEvent>, seq<Interval>)
  {
    if !HasCoffee(events) && p.coffeeBreakDuration > 0 then
      Booking(free, p.coffeeBreakDuration, TimeOn(day.midnight, (15, 0)), CoffeeSummary, CoffeeColor)
    else (None, free)
  }

  /** Lines 159-162: the week a day's focus time is charged to, and what that week still needs. */
  function WeekBefore(c: Clock, day: Day, tallies: Tallies): int
  {
    if IsThisWeek(c, day.midnight) then tallies.currentWeekMs else tallies.nextWeekMs
  }

  /** The tallies once `added` focus milliseconds are charged for `day`. */
  function Charged(c: Clock, day: Day, tallies: Tallies, added: int): Tallies
  {
    var before := WeekBefore(c, day, tallies);
    if IsThisWeek(c, day.midnight) then tallies.(currentWeekMs := before + added)
    else tallies.(nextWeekMs := before + added)
  }

  /**
   * The body of the day loop (lines 56-190) for a weekday: the free slots,
   * then the lunch in them, then the coffee break in what is left, then the
   * focus blocks packed into what is left after both, charged to this week's
   * tally or, for any other week, to next week's.
   */
  function DayPlan(p: Preferences, events: seq<DayEvent>, day: Day, c: Clock, tallies: Tallies): (seq<NewEvent>, Tallies)
  {
    var lunch := LunchBooking(p, events, day, DaySlots(p, events, day));
    var coffee := CoffeeBooking(p, events, day, lunch.1);
    FocusPlan(lunch.0, coffee.0, coffee.1, FocusGoalMs(p), c, day, tallies)
  }

  /**
   * Lines 159-190: once the lunch and coffee break are booked, the focus
   * blocks packed into the slots left for what the day's week still needs,
   * the day's events, and the tallies with the blocks charged.
   */
  function FocusPlan(lunch: Option<NewEvent>, coffee: Option<NewEvent>, rest: seq<Interval>, goal: int, c: Clock, day: Day, tallies: Tallies): (seq<NewEvent>, Tallies)
  {
    var blocks := Pack(rest, goal - WeekBefore(c, day, tallies));
    (WithBooked(WithBooked([], lunch), coffee) + FocusEvents(blocks), Charged(c, day, tallies, TotalLength(blocks)))
  }

  /** What is known of a booked lunch. */
  ghost predicate LunchShape(p: Preferences, events: seq<DayEvent>, x: NewEvent)
  {
    && x.summary == LunchSummary && x.colorId == LunchColor
    && Len(x.span) == p.lunchDuration * Minute
    && !HasLunch(events) && p.lunchDuration > 0
  }

  /** What is known of a booked coffee break. */
  ghost predicate CoffeeShape(p: Preferences, events: seq<DayEvent>, x: NewEvent)
  {
    && x.summary == CoffeeSummary && x.colorId == CoffeeColor
    && Len(x.span) == p.coffeeBreakDuration * Minute
    && !HasCoffee(events) && p.coffeeBreakDuration > 0
  }

  /** The lunch is booked in free time, only when the day has none and its duration is positive. */
  lemma LunchStage(p: Preferences, events: seq<DayEvent>, day: Day, free: seq<Interval>)
    requires Available(free, WorkWindow(p, day), events, [])
    ensures var (lunch, rest) := LunchBooking(p, events, day, free);
      && Available(rest, WorkWindow(p, day), events, WithBooked([], lunch))
      && SoundPlacement(WithBooked([], lunch), WorkWindow(p, day), events)
      && (lunch.Some? ==> LunchShape(p, events, lunch.value))
  {
    var at := LunchAt(p, day);
    if !HasLunch(events) && p.lunchDuration > 0 && at.Some? {
      BookingFacts(free, p.lunchDuration, at.value, LunchSummary, LunchColor, WorkWindow(p, day), events, []);
    }
  }

  /** The coffee break is booked in the free time left, only when the day has none and its duration is positive. */
  lemma CoffeeStage(p: Preferences, events: seq<DayEvent>, day: Day, free: seq<Interval>, made: seq<NewEvent>)
    requires Available(free, WorkWindow(p, day), events, made) && SoundPlacement(made, WorkWindow(p, day), events)
    ensures var (coffee, rest) := CoffeeBooking(p, events, day, free);
      && Available(rest, WorkWindow(p, day), events, WithBooked(made, coffee))
      && SoundPlacement(WithBooked(made, coffee), WorkWindow(p, day), events)
      && (coffee.Some? ==> CoffeeShape(p, events, coffee.value))
  {
    if !HasCoffee(events) && p.coffeeBreakDuration > 0 {
      BookingFacts(free, p.coffeeBreakDuration, TimeOn(day.midnight, (15, 0)), CoffeeSummary, CoffeeColor, WorkWindow(p, day), events, made);
    }
  }

  /**
   * A weekday's new events lie in its free time and overlap each other
   * nowhere; there is at most one lunch and one coffee break, each only when
   * the day has none and its duration is positive, and each of the preferred
   * length; the focus time added stays within what the week still needs, and
   * only that week's tally grows, by exactly that time.
   */
  lemma DayPlanFacts(p: Preferences, events: seq<DayEvent>, day: Day, c: Clock, tallies: Tallies)
    requires WellFormed(Spans(events))
    ensures var (created, tallies') := DayPlan(p, events, day, c, tallies);
      && SoundPlacement(created, WorkWindow(p, day), events)
      && DayKinds(p, events, created)
      && 0 <= FocusTotal(created) <= Max(0, FocusGoalMs(p) - WeekBefore(c, day, tallies))
      && tallies' == Charged(c, day, tallies, FocusTotal(created))
  {
    var free := DaySlots(p, events, day);
    DaySlotsFacts(p, events, day);
    var lunch := LunchBooking(p, events, day, free);
    LunchStage(p, events, day, free);
    var lunchMade := WithBooked([], lunch.0);
    var coffee := CoffeeBooking(p, events, day, lunch.1);
    CoffeeStage(p, events, day, lunch.1, lunchMade);
    ExtrasFacts(p, events, lunch.0, coffee.0);
    FocusStage(p, events, WorkWindow(p, day), WithBooked(lunchMade, coffee.0), coffee.1, FocusGoalMs(p) - WeekBefore(c, day, tallies));
  }

  /** The focus blocks are packed into the free time left after the lunch and coffee break. */
  lemma FocusStage(p: Preferences, events: seq<DayEvent>, window: Option<(int, int)>, extras: seq<NewEvent>, rest: seq<Interval>, needed: int)
    requires Available(rest, window, events, extras) && SoundPlacement(extras, window, events)
    requires DayKinds(p, events, extras) && FocusTotal(extras) == 0
    ensures var created := extras + FocusEvents(Pack(rest, needed));
      && SoundPlacement(created, window, events)
      && DayKinds(p, events, created)
      && FocusTotal(created) == TotalLength(Pack(rest, needed))
      && 0 <= FocusTotal(created) <= Max(0, needed)
  {
    PackFacts(rest, needed);
    AddFocus(rest, window, events, extras, Pack(rest, needed));
    FinishDay(p, events, extras, Pack(rest, needed));
  }

  /** The body of the day loop for a weekday (lines 56-190), computed step by step. */
  method ProcessDay(p: Preferences, events: seq<DayEvent>, day: Day, c: Clock, tallies: Tallies)
    returns (created: seq<NewEvent>, tallies': Tallies)
    requires WellFormed(Spans(events))
    ensures created == DayPlan(p, events, day, c, tallies).0
    ensures tallies' == DayPlan(p, events, day, c, tallies).1
  {
    var free := DayFreeSlots(p, events, day);
    var lunch, afterLunch := BookLunch(p, events, day, free);
    var coffee, afterCoffee := BookCoffee(p, events, day, afterLunch);
    created, tallies' := PlanFocus(lunch, coffee, afterCoffee, FocusGoalMs(p), c, day, tallies);
  }

  /** Lines 159-190, computed step by step. */
  method PlanFocus(lunch: Option<NewEvent>, coffee: Option<NewEvent>, rest: seq<Interval>, goal: int, c: Clock, day: Day, tallies: Tallies)
    returns (created: seq<NewEvent>, tallies': Tallies)
    ensures created == FocusPlan(lunch, coffee, rest, goal, c, day, tallies).0
    ensures tallies' == FocusPlan(lunch, coffee, rest, goal, c, day, tallies).1
  {
    var extras := WithBooked(WithBooked([], lunch), coffee);
    var isCurrent := IsThisWeek(c, day.midnight);
    var weekMs := WeekBefore(c, day, tallies);
    var neededMs := goal - weekMs;
    var blocks, weekMs' := PackFocus(rest, neededMs, weekMs);
    created := extras + FocusEvents(blocks);
    tallies' := if isCurrent then tallies.(currentWeekMs := weekMs') else tallies.(nextWeekMs := weekMs');
  }

  /** Lines 114-137, computed step by step. */
  method BookLunch(p: Preferences, events: seq<DayEvent>, day: Day, free: seq<Interval>)
    returns (lunch: Option<NewEvent>, free': seq<Interval>)
    ensures (lunch, free') == LunchBooking(p, events, day, free)
  {
    lunch, free' := None, free;
    if !HasLunch(events) && p.lunchDuration > 0 {
      var lunchMins := p.lunchDuration;
      var lunchTime := ParseTimeString(OrDefault(p.lunchPreference, "12:00"));
      if lunchTime.Some? {
        var preferredLunchTime := TimeOn(day.midnight, lunchTime.value);
        lunch, free' := Book(free, lunchMins, preferredLunchTime, LunchSummary, LunchColor);
      }
    }
  }

  /** Lines 139-157, computed step by step. */
  method BookCoffee(p: Preferences, events: seq<DayEvent>, day: Day, free: seq<Interval>)
    returns (coffee: Option<NewEvent>, free': seq<Interval>)
    ensures (coffee, free') == CoffeeBooking(p, events, day, free)
  {
    coffee, free' := None, free;
    var coffeeMins := p.coffeeBreakDuration;
    if !HasCoffee(events) && coffeeMins > 0 {
      var preferredCoffeeTime := TimeOn(day.midnight, (15, 0));
      coffee, free' := Book(free, coffeeMins, preferredCoffeeTime, CoffeeSummary, CoffeeColor);
    }
  }

  /** A day's events: its lunch and coffee break, then its focus blocks. */
  ghost predicate DayKinds(p: Preferences, events: seq<DayEvent>, made: seq<NewEvent>)
  {
    && (forall i :: 0 <= i < |made| ==> Managed(made[i]))
    && Count(made, LunchSummary) <= 1 && Count(made, CoffeeSummary) <= 1
    && (Count(made, LunchSummary) == 1 ==> !HasLunch(events) && p.lunchDuration > 0)
    && (Count(made, CoffeeSummary) == 1 ==> !HasCoffee(events) && p.coffeeBreakDuration > 0)
    && (forall i :: 0 <= i < |made| && made[i].summary == LunchSummary ==> Len(made[i].span) == p.lunchDuration * Minute)
    && (forall i :: 0 <= i < |made| && made[i].summary == CoffeeSummary ==> Len(made[i].span) == p.coffeeBreakDuration * Minute)
  }

  /** Appending focus events to the lunch and coffee break of a day. */
  lemma FinishDay(p: Preferences, events: seq<DayEvent>, extras: seq<NewEvent>, blocks: seq<Interval>)
    requires DayKinds(p, events, extras) && FocusTotal(extras) == 0
    ensures DayKinds(p, events, extras + FocusEvents(blocks))
    ensures FocusTotal(extras + FocusEvents(blocks)) == TotalLength(blocks)
  {
    var created := extras + FocusEvents(blocks);
    SummariesDistinct();
    FocusEventsFacts(blocks);
    CountAppend(extras, FocusEvents(blocks), LunchSummary);
    CountAppend(extras, FocusEvents(blocks), CoffeeSummary);
    forall i | 0 <= i < |created| ensures Managed(created[i]) {
      if i >= |extras| {
        assert created[i] == FocusEvents(blocks)[i - |extras|];
      } else {
        assert created[i] == extras[i];
      }
    }
    forall i | |extras| <= i < |created| ensures created[i].summary == FocusSummary {
      assert created[i] == FocusEvents(blocks)[i - |extras|];
    }
    forall i | 0 <= i < |extras| ensures created[i] == extras[i] {
    }
  }

  /** The lunch and the coffee break of a day, before its focus blocks. */
  lemma ExtrasFacts(p: Preferences, events: seq<DayEvent>, lunch: Option<NewEvent>, coffee: Option<NewEvent>)
    requires lunch.Some? ==> LunchShape(p, events, lunch.value)
    requires coffee.Some? ==> CoffeeShape(p, events, coffee.value)
    ensures var extras := WithBooked(WithBooked([], lunch), coffee);
      DayKinds(p, events, extras) && FocusTotal(extras) == 0
  {
    SummariesDistinct();
    var extras := WithBooked(WithBooked([], lunch), coffee);
    if lunch.Some? && coffee.Some? {
      var l, k := lunch.value, coffee.value;
      assert extras == [l] + [k];
      OneEvent(l);
      OneEvent(k);
      CountAppend([l], [k], LunchSummary);
      CountAppend([l], [k], CoffeeSummary);
    } else if lunch.Some? {
      assert extras == [lunch.value];
      OneEvent(lunch.value);
    } else if coffee.Some? {
      assert extras == [coffee.value];
      OneEvent(coffee.value);
    }
  }

  /** The counts of a single event. */
  lemma OneEvent(e: NewEvent)
    ensures Count([e], LunchSummary) == (if e.summary == LunchSummary then 1 else 0)
    ensures Count([e], CoffeeSummary) == (if e.summary == CoffeeSummary then 1 else 0)
    ensures FocusTotal([e]) == (if e.summary == FocusSummary then Len(e.span) else 0)
  {
    assert [e][1..] == [];
  }

  /** The day events of well-formed calendar events are well formed. */
  lemma DayEventsWellFormed(raw: seq<RawEvent>, day: Day, c: Clock)
    requires WellFormedEvents(raw)
    ensures WellFormed(Spans(DayEvents(raw, day, c)))
  {
    var key := LocalDateString(day.date);
    var events := DayEvents(raw, day, c);
    EventsOnMembers(raw, key, c);
    forall b | b in Spans(events) ensures b.start <= b.end {
      var j :| 0 <= j < |events| && Spans(events)[j] == b;
      assert events[j] in events;
    }
  }

  /** Every instant of `created` lies in the free time of a weekday among the first `n` days. */
  ghost predicate FromWeekdays(created: seq<NewEvent>, p: Preferences, raw: seq<RawEvent>, days: seq<Day>, n: int, c: Clock)
    requires 0 <= n <= |days|
  {
    forall i, t :: 0 <= i < |created| && Has(created[i].span, t) ==>
      exists k :: 0 <= k < n && !days[k].weekend && FreeInstant(t, WorkWindow(p, days[k]), DayEvents(raw, days[k], c))
  }

  /** A processed weekday adds events in its own free time. */
  lemma FromWeekdaysStep(created: seq<NewEvent>, made: seq<NewEvent>, p: Preferences, raw: seq<RawEvent>, days: seq<Day>, n: int, c: Clock)
    requires 0 <= n < |days|
    requires FromWeekdays(created, p, raw, days, n, c)
    requires made != [] ==> !days[n].weekend && SoundPlacement(made, WorkWindow(p, days[n]), DayEvents(raw, days[n], c))
    ensures FromWeekdays(created + made, p, raw, days, n + 1, c)
  {
    var all := created + made;
    forall i, t | 0 <= i < |all| && Has(all[i].span, t)
      ensures exists k :: 0 <= k < n + 1 && !days[k].weekend && FreeInstant(t, WorkWindow(p, days[k]), DayEvents(raw, days[k], c))
    {
      if i < |created| {
        assert all[i] == created[i];
        var k :| 0 <= k < n && !days[k].weekend && FreeInstant(t, WorkWindow(p, days[k]), DayEvents(raw, days[k], c));
      } else {
        assert all[i] == made[i - |created|];
        assert FreeInstant(t, WorkWindow(p, days[n]), DayEvents(raw, days[n], c));
      }
    }
  }

  /** The tallies of the pass so far: each between its seed and the goal, and grown by the focus time created. */
  ghost predicate Progress(created: seq<NewEvent>, tallies: Tallies, seedNow: int, seedNext: int, goal: int)
  {
    && seedNow <= tallies.currentWeekMs <= Max(seedNow, goal)
    && seedNext <= tallies.nextWeekMs <= Max(seedNext, goal)
    && FocusTotal(created) == (tallies.currentWeekMs - seedNow) + (tallies.nextWeekMs - seedNext)
  }

  /** A processed day keeps the progress of the pass. */
  lemma ProgressStep(created: seq<NewEvent>, tallies: Tallies, made: seq<NewEvent>, tallies': Tallies,
                     current: bool, seedNow: int, seedNext: int, goal: int)
    requires Progress(created, tallies, seedNow, seedNext, goal)
    requires var before := if current then tallies.currentWeekMs else tallies.nextWeekMs;
      && 0 <= FocusTotal(made) <= Max(0, goal - before)
      && tallies' == if current then tallies.(currentWeekMs := before + FocusTotal(made))
                     else tallies.(nextWeekMs := before + FocusTotal(made))
    ensures Progress(created + made, tallies', seedNow, seedNext, goal)
  {
    CountAppend(created, made, FocusSummary);
    var before := if current then tallies.currentWeekMs else tallies.nextWeekMs;
    if current {
      TallyBound(seedNow, before, FocusTotal(made), goal);
    } else {
      TallyBound(seedNext, before, FocusTotal(made), goal);
    }
  }

  /** A tally that starts within its bounds and grows by no more than the goal still lacks stays within them. */
  lemma TallyBound(seed: int, before: int, added: int, goal: int)
    requires seed <= before <= Max(seed, goal)
    requires 0 <= added <= Max(0, goal - before)
    ensures seed <= before + added <= Max(seed, goal)
  {
  }

  /** Managed events stay managed when more are appended. */
  lemma ManagedAppend(created: seq<NewEvent>, made: seq<NewEvent>)
    requires forall j :: 0 <= j < |created| ==> Managed(created[j])
    requires forall j :: 0 <= j < |made| ==> Managed(made[j])
    ensures forall j :: 0 <= j < |created + made| ==> Managed((created + made)[j])
  {
    var all := created + made;
    forall j | 0 <= j < |all| ensures Managed(all[j]) {
      if j < |created| {
        assert all[j] == created[j];
      } else {
        assert all[j] == made[j - |created|];
      }
    }
  }

  /** One date of the horizon (lines 55-63): a weekend is skipped, a weekday is planned over its own events. */
  function DatePlan(p: Preferences, raw: seq<RawEvent>, day: Day, c: Clock, tallies: Tallies): (seq<NewEvent>, Tallies)
  {
    if day.weekend then ([], tallies) else DayPlan(p, DayEvents(raw, day, c), day, c, tallies)
  }

  /** A date creates nothing and charges nothing on a weekend, and on a weekday what `DayPlanFacts` states. */
  lemma DatePlanFacts(p: Preferences, raw: seq<RawEvent>, day: Day, c: Clock, tallies: Tallies)
    requires WellFormedEvents(raw)
    ensures var (made, tallies') := DatePlan(p, raw, day, c, tallies);
      && (day.weekend ==> made == [] && tallies' == tallies)
      && (!day.weekend ==> SoundPlacement(made, WorkWindow(p, day), DayEvents(raw, day, c))
                           && DayKinds(p, DayEvents(raw, day, c), made))
      && 0 <= FocusTotal(made) <= Max(0, FocusGoalMs(p) - WeekBefore(c, day, tallies))
      && tallies' == Charged(c, day, tallies, FocusTotal(made))
  {
    if !day.weekend {
      DayEventsWellFormed(raw, day, c);
      DayPlanFacts(p, DayEvents(raw, day, c), day, c, tallies);
    }
  }

  /** How one date is planned from the tallies before it: its new events and the tallies after it. */
  type DateStep = (Day, Tallies) -> (seq<NewEvent>, Tallies)

  /** The scheduler's date step: `DatePlan` for the given preferences, events and clock. */
  function Planner(p: Preferences, raw: seq<RawEvent>, c: Clock): DateStep
  {
    (day, tallies) => DatePlan(p, raw, day, c, tallies)
  }

  /** The events created on each of the first `n` dates, each planned by `step` from the tallies the dates before it leave, and the tallies after them. */
  function Horizon(step: DateStep, days: seq<Day>, seed: Tallies, n: nat): (r: (seq<seq<NewEvent>>, Tallies))
    requires n <= |days|
    ensures |r.0| == n
    decreases n
  {
    if n == 0 then ([], seed)
    else
      var prev := Horizon(step, days, seed, n - 1);
      var date := step(days[n - 1], prev.1);
      (prev.0 + [date.0], date.1)
  }

  /** The days' events one after the other. */
  function Flatten(ss: seq<seq<NewEvent>>): seq<NewEvent>
    decreases |ss|
  {
    if ss == [] then [] else Flatten(ss[..|ss| - 1]) + ss[|ss| - 1]
  }

  /** Day `k` of a longer horizon is planned from the tallies left by the days before it. */
  lemma {:induction false} HorizonDay(step: DateStep, days: seq<Day>, seed: Tallies, n: nat, k: nat)
    requires k < n <= |days|
    ensures Horizon(step, days, seed, n).0[k] == step(days[k], Horizon(step, days, seed, k).1).0
    decreases n
  {
    if k < n - 1 {
      HorizonDay(step, days, seed, n - 1, k);
      assert Horizon(step, days, seed, n).0[k] == Horizon(step, days, seed, n - 1).0[k];
    }
  }

  /** One more date appends its events to those before it and leaves its tallies. */
  lemma HorizonStep(step: DateStep, days: seq<Day>, seed: Tallies, n: nat)
    requires 0 < n <= |days|
    ensures var prev := Horizon(step, days, seed, n - 1);
      var date := step(days[n - 1], prev.1);
      && Flatten(Horizon(step, days, seed, n).0) == Flatten(prev.0) + date.0
      && Horizon(step, days, seed, n).1 == date.1
  {
    var prev := Horizon(step, days, seed, n - 1);
    var date := step(days[n - 1], prev.1);
    assert (prev.0 + [date.0])[..n - 1] == prev.0;
  }

  /**
   * What holds of the pass after the first `n` dates: every created event is
   * one this pass manages and lies in the free time of a weekday, and the
   * tallies keep their bounds and have grown by exactly the focus time
   * created.
   */
  ghost predicate PassSoFar(created: seq<NewEvent>, tallies: Tallies, p: Preferences, raw: seq<RawEvent>, days: seq<Day>, n: nat, c: Clock, seed: Tallies)
    requires n <= |days|
  {
    && (forall j :: 0 <= j < |created| ==> Managed(created[j]))
    && Progress(created, tallies, seed.currentWeekMs, seed.nextWeekMs, FocusGoalMs(p))
    && FromWeekdays(created, p, raw, days, n, c)
  }

  /** Every prefix of the horizon keeps `PassSoFar`. */
  lemma {:induction false} PlanFacts(p: Preferences, raw: seq<RawEvent>, days: seq<Day>, c: Clock, seed: Tallies, n: nat)
    requires WellFormedEvents(raw)
    requires n <= |days|
    ensures var plan := Horizon(Planner(p, raw, c), days, seed, n);
      PassSoFar(Flatten(plan.0), plan.1, p, raw, days, n, c, seed)
    decreases n
  {
    var step := Planner(p, raw, c);
    if n > 0 {
      PlanFacts(p, raw, days, c, seed, n - 1);
      var prev := Horizon(step, days, seed, n - 1);
      var day := days[n - 1];
      HorizonStep(step, days, seed, n);
      var date := step(day, prev.1);
      assert date == DatePlan(p, raw, day, c, prev.1);
      DateFacts(p, raw, days, n - 1, c, seed, Flatten(prev.0), prev.1, date.0, date.1);
    } else {
      assert Flatten([]) == [];
    }
  }

  /** A date planned after `created` keeps `PassSoFar`. */
  lemma DateFacts(p: Preferences, raw: seq<RawEvent>, days: seq<Day>, n: nat, c: Clock, seed: Tallies,
                  created: seq<NewEvent>, tallies: Tallies, made: seq<NewEvent>, tallies': Tallies)
    requires WellFormedEvents(raw)
    requires n < |days|
    requires (made, tallies') == DatePlan(p, raw, days[n], c, tallies)
    requires PassSoFar(created, tallies, p, raw, days, n, c, seed)
    ensures PassSoFar(created + made, tallies', p, raw, days, n + 1, c, seed)
  {
    var day := days[n];
    DatePlanFacts(p, raw, day, c, tallies);
    ProgressStep(created, tallies, made, tallies', IsThisWeek(c, day.midnight), seed.currentWeekMs, seed.nextWeekMs, FocusGoalMs(p));
    ManagedAppend(created, made);
    FromWeekdaysStep(created, made, p, raw, days, n, c);
  }

  /** Every day of the plan: nothing on a weekend; on a weekday, events in its free time that overlap nowhere, of the day's kinds. */
  lemma PlanDays(p: Preferences, raw: seq<RawEvent>, days: seq<Day>, c: Clock, seed: Tallies, n: nat)
    requires WellFormedEvents(raw)
    requires n <= |days|
    ensures var perDay := Horizon(Planner(p, raw, c), days, seed, n).0;
      forall k :: 0 <= k < n ==>
        && (days[k].weekend ==> perDay[k] == [])
        && (!days[k].weekend ==> SoundPlacement(perDay[k], WorkWindow(p, days[k]), DayEvents(raw, days[k], c))
                                 && DayKinds(p, DayEvents(raw, days[k], c), perDay[k]))
  {
    forall k | 0 <= k < n
      ensures var perDay := Horizon(Planner(p, raw, c), days, seed, n).0;
        && (days[k].weekend ==> perDay[k] == [])
        && (!days[k].weekend ==> SoundPlacement(perDay[k], WorkWindow(p, days[k]), DayEvents(raw, days[k], c))
                                 && DayKinds(p, DayEvents(raw, days[k], c), perDay[k]))
    {
      HorizonDay(Planner(p, raw, c), days, seed, n, k);
      DatePlanFacts(p, raw, days[k], c, Horizon(Planner(p, raw, c), days, seed, k).1);
    }
  }

  /** One date of the horizon (lines 55-63): a weekend is skipped, a weekday looks up its events and is processed. */
  method PlanDate(p: Preferences, raw: seq<RawEvent>, eventsByDate: map<string, seq<DayEvent>>, day: Day, c: Clock, tallies: Tallies)
    returns (made: seq<NewEvent>, tallies': Tallies)
    requires WellFormedEvents(raw)
    requires eventsByDate.Keys == DateKeys(raw, c)
    requires forall k :: k in eventsByDate ==> eventsByDate[k] == EventsOn(raw, k, c)
    ensures (made, tallies') == DatePlan(p, raw, day, c, tallies)
  {
    made, tallies' := [], tallies;
    if !day.weekend {
      var dateStr := LocalDateString(day.date);
      var dayEvents := if dateStr in eventsByDate then eventsByDate[dateStr] else [];
      if dateStr !in eventsByDate {
        EventsOnNonEmpty(raw, dateStr, c);
      }
      assert dayEvents == DayEvents(raw, day, c);
      DayEventsWellFormed(raw, day, c);
      made, tallies' := ProcessDay(p, dayEvents, day, c, tallies);
    }
  }

  /**
   * `runScheduler` (lines 7-201): nothing happens without preferences;
   * otherwise every date of the horizon is planned in turn with the week
   * tallies seeded from earlier focus time, and the insights are computed
   * from the fetched events. Each weekend creates nothing and each weekday
   * creates events in its own free time; a tally that starts within the goal
   * ends within it, and the tallies grow by exactly the focus time created.
   */
  method RunScheduler(prefs: Option<Preferences>, raw: seq<RawEvent>, days: seq<Day>, c: Clock)
    returns (created: seq<NewEvent>, tallies: Tallies, insights: map<int, WeekInsight>)
    requires WellFormedEvents(raw)
    requires |days| == HorizonDays
    ensures prefs.None? ==> created == [] && insights == map[]
    ensures forall i :: 0 <= i < |created| ==> Managed(created[i])
    ensures prefs.Some? ==>
      var p := prefs.value;
      var seed := Tallies(SeededMs(raw, c, true), SeededMs(raw, c, false));
      var plan := Horizon(Planner(p, raw, c), days, seed, |days|);
      && created == Flatten(plan.0)
      && tallies == plan.1
      && (forall k :: 0 <= k < |days| ==>
            && (days[k].weekend ==> plan.0[k] == [])
            && (!days[k].weekend ==> SoundPlacement(plan.0[k], WorkWindow(p, days[k]), DayEvents(raw, days[k], c))
                                     && DayKinds(p, DayEvents(raw, days[k], c), plan.0[k])))
    ensures prefs.Some? ==>
      var p := prefs.value;
      var goal := FocusGoalMs(p);
      var seedNow := SeededMs(raw, c, true);
      var seedNext := SeededMs(raw, c, false);
      && seedNow <= tallies.currentWeekMs <= Max(seedNow, goal)
      && seedNext <= tallies.nextWeekMs <= Max(seedNext, goal)
      && FocusTotal(created) == (tallies.currentWeekMs - seedNow) + (tallies.nextWeekMs - seedNext)
      && FromWeekdays(created, p, raw, days, |days|, c)
      && (forall k :: k in insights <==> OldestOffset <= k <= 0)
      && (forall k :: k in insights ==> insights[k] == Bucket(raw, c, k, InsightGoal(p.focusTimeGoal)))
  {
    created := [];
    tallies := Tallies(0, 0);
    insights := map[];
    if prefs.None? {
      return;
    }
    var p := prefs.value;
    var eventsByDate := GroupByDate(raw, c);
    var currentWeekMs, nextWeekMs := SeedTallies(raw, c);
    tallies := Tallies(currentWeekMs, nextWeekMs);
    ghost var seed := tallies;
    ghost var perDay: seq<seq<NewEvent>> := [];
    var i := 0;
    while i < HorizonDays
      invariant 0 <= i <= HorizonDays
      invariant (perDay, tallies) == Horizon(Planner(p, raw, c), days, seed, i)
      invariant created == Flatten(perDay)
    {
      var made, dayTallies := PlanDate(p, raw, eventsByDate, days[i], c, tallies);
      assert (made, dayTallies) == Planner(p, raw, c)(days[i], tallies);
      perDay := perDay + [made];
      assert perDay[..i] == perDay[..|perDay| - 1];
      tallies := dayTallies;
      created := created + made;
      i := i + 1;
    }
    PlanFacts(p, raw, days, c, seed, |days|);
    PlanDays(p, raw, days, c, seed, |days|);
    insights := ComputeInsights(raw, p.focusTimeGoal, c);
  }
}

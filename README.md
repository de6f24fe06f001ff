# Cai scheduling engine, modelled in Dafny

Cai is a browser extension. It keeps a user's Google Calendar workweek
healthy by adding lunch, a coffee break and blocks of focus time to it. This
project models its scheduling engine, `src/utils/scheduler.js`, and proves
properties of that model.

## What the engine does

- **`runScheduler`** runs only when preferences are stored. It groups the
  fetched timed events by local date (`YYYY-MM-DD`). All-day events are
  skipped.
- **Seeding the tallies.** It adds up the `[Cai]` focus time already in the
  calendar, once for the current ISO week and once for the next.
- **The day loop.** It walks the next 14 days and skips Saturdays and
  Sundays. For each weekday it does the following:
  - clamps the day's events to the working hours, sorts them by start and
    merges overlapping ones;
  - takes the gaps between them as free slots;
  - books a lunch near the preferred lunch time, unless some event of the
    day mentions "lunch" (in any case);
  - books a coffee break near 3 PM, unless some event mentions "Coffee" or
    "Break";
  - packs focus blocks from the start of each free slot, in slot order.
    Each block lasts at most 60 minutes. A slot is left once less than 30
    minutes of it remain. Packing stops when the week's focus goal is met or
    the slots run out. So the last block can be shorter than 30 minutes
    when less than that is still needed (line 169), and a week can end
    below its goal.
- **Booking.** `findBestFit` picks the slot whose nearest feasible start is
  closest to the preferred time; on a tie the earlier slot wins.
  `removeSlotUsage` cuts the used interval out of the first slot that
  contains it.
- **`computeInsights`** buckets the fetched events by week offset, from 0
  down to -4. For each week it sums:
  - focus time;
  - meeting time, meaning anything that is neither focus nor lunch or
    coffee;
  - one-on-one time, a subset of meeting time;
  - recurring meeting time, also a subset of meeting time.

## How it is modelled

- **Instants** are integers in milliseconds. The seconds the source uses
  for focus blocks and tallies are kept in milliseconds. This is exact
  when every instant is a whole number of seconds, as calendar times and
  working hours are.
- **Events and intervals** are half-open intervals. The slot and busy lists
  are sequences.
- **Imperative code.** The source's loops become methods with `while`
  loops: merging, free slots, best fit, slot removal, focus packing,
  grouping, seeding and insights. Each method's result is proved equal to a
  specification function, or characterised outright. The properties are
  then proved as lemmas about those functions.
- **In-place edits.** The source edits a slot list and a merged block in
  place. These are modelled by value: the method returns the new sequence
  and the caller reassigns it.
- **`createEvent`** is appending to the run's output sequence.
- **Calendar facts are inputs.** The current time, the local date of an
  instant and the ISO week number of an instant come from a `Clock` value.
  Each day of the horizon comes with its local date, its midnight and
  whether it is a weekend day.

Modules, in dependency order:

- `Wrappers`: `Option`.
- `Intervals`: intervals, coverage, and the `Chronological` and `Separated` orders.
- `Text`: substring search, ASCII lower-casing, split and join, decimal digits.
- `Calendar`: date keys, time parsing, week predicates.
- `Consolidation`: clamp, sort and merge.
- `FreeSlots`: the gaps.
- `Placement`: `findBestFit` and `removeSlotUsage`.
- `FocusPacking`: focus blocks.
- `Events`: grouping, event kinds and seeding.
- `Insights`: the weekly buckets.
- `Scheduler`: the day and the whole pass.

Some source behaviours look surprising but are kept as written:

- A day that is in neither the current nor the next week is charged to the
  next-week tally (line 161). The third calendar week of the 14-day
  horizon is such a week. Seeding counts only focus time of the current
  and the next week (lines 46-47), so third-week focus is never seeded.
  While the next week stays below its goal, every later run packs more
  focus into the free time left in that third week.
- The scheduler's default focus goal is 10 hours (line 52). The insights
  use 15 (line 204).
- A zero-length busy event inside a free stretch still splits it into two
  slots, because merging touches only overlapping or adjacent blocks.
- Week offsets are plain differences of ISO week numbers (line 224). Near
  a year boundary they therefore jump.

## Model

| member | source | states |
|---|---|---|
| Consolidation.ClampToWindow | src/utils/scheduler.js:76-82 | An instant is covered by the clamped blocks exactly when it is inside the working window and covered by some event. Well-formed events give blocks confined to the window. Events already inside the window are kept unchanged. |
| Consolidation.SortByStart | src/utils/scheduler.js:83 | Definition: the blocks in start order. Each block is inserted before the first one that does not start earlier, so blocks with equal starts keep their input order. |
| Consolidation.SortByStartFacts | src/utils/scheduler.js:83 | The sorted blocks are ordered by start and are a permutation (same multiset) of the input. |
| Consolidation.SortByStartKeepsSorted | src/utils/scheduler.js:83 | The sort is stable, so blocks already in start order come out unchanged. |
| Consolidation.Merged | src/utils/scheduler.js:85-98 | Definition: the blocks folded left to right; a block that starts no later than the last merged end extends it to the later end, any other block is appended. |
| Consolidation.MergedFacts | src/utils/scheduler.js:85-98 | Merging sorted blocks gives no more blocks than the input, sorted and separated. They cover exactly the instants the input covers. Each one starts at an input start and ends at an input end. Already separated input is returned unchanged. |
| Consolidation.Merge | src/utils/scheduler.js:85-98 | The loop computes the merge of the sorted blocks, with the properties of `MergedFacts`. |
| Consolidation.MergedKeepsBounds | src/utils/scheduler.js:91-93 | Growing a block to the later of two ends keeps every merged block within the bounds its inputs obey. |
| Consolidation.Busy | src/utils/scheduler.js:76-98 | Definition: a day's busy blocks are its events clamped to the window, sorted by start, then merged. |
| Consolidation.BusyFacts | src/utils/scheduler.js:76-98 | The busy blocks are sorted and separated. They cover exactly the busy instants of the working window. For well-formed events they lie in the window and have positive length. Events that are already consolidated come out unchanged. |
| Consolidation.ConsolidateBusy | src/utils/scheduler.js:76-98 | Clamp, sort and merge in sequence compute the busy blocks. |
| FreeSlots.Gaps | src/utils/scheduler.js:101-112 | Definition: the stretches between a cursor and each busy block's start, with the cursor moved to the later of itself and the block's end, then the stretch from the cursor to the window's end. |
| FreeSlots.GapsCover | src/utils/scheduler.js:101-112 | The gaps cover exactly the window instants that no busy block covers. |
| FreeSlots.ComputeFreeSlots | src/utils/scheduler.js:101-112 | The cursor walk over the busy blocks produces exactly the gaps of the window. |
| FreeSlots.GapsOfWindow | src/utils/scheduler.js:101-112 | Over sorted busy blocks confined to the window, the gaps are nonempty, inside the window and chronological. They cover exactly the free instants of the window. No busy blocks gives the whole window; a fully busy window gives no slot. |
| FreeSlots.ExampleThreeMeetings | src/utils/scheduler.js:101-112 | Hours 9-17 with meetings 9-10, 12-12:30 and 15-16 leave exactly the slots 10-12, 12:30-15 and 16-17. |
| Placement.CandidateStart | src/utils/scheduler.js:309-312 | The candidate start is the preferred time clamped into the feasible starts of the slot. It equals the preferred time when that is feasible. |
| Placement.CandidateIsNearest | src/utils/scheduler.js:309-314 | No feasible start in the slot is closer to the preferred time than the candidate. |
| Placement.ActualDiffIsDistance | src/utils/scheduler.js:307-315 | For a slot that fits, the minimum of the slot-start distance and the candidate distance is the candidate distance. The slot-start comparison never decides anything. |
| Placement.ChosenIsUnique | src/utils/scheduler.js:317-323 | The chosen slot is unique: the strict comparison lets the earliest slot with the minimal distance win. |
| Placement.ScanBest | src/utils/scheduler.js:303-324 | The scan returns an index of the slot list or nothing. |
| Placement.ScanBestChosen | src/utils/scheduler.js:303-324 | The scan finds nothing exactly when no slot is long enough. Otherwise it returns the slot that fits with the least distance, the earliest one among equals. |
| Placement.BestFit | src/utils/scheduler.js:297-327 | Definition: the placement, at the candidate start, in the slot the scan chooses, or none. |
| Placement.BestFitFacts | src/utils/scheduler.js:297-327 | The best fit is none exactly when no slot is long enough. Otherwise it is the placement in a chosen slot, of exactly the required length and inside that slot. |
| Placement.FindBestFit | src/utils/scheduler.js:297-327 | The loop computes the best fit. It is null exactly when no slot is long enough; otherwise it is the placement in the chosen slot, of the required length and inside it. |
| Placement.Carved | src/utils/scheduler.js:329-344 | Definition: the first slot containing the used interval is replaced by its nonempty remainders before and after the interval; with no such slot the list is unchanged. |
| Placement.FirstContaining | src/utils/scheduler.js:331-333 | The index of the first slot that contains the used interval, or the list's length when none does. |
| Placement.Residuals | src/utils/scheduler.js:335-339 | Definition: the part of the slot before the used interval and the part after it, each kept only when nonempty, in that order. |
| Placement.CarvedCoverage | src/utils/scheduler.js:329-344 | Cutting the used interval out of a chronological slot list covers exactly the old free instants minus the used ones. The list is unchanged when no slot contains the interval. |
| Placement.CarvedLength | src/utils/scheduler.js:335-340 | Carving reduces the total free time by exactly the length of the used interval. |
| Placement.CarvedChronological | src/utils/scheduler.js:335-340 | Carving keeps the slots chronological and of positive length. |
| Placement.CarvedSplice | src/utils/scheduler.js:331-341 | Carving keeps every slot before the first containing slot `k`, and every slot after it, in place. Between them it puts at most two slots, each of positive length, inside slot `k`, and clear of the used interval. |
| Placement.RemoveSlotUsage | src/utils/scheduler.js:329-344 | The loop and the splices compute the carved list. When no slot contains the interval, the list comes back unchanged. |
| Placement.CarvedFacts | src/utils/scheduler.js:329-344 | Carving chronological positive slots keeps them chronological and positive. When some slot contains the interval, the new list covers the old free time minus the interval, and its total length drops by the interval's length. |
| Placement.ExampleLunchPlacement | src/utils/scheduler.js:297-327 | With free slots 10-12, 12:30-15 and 16-17, a one-hour lunch preferred at 12:00 goes to the second slot at 12:30-13:30. |
| FocusPacking.SlotBlocks | src/utils/scheduler.js:168-188 | Definition: the blocks of one slot, each the least of an hour, the slot's rest and the time still needed, laid from the slot's start while at least 30 minutes remain and time is still needed. |
| FocusPacking.Pack | src/utils/scheduler.js:163-190 | Definition: the blocks of each slot in turn, the need reduced by what earlier slots received; nothing when nothing is needed. |
| FocusPacking.SlotBlocksLayout | src/utils/scheduler.js:168-188 | The blocks of one slot lie inside it, back to back from its start. Each lasts at most an hour, and together they do not exceed what is needed. |
| FocusPacking.SlotBlocksStop | src/utils/scheduler.js:168 | Packing a slot stops only when under 30 minutes remain in it or the need is met. Only the last block can be shorter than 30 minutes. |
| FocusPacking.ExampleNinetyMinutes | src/utils/scheduler.js:168-188 | Ninety needed minutes in a long slot give a one-hour block followed by a thirty-minute block. |
| FocusPacking.PackInside | src/utils/scheduler.js:165-189 | Every focus block lies in a free slot and lasts more than zero and at most one hour. |
| FocusPacking.PackChronological | src/utils/scheduler.js:165-189 | Focus blocks over chronological slots are chronological, so they never overlap. |
| FocusPacking.PackTotal | src/utils/scheduler.js:161-189 | The focus blocks never add up to more than the needed time. |
| FocusPacking.PackShortIsLast | src/utils/scheduler.js:169 | A block shorter than 30 minutes can only be the last one. |
| FocusPacking.PackNothingLeft | src/utils/scheduler.js:163 | When nothing is needed (the goal is already met), no focus block is packed. |
| FocusPacking.PackFocus | src/utils/scheduler.js:163-190 | The nested loops produce the packed blocks, and the week tally grows by exactly their total. |
| FocusPacking.PackFacts | src/utils/scheduler.js:161-189 | Over chronological slots, every focus block lies in a free slot and lasts more than zero and at most an hour. The blocks are chronological and add up to between 0 and what was needed. Only the last can be shorter than 30 minutes. |
| Text.ContainsIffOccurs | src/utils/scheduler.js:32 | The recursive substring test holds exactly when the substring occurs at some position. |
| Text.ToLowerKeepsContains | src/utils/scheduler.js:115 | A substring of a text is still a substring after both are lower-cased. |
| Text.JoinSplit | src/utils/scheduler.js:278 | Joining the fields of a split gives back the original text. |
| Text.SplitJoin | src/utils/scheduler.js:278 | Splitting a join of separator-free fields gives back those fields. |
| Text.NatToStringValue | src/utils/scheduler.js:271 | The decimal form of a number is all digits, nonempty, and reads back as that number. |
| Text.Pad2Value | src/utils/scheduler.js:272-273 | Zero-padding to two places keeps the value, and gives two characters below 100. |
| Calendar.LocalDateString | src/utils/scheduler.js:270-275 | Definition: the year, the month and the day, month and day zero-padded to two digits, joined by dashes. |
| Calendar.DateStringRoundTrip | src/utils/scheduler.js:270-275 | The date key parses back to the date it was made from. |
| Calendar.DateStringInjective | src/utils/scheduler.js:270-275 | Different dates get different keys. |
| Calendar.DateStringShape | src/utils/scheduler.js:270-275 | For a four-digit year the key has 10 characters, with dashes at positions 4 and 7. |
| Calendar.ParseTimeString | src/utils/scheduler.js:277-279 | Definition: the text split at colons; the first two fields read as unsigned decimal hour and minute, none when there are fewer than two fields or either is not all digits. |
| Calendar.ParseTimeRoundTrip | src/utils/scheduler.js:277-279 | Parsing a zero-padded `HH:MM` gives back its hour and minute. |
| Calendar.ParseTimeNeedsSeparator | src/utils/scheduler.js:277-279 | A text without a colon yields no time (a missing minute is NaN). |
| Calendar.ParseTimeIgnoresSeconds | src/utils/scheduler.js:277-279 | Fields after the minute are ignored. |
| Calendar.TimeOn | src/utils/scheduler.js:69-73 | Definition: `setHours(h, m, 0, 0)` on a day, the day's midnight plus h hours and m minutes. |
| Calendar.TimeOnFields | src/utils/scheduler.js:119-121 | A time of day with hour below 24 and minute below 60 is set within that day, on a whole minute, and its hour and minute read back from the instant are the ones set. |
| Calendar.IsThisWeek | src/utils/scheduler.js:289-291 | Definition: the instant's ISO week number equals that of the run's instant. |
| Calendar.IsNextWeek | src/utils/scheduler.js:293-295 | Definition: the instant's ISO week number is one more than that of the run's instant. |
| Events.ToDayEvent | src/utils/scheduler.js:28-33 | Definition: a timed event becomes its interval, its summary or "Busy" when it has none, and whether that summary mentions the Cai tag. |
| Events.EventsOn | src/utils/scheduler.js:21-34 | Definition: the converted timed events whose start falls on the given date key, in fetch order. |
| Events.DateKeys | src/utils/scheduler.js:21-27 | Definition: the date keys of the starts of the timed events. |
| Events.EventsOnNonEmpty | src/utils/scheduler.js:21-34 | A date has grouped events exactly when some timed event starts on it. |
| Events.EventsOnMembers | src/utils/scheduler.js:21-34 | A date's group holds exactly the converted timed events starting on that date. |
| Events.GroupByDate | src/utils/scheduler.js:19-34 | The grouping loop yields a map keyed by exactly the dates of timed events. Each value is that date's events in fetch order. |
| Events.HasLunch | src/utils/scheduler.js:115 | Definition: some event of the day mentions "lunch" once lower-cased. |
| Events.HasCoffee | src/utils/scheduler.js:140 | Definition: some event of the day mentions "Coffee" or "Break". |
| Events.LunchRecognised | src/utils/scheduler.js:115 | The created lunch title contains "lunch" once lower-cased. |
| Events.CoffeeRecognised | src/utils/scheduler.js:140 | The created coffee title contains "Coffee". |
| Events.FocusRecognised | src/utils/scheduler.js:32-44 | The created focus title contains both "Focus Time" and the Cai tag. |
| Events.ManagedSummariesRecognised | src/utils/scheduler.js:44 | The lunch, coffee and focus events the engine creates are recognised on later runs: the lunch and coffee guards (lines 115, 140) hold for them, and seeding counts the focus event. |
| Events.SeededMs | src/utils/scheduler.js:42-50 | Definition: the total length of the timed Cai focus events starting in this week, or, for next week, starting in next week and not this week. |
| Events.SeededWithinFocus | src/utils/scheduler.js:42-50 | For well-formed events the two seeded tallies together never exceed the total Cai focus time, so no event is counted for both weeks. |
| Events.SeededNonNegative | src/utils/scheduler.js:41-50 | The seeded focus tallies are never negative. |
| Events.SeededCountsOwnFocus | src/utils/scheduler.js:41-50 | A focus event created this week raises the current-week tally by its length. |
| Events.SeedTallies | src/utils/scheduler.js:38-50 | The seeding loop computes the current-week and next-week focus sums. |
| Insights.InsightGoal | src/utils/scheduler.js:204 | Definition: the stored goal, or 15 hours when it is 0 or unset. |
| Insights.Record | src/utils/scheduler.js:230-251 | Definition: a focus event adds its length to focus time; a lunch or coffee event adds nothing; any other event adds it to meeting time, and also to one-on-one time with exactly two attendees and to recurring time when part of a series. |
| Insights.Bucket | src/utils/scheduler.js:219-251 | Definition: a week's bucket is every timed event of that week recorded in fetch order, from zero totals and the goal. |
| Insights.BucketPartition | src/utils/scheduler.js:232-251 | A week's focus time is the total of its focus events. Focus, meetings and lunch or breaks add up to the total event time of the week. The goal is carried unchanged. |
| Insights.BucketMeetings | src/utils/scheduler.js:234-250 | A week's meeting time is the total length of its meetings. Its one-on-one time is that of its meetings with exactly two attendees. Its recurring time is that of its meetings in a recurring series. |
| Insights.BucketBounds | src/utils/scheduler.js:235-251 | For well-formed events, focus time is non-negative. One-on-one and recurring time are each non-negative and at most the meeting time. |
| Insights.BucketIgnores | src/utils/scheduler.js:221-228 | All-day events and events of other weeks do not change a week's bucket. |
| Insights.ComputeInsights | src/utils/scheduler.js:203-252 | The result has exactly the offsets 0 to -4 as keys. Each value is that week's bucket, with goal 15 when none is set. |
| Insights.ExampleBuckets | src/utils/scheduler.js:208-252 | Take two focus hours, a recurring one-on-one hour, a lunch, an all-day event and a meeting in a later week, plus a 90-minute review the week before. They give exactly week 0 = (2 h focus, goal 15, 1 h meetings, 1 h one-on-one, 1 h recurring) and week -1 = (0, 15, 90 min, 0, 0). |
| Scheduler.FocusGoalMs | src/utils/scheduler.js:52 | Definition: the stored focus goal in hours, or 10 when it is 0 or unset, in milliseconds. |
| Scheduler.WorkWindow | src/utils/scheduler.js:66-73 | Definition: the working start and end, by default 09:00 and 17:00, set on the day; none when either does not parse. |
| Scheduler.DaySlots | src/utils/scheduler.js:66-112 | Definition: the gaps of the working window around the day's busy blocks, or no slot when a working hour does not parse. |
| Scheduler.DaySlotsFacts | src/utils/scheduler.js:66-112 | A day's free slots are chronological and nonempty. They cover exactly the instants inside the working window that no event of the day covers. None are left when a working hour does not parse. |
| Scheduler.DayFreeSlots | src/utils/scheduler.js:66-112 | The steps of the day compute its free slots. |
| Scheduler.Booking | src/utils/scheduler.js:124-136 | Definition: the best fit as a new event with the given title and colour, and the slots with it carved out; nothing and the same slots when nothing fits. |
| Scheduler.BookingFacts | src/utils/scheduler.js:124-136 | Booking finds nothing exactly when no slot fits, and then leaves the slots alone. Otherwise it creates the placement in a chosen slot with the given title, colour and length, and carves it out of the slots. The placement lies in free time and overlaps nothing created before, and the slots left stay free of everything created. |
| Scheduler.Book | src/utils/scheduler.js:124-136 | `findBestFit`, `createEvent` and `removeSlotUsage` in sequence compute the booking. |
| Scheduler.LunchBooking | src/utils/scheduler.js:114-137 | Definition: on a day with no lunch and a positive lunch duration whose preferred time parses, the booking of that many minutes near that time; otherwise nothing. |
| Scheduler.LunchAt | src/utils/scheduler.js:119-121 | Definition: the day's midnight set to the lunch preference, 12:00 when there is none, and no time when it does not parse. |
| Scheduler.CoffeeBooking | src/utils/scheduler.js:139-157 | Definition: on a day with no coffee break and a positive duration, the booking of that many minutes near 15:00; otherwise nothing. |
| Scheduler.BookLunch | src/utils/scheduler.js:114-137 | The lunch block of the day loop computes the lunch booking. |
| Scheduler.BookCoffee | src/utils/scheduler.js:139-157 | The coffee block of the day loop computes the coffee booking. |
| Scheduler.LunchStage | src/utils/scheduler.js:114-137 | A booked lunch lies in free time, has the lunch title, colour and duration, and exists only when the day has no lunch and the duration is positive. The slots left are free of it. |
| Scheduler.CoffeeStage | src/utils/scheduler.js:139-157 | A booked coffee break lies in free time not used by the lunch, has the coffee title, colour and duration, and exists only when the day has none and the duration is positive. The slots left are free of both. |
| Scheduler.FocusPlan | src/utils/scheduler.js:159-190 | Definition: after the lunch and coffee bookings, the focus blocks packed into the slots left for the goal minus the tally of the day's week (this week's, or next week's for any other week); the day's events are the bookings then the blocks, and only that tally grows, by the blocks' total. |
| Scheduler.WeekBefore | src/utils/scheduler.js:160-161 | Definition: the current week's tally when the day is in the current week, otherwise the next week's tally. A day of the third calendar week of the horizon therefore reads the next week's tally. |
| Scheduler.Charged | src/utils/scheduler.js:186-187 | Definition: the tallies with the added focus time charged to the tally `WeekBefore` reads, the other one unchanged. |
| Scheduler.PlanFocus | src/utils/scheduler.js:159-190 | The focus part of the day loop creates exactly the planned events and leaves exactly the planned tallies. |
| Scheduler.DayPlan | src/utils/scheduler.js:56-190 | Definition: a weekday's lunch booked in its free slots, then its coffee break in the slots left, then the focus plan over what remains. |
| Scheduler.FocusStage | src/utils/scheduler.js:159-190 | The focus events added after the lunch and coffee lie in free time, overlap nothing, and add exactly their total, between 0 and what is needed, to the focus time. |
| Scheduler.DayPlanFacts | src/utils/scheduler.js:56-190 | A weekday's planned events lie in its free time and overlap each other nowhere. They hold at most one lunch and one coffee break, each only when the day has none and its duration is positive, each of the preferred length, and otherwise only focus events. The focus added stays within what the week still needs, and only that week's tally grows, by exactly it. |
| Scheduler.ProcessDay | src/utils/scheduler.js:56-190 | The day loop's body creates exactly the day's planned events and leaves exactly the planned tallies. |
| Scheduler.DatePlan | src/utils/scheduler.js:55-63 | Definition: a weekend creates nothing and keeps the tallies; a weekday is planned over the events grouped under its date. |
| Scheduler.DayEvents | src/utils/scheduler.js:62-63 | Definition: the group of the day's date key, which is empty when no event starts on that date. |
| Scheduler.DatePlanFacts | src/utils/scheduler.js:55-63 | A weekend creates nothing and leaves the tallies as they are. A weekday creates events as `DayPlanFacts` states. Either way the added focus time is within what the week needs and is charged to its tally. |
| Scheduler.PlanDate | src/utils/scheduler.js:55-63 | One pass of the date loop creates exactly the date's planned events and leaves exactly the planned tallies. |
| Scheduler.Horizon | src/utils/scheduler.js:55-191 | The plan of the first `n` dates has one event list per date. |
| Scheduler.PlanFacts | src/utils/scheduler.js:55-191 | After any number of dates every created event is a lunch, coffee or focus event in the free time of a weekday so far. Each tally lies between its seed and the larger of its seed and the goal, and the tallies have grown by exactly the focus time created. |
| Scheduler.PlanDays | src/utils/scheduler.js:55-191 | In the plan every weekend date has no events. Every weekday has events in its own free time that overlap each other nowhere, of the kinds `DayPlanFacts` allows. |
| Scheduler.RunScheduler | src/utils/scheduler.js:7-201 | Without preferences nothing is created. Otherwise the created events are the plan's days one after the other, and the tallies left are the plan's. Each weekend adds nothing, and each weekday adds events as `PlanDays` states. Every created event is a lunch, coffee or focus event in the free time of a weekday of the horizon. Each tally starts at its seeded value and ends no higher than the larger of that value and the goal, and the tallies grow by exactly the focus time created. The insights are the five weekly buckets. |

## Left out

- Time zones, daylight saving and `Date` arithmetic are not modelled. The local date of an instant, the local midnight of each horizon day and whether it is a weekend day are inputs.
- `getWeekNumber` (ISO 8601 week numbering, lines 281-287) is an input function of the `Clock`, not computed. `new Date()` is the clock's `now`.
- Insights.ComputeInsights: durations stay integer milliseconds. The division into hours and the rounding to one decimal (`Math.round`, lines 230 and 255-260) are floating point and are not modelled.
- Calendar.ParseTimeString: only unsigned decimal fields are read (an empty field reads as 0). JavaScript `Number` would also accept surrounding white space, a sign, decimals and exponents; those texts yield `None` here, like text that is not a number at all.
- Scheduler.Preferences: lunch and coffee durations are integers, so `parseInt` of a stored text (lines 117 and 141) is not modelled. The focus goal is an integer too, though it is stored as text: the stored text "0" is truthy, so the source would read it as a goal of 0 (lines 52 and 204), while the model reads 0 as unset and applies the default. The settings slider cannot produce 0, since its minimum is 5.
- FocusPacking.PackFocus: focus time is exact integer milliseconds. The source keeps it as double seconds, `(end - start) / 1000` (lines 45, 162 and 166), and rebuilds each block's end as `new Date(start + secs * 1000)` (line 172), which truncates to whole milliseconds. When instants are not whole seconds, this can make a source block 1 ms shorter than the model's block. The model does not capture this.
- Text.ToLower covers ASCII letters only. Unicode case mapping is not modelled.
- Scheduler.LunchBooking: when the lunch preference does not parse, the source calls `findBestFit` with an invalid date and gets no slot. The model skips that call, with the same outcome.
- Scheduler.RunScheduler requires every timed event to end no earlier than it starts. The calendar service guarantees this; events that break it are outside the model.
- Events.SeedTallies walks the fetched events in order rather than the date groups (lines 42-43). The groups partition the timed events, so the sums are the same.
- The free-slot list is modelled by value. The in-place `splice` and the in-place growth of a merged block have no other alias in the source, so the result is the same.
- Logging, `chrome.storage` (lines 262-266), the `async` calls, `try`/`catch` and failures of `createEvent` are not modelled. `fetchCalendarEvents` is replaced by the event list passed in.
- `src/utils/calendar.js` (the network client), the background worker and the popup interface are not part of this model.

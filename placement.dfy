/**
 * Placement of a fixed-length item (lunch, a coffee break) in the free
 * slots of a day: `findBestFit` (src/utils/scheduler.js, lines 297-327) and
 * the carving of the used block out of its slot, `removeSlotUsage`
 * (lines 329-344).
 */
module Placement {
  import opened Wrappers
  import opened Intervals

  function Abs(x: int): int
  {
    if x < 0 then -x else x
  }

  /** Line 305: the slot can hold `d` milliseconds. */
  predicate Fits(slot: Interval, d: int)
  {
    slot.end - slot.start >= d
  }

  /**
   * Lines 309-312: start at the preferred instant `p`, moved up to the
   * slot's start if it is earlier, and down to the last start that still
   * fits if it is later.
   */
  function CandidateStart(slot: Interval, d: int, p: int): (c: int)
    ensures Fits(slot, d) ==> slot.start <= c <= slot.end - d
    ensures slot.start <= p <= slot.end - d ==> c == p
  {
    var c1 := if p < slot.start then slot.start else p;
    if p > slot.end - d then slot.end - d else c1
  }

  /** No start that fits in the slot is nearer to `p` than the candidate. */
  lemma CandidateIsNearest(slot: Interval, d: int, p: int, x: int)
    requires slot.start <= x <= slot.end - d
    ensures Abs(p - CandidateStart(slot, d, p)) <= Abs(p - x)
  {
  }

  /** The block placed in `slot` (lines 319-322). */
  function Placed(slot: Interval, d: int, p: int): Interval
  {
    Interval(CandidateStart(slot, d, p), CandidateStart(slot, d, p) + d)
  }

  /** What the search minimises: the distance from `p` to the candidate start (line 314). */
  function Distance(slot: Interval, d: int, p: int): int
  {
    Abs(p - CandidateStart(slot, d, p))
  }

  /** `actualDiff` of line 315: the smaller of the distances to the slot start and to the candidate. */
  function ActualDiff(slot: Interval, d: int, p: int): int
  {
    var diff1 := Abs(p - slot.start);
    var diff2 := Abs(p - CandidateStart(slot, d, p));
    if diff1 <= diff2 then diff1 else diff2
  }

  /**
   * In a slot that fits, the candidate is never farther from `p` than the
   * slot's start, so the `Math.min` of line 315 always yields `diff2`.
   */
  lemma ActualDiffIsDistance(slot: Interval, d: int, p: int)
    requires Fits(slot, d)
    ensures ActualDiff(slot, d, p) == Distance(slot, d, p)
  {
  }

  /**
   * Slot `k` is the choice of the scan: it fits, no fitting slot is nearer,
   * and every fitting slot before it is strictly farther (the strict `<` of
   * line 317 keeps the earliest of equally near slots).
   */
  predicate ChosenAt(slots: seq<Interval>, d: int, p: int, k: int)
  {
    && 0 <= k < |slots|
    && Fits(slots[k], d)
    && (forall j :: 0 <= j < |slots| && Fits(slots[j], d) ==> Distance(slots[k], d, p) <= Distance(slots[j], d, p))
    && (forall j :: 0 <= j < k && Fits(slots[j], d) ==> Distance(slots[j], d, p) > Distance(slots[k], d, p))
  }

  /** The choice is determined: at most one slot is chosen. */
  lemma ChosenIsUnique(slots: seq<Interval>, d: int, p: int, k1: int, k2: int)
    requires ChosenAt(slots, d, p, k1) && ChosenAt(slots, d, p, k2)
    ensures k1 == k2
  {
  }

  /**
   * The scan of lines 303-324 over `slots`, one slot at a time from the
   * first: the index of the slot kept so far, replaced only by a fitting
   * slot whose `actualDiff` is strictly smaller.
   */
  function ScanBest(slots: seq<Interval>, d: int, p: int): (r: Option<int>)
    ensures r.Some? ==> 0 <= r.value < |slots|
    decreases |slots|
  {
    if slots == [] then None
    else
      var n := |slots| - 1;
      var prev := ScanBest(slots[..n], d, p);
      if !Fits(slots[n], d) then prev
      else if prev.None? || ActualDiff(slots[n], d, p) < ActualDiff(slots[prev.value], d, p) then Some(n)
      else prev
  }

  /** The scan finds nothing exactly when no slot fits, and otherwise the chosen slot. */
  lemma {:induction false} ScanBestChosen(slots: seq<Interval>, d: int, p: int)
    ensures ScanBest(slots, d, p).None? <==> forall j :: 0 <= j < |slots| ==> !Fits(slots[j], d)
    ensures ScanBest(slots, d, p).Some? ==> ChosenAt(slots, d, p, ScanBest(slots, d, p).value)
    decreases |slots|
  {
    if slots != [] {
      var n := |slots| - 1;
      var pre := slots[..n];
      ScanBestChosen(pre, d, p);
      assert forall j :: 0 <= j < n ==> pre[j] == slots[j];
      var prev := ScanBest(pre, d, p);
      if Fits(slots[n], d) {
        ActualDiffIsDistance(slots[n], d, p);
        if prev.Some? {
          ActualDiffIsDistance(slots[prev.value], d, p);
        }
      }
    }
  }

  /** Lines 297-327 as a function: the placement in the slot the scan keeps. */
  function BestFit(slots: seq<Interval>, requiredMins: int, preferred: int): Option<Interval>
  {
    var d := requiredMins * Minute;
    var k := ScanBest(slots, d, preferred);
    if k.None? then None else Some(Placed(slots[k.value], d, preferred))
  }

  /**
   * The best fit is null exactly when no slot is long enough; otherwise it
   * is the placement in the chosen slot, of the required length and inside
   * that slot.
   */
  lemma BestFitFacts(slots: seq<Interval>, requiredMins: int, preferred: int)
    ensures var best := BestFit(slots, requiredMins, preferred);
      && (best.None? <==> forall s :: s in slots ==> !Fits(s, requiredMins * Minute))
      && (best.Some? ==> exists k :: ChosenAt(slots, requiredMins * Minute, preferred, k)
                                    && best.value == Placed(slots[k], requiredMins * Minute, preferred))
      && (best.Some? ==> Len(best.value) == requiredMins * Minute
                         && exists s :: s in slots && Inside(best.value, s))
  {
    var d := requiredMins * Minute;
    ScanBestChosen(slots, d, preferred);
    var k := ScanBest(slots, d, preferred);
    if k.Some? {
      assert slots[k.value] in slots;
    } else {
      forall s | s in slots ensures !Fits(s, d) {
        var j :| 0 <= j < |slots| && slots[j] == s;
      }
    }
  }

  /**
   * Lines 297-327: the block of `requiredMins` minutes nearest the preferred
   * instant, or `None` when no slot is long enough.
   */
  method FindBestFit(slots: seq<Interval>, requiredMins: int, preferred: int) returns (best: Option<Interval>)
    ensures best == BestFit(slots, requiredMins, preferred)
    ensures best.None? <==> forall s :: s in slots ==> !Fits(s, requiredMins * Minute)
    ensures best.Some? ==> exists k :: ChosenAt(slots, requiredMins * Minute, preferred, k)
                                     && best.value == Placed(slots[k], requiredMins * Minute, preferred)
    ensures best.Some? ==> Len(best.value) == requiredMins * Minute
                           && exists s :: s in slots && Inside(best.value, s)
  {
    var requiredMs := requiredMins * Minute;
    best := None;
    var minDiff: Option<int> := None;
    ghost var bestIndex := 0;
    var i := 0;
    while i < |slots|
      invariant 0 <= i <= |slots|
      invariant best.None? <==> minDiff.None?
      invariant best.None? <==> forall j :: 0 <= j < i ==> !Fits(slots[j], requiredMs)
      invariant best.Some? ==> ChosenAt(slots[..i], requiredMs, preferred, bestIndex)
                               && bestIndex < i
                               && best.value == Placed(slots[bestIndex], requiredMs, preferred)
                               && minDiff.value == Distance(slots[bestIndex], requiredMs, preferred)
    {
      var slot := slots[i];
      if slot.end - slot.start >= requiredMs {
        var diff1 := Abs(preferred - slot.start);
        var potentialStart := preferred;
        if preferred < slot.start {
          potentialStart := slot.start;
        }
        if preferred > slot.end - requiredMs {
          potentialStart := slot.end - requiredMs;
        }
        var diff2 := Abs(preferred - potentialStart);
        var actualDiff := if diff1 <= diff2 then diff1 else diff2;
        assert potentialStart == CandidateStart(slot, requiredMs, preferred);
        ActualDiffIsDistance(slot, requiredMs, preferred);
        if minDiff.None? || actualDiff < minDiff.value {
          minDiff := Some(actualDiff);
          best := Some(Interval(potentialStart, potentialStart + requiredMs));
          bestIndex := i;
        }
      }
      i := i + 1;
    }
    assert slots[..i] == slots;
    ScanBestChosen(slots, requiredMs, preferred);
    BestFitFacts(slots, requiredMins, preferred);
    if best.Some? {
      ChosenIsUnique(slots, requiredMs, preferred, bestIndex, ScanBest(slots, requiredMs, preferred).value);
    }
  }

  /** Index of the first slot that contains `used`, or `|slots|` if none does (lines 331-333). */
  function FirstContaining(slots: seq<Interval>, used: Interval): (k: nat)
    ensures k <= |slots|
    ensures k < |slots| ==> Inside(used, slots[k])
    ensures forall j :: 0 <= j < k ==> !Inside(used, slots[j])
  {
    if slots == [] then 0
    else if Inside(used, slots[0]) then 0
    else 1 + FirstContaining(slots[1..], used)
  }

  /**
   * Lines 335-340: what is left of `slot` once `used` is taken from it — the
   * part before `used`, then the part after it, each only if non-empty.
   */
  function Residuals(slot: Interval, used: Interval): seq<Interval>
  {
    (if used.start > slot.start then [Interval(slot.start, used.start)] else [])
    + (if slot.end > used.end then [Interval(used.end, slot.end)] else [])
  }

  /** The slot list after `removeSlotUsage`. */
  function Carved(slots: seq<Interval>, used: Interval): seq<Interval>
  {
    var k := FirstContaining(slots, used);
    if k == |slots| then slots else slots[..k] + Residuals(slots[k], used) + slots[k + 1..]
  }

  /** The residuals of a slot hold exactly its instants outside `used`, in order and within it. */
  lemma ResidualsFacts(slot: Interval, used: Interval)
    requires Inside(used, slot) && used.start <= used.end
    ensures forall r :: r in Residuals(slot, used) ==> r.start < r.end && Inside(r, slot)
    ensures Chronological(Residuals(slot, used))
    ensures forall t :: Covers(Residuals(slot, used), t) <==> Has(slot, t) && !Has(used, t)
    ensures TotalLength(Residuals(slot, used)) == Len(slot) - Len(used)
  {
    var a := if used.start > slot.start then [Interval(slot.start, used.start)] else [];
    var b := if slot.end > used.end then [Interval(used.end, slot.end)] else [];
    assert Residuals(slot, used) == a + b;
    TotalLengthAppend(a, b);
    forall t ensures Covers(a + b, t) <==> Has(slot, t) && !Has(used, t) {
      CoversAppend(a, b, t);
      if a != [] { CoversSingleton(a[0], t); }
      if b != [] { CoversSingleton(b[0], t); }
    }
  }

  /** Replacing slot `k` of a chronological list by chronological intervals inside it keeps the list chronological. */
  lemma SpliceChronological(slots: seq<Interval>, k: int, res: seq<Interval>)
    requires Chronological(slots) && 0 <= k < |slots| && slots[k].start <= slots[k].end
    requires Chronological(res) && forall r :: r in res ==> Inside(r, slots[k])
    ensures Chronological(slots[..k] + res + slots[k + 1..])
  {
    var pre, post := slots[..k], slots[k + 1..];
    ChronologicalAround(slots, k);
    forall x, y | x in pre && y in res ensures x.end <= y.start {
      assert Inside(y, slots[k]);
    }
    ChronologicalAppend(pre, res);
    forall x, y | x in pre + res && y in post ensures x.end <= y.start {
      if x in res {
        assert Inside(x, slots[k]);
      } else {
        assert x in pre;
      }
    }
    ChronologicalAppend(pre + res, post);
  }

  /** Replacing slot `k` by non-empty intervals keeps every slot non-empty. */
  lemma SplicePositive(slots: seq<Interval>, k: int, res: seq<Interval>)
    requires 0 <= k < |slots|
    requires forall s :: s in slots ==> s.start < s.end
    requires forall r :: r in res ==> r.start < r.end
    ensures forall s :: s in slots[..k] + res + slots[k + 1..] ==> s.start < s.end
  {
    var pre, post := slots[..k], slots[k + 1..];
    forall s | s in pre + res + post ensures s.start < s.end {
      if s in pre {
        var i :| 0 <= i < k && pre[i] == s;
        assert slots[i] == s;
      } else if s in post {
        var i :| 0 <= i < |post| && post[i] == s;
        assert slots[k + 1 + i] == s;
      }
    }
  }

  /** Carving keeps the slots chronological and non-empty. */
  lemma CarvedChronological(slots: seq<Interval>, used: Interval)
    requires Chronological(slots) && used.start <= used.end
    requires forall s :: s in slots ==> s.start < s.end
    ensures Chronological(Carved(slots, used))
    ensures forall s :: s in Carved(slots, used) ==> s.start < s.end
  {
    var k := FirstContaining(slots, used);
    if k < |slots| {
      ResidualsFacts(slots[k], used);
      assert slots[k] in slots;
      SpliceChronological(slots, k, Residuals(slots[k], used));
      SplicePositive(slots, k, Residuals(slots[k], used));
    }
  }

  /** Carving away the slot at `k` replaces it by its residuals. */
  lemma CarvedShape(slots: seq<Interval>, used: Interval)
    requires FirstContaining(slots, used) < |slots|
    ensures var k := FirstContaining(slots, used);
      && slots == slots[..k] + [slots[k]] + slots[k + 1..]
      && Carved(slots, used) == slots[..k] + Residuals(slots[k], used) + slots[k + 1..]
  {
  }

  /**
   * Carving splices the slot list: the slots before the first one holding
   * `used` and the slots after it stay in place, and between them stand at
   * most two new slots, each non-empty, inside the replaced slot and wholly
   * before or wholly after `used`.
   */
  lemma CarvedSplice(slots: seq<Interval>, used: Interval)
    requires FirstContaining(slots, used) < |slots| && used.start <= used.end
    ensures var k := FirstContaining(slots, used);
      var r := Carved(slots, used);
      var n := |r| - (|slots| - k - 1);
      && k <= n <= k + 2 && n <= |r|
      && r[..k] == slots[..k]
      && r[n..] == slots[k + 1..]
      && forall j :: k <= j < n ==> 0 < Len(r[j]) && Inside(r[j], slots[k]) && (r[j].end <= used.start || used.end <= r[j].start)
  {
    var k := FirstContaining(slots, used);
    var res := Residuals(slots[k], used);
    CarvedShape(slots, used);
    ResidualsFacts(slots[k], used);
    SpliceParts(slots[..k], res, slots[k + 1..]);
    forall x | x in res
      ensures 0 < Len(x) && Inside(x, slots[k]) && (x.end <= used.start || used.end <= x.start)
    {
    }
  }

  /** The three parts of a concatenation are its prefix, its middle and its suffix. */
  lemma SpliceParts<T>(a: seq<T>, b: seq<T>, c: seq<T>)
    ensures (a + b + c)[..|a|] == a
    ensures (a + b + c)[|a| + |b|..] == c
    ensures forall j :: |a| <= j < |a| + |b| ==> (a + b + c)[j] in b
  {
    forall j | |a| <= j < |a| + |b|
      ensures (a + b + c)[j] in b
    {
      assert (a + b + c)[j] == b[j - |a|];
    }
  }

  /** In chronological slots, an instant of slot `k` lies in no other slot. */
  lemma OnlyOneSlotHas(slots: seq<Interval>, k: int, t: int)
    requires Chronological(slots) && 0 <= k < |slots| && Has(slots[k], t)
    ensures forall x :: x in slots[..k] ==> !Has(x, t)
    ensures forall x :: x in slots[k + 1..] ==> !Has(x, t)
  {
    forall x | x in slots[..k] ensures !Has(x, t) {
      var i :| 0 <= i < k && slots[..k][i] == x;
      assert slots[i] == x;
    }
    forall x | x in slots[k + 1..] ensures !Has(x, t) {
      var i :| 0 <= i < |slots| - k - 1 && slots[k + 1..][i] == x;
      assert slots[k + 1 + i] == x;
    }
  }

  lemma CarvedCoverageAt(slots: seq<Interval>, used: Interval, t: int)
    requires Chronological(slots) && used.start <= used.end
    requires FirstContaining(slots, used) < |slots|
    ensures Covers(Carved(slots, used), t) <==> Covers(slots, t) && !Has(used, t)
  {
    var k := FirstContaining(slots, used);
    var pre, slot, post := slots[..k], slots[k], slots[k + 1..];
    var res := Residuals(slot, used);
    ResidualsFacts(slot, used);
    CarvedShape(slots, used);
    CoversAppend(pre + res, post, t);
    CoversAppend(pre, res, t);
    CoversAppend(pre + [slot], post, t);
    CoversAppend(pre, [slot], t);
    CoversSingleton(slot, t);
    if Has(used, t) {
      OnlyOneSlotHas(slots, k, t);
    }
  }

  /**
   * When some slot contains `used`, carving frees exactly its instants:
   * what the slots covered, minus `used`. Otherwise nothing changes.
   */
  lemma CarvedCoverage(slots: seq<Interval>, used: Interval)
    requires Chronological(slots) && used.start <= used.end
    ensures FirstContaining(slots, used) == |slots| ==> Carved(slots, used) == slots
    ensures FirstContaining(slots, used) < |slots| ==>
      forall t :: Covers(Carved(slots, used), t) <==> Covers(slots, t) && !Has(used, t)
  {
    if FirstContaining(slots, used) < |slots| {
      forall t ensures Covers(Carved(slots, used), t) <==> Covers(slots, t) && !Has(used, t) {
        CarvedCoverageAt(slots, used, t);
      }
    }
  }

  /** When some slot contains `used`, total free time drops by exactly its length. */
  lemma CarvedLength(slots: seq<Interval>, used: Interval)
    requires FirstContaining(slots, used) < |slots| && used.start <= used.end
    ensures TotalLength(Carved(slots, used)) == TotalLength(slots) - Len(used)
  {
    var k := FirstContaining(slots, used);
    var pre, slot, post := slots[..k], slots[k], slots[k + 1..];
    var res := Residuals(slot, used);
    ResidualsFacts(slot, used);
    CarvedShape(slots, used);
    TotalLengthAppend(pre + [slot], post);
    TotalLengthAppend(pre, [slot]);
    TotalLengthAppend(pre + res, post);
    TotalLengthAppend(pre, res);
    assert TotalLength([slot]) == Len(slot) by {
      assert [slot][1..] == [];
    }
  }

  /**
   * Lines 329-344: `removeSlotUsage` replaces the first slot that contains
   * `used` by its residuals; the source splices the shared array in place,
   * the model returns the spliced list.
   */
  method RemoveSlotUsage(slots: seq<Interval>, used: Interval) returns (result: seq<Interval>)
    ensures result == Carved(slots, used)
    ensures (forall s :: s in slots ==> !Inside(used, s)) ==> result == slots
  {
    result := slots;
    var i := 0;
    while i < |slots|
      invariant 0 <= i <= |slots|
      invariant forall j :: 0 <= j < i ==> !Inside(used, slots[j])
      invariant result == slots
    {
      var slot := slots[i];
      if used.start >= slot.start && used.end <= slot.end {
        var newSlot1 := Interval(slot.start, used.start);
        var newSlot2 := Interval(used.end, slot.end);
        ghost var tail := slots[i + 1..];
        result := slots[..i] + slots[i + 1..];
        if newSlot2.end > newSlot2.start {
          SplitAt(slots[..i], tail);
          result := result[..i] + [newSlot2] + result[i..];
          tail := [newSlot2] + tail;
          assert result == slots[..i] + tail;
        }
        if newSlot1.end > newSlot1.start {
          SplitAt(slots[..i], tail);
          result := result[..i] + [newSlot1] + result[i..];
          tail := [newSlot1] + tail;
          assert result == slots[..i] + tail;
        }
        assert tail == Residuals(slot, used) + slots[i + 1..];
        assert FirstContaining(slots, used) == i by {
          FirstIsFirst(slots, used, i);
        }
        CarvedShape(slots, used);
        ConcatAssoc(slots[..i], Residuals(slot, used), slots[i + 1..]);
        break;
      }
      i := i + 1;
    }
    if i == |slots| {
      FirstIsFirst(slots, used, i);
    }
  }

  /**
   * Carving a span out of a chronological list of non-empty slots keeps
   * the list chronological and its slots non-empty; when some slot
   * contains the span, exactly the span's instants stop being free and
   * the free time shrinks by its length.
   */
  lemma CarvedFacts(slots: seq<Interval>, used: Interval)
    requires Chronological(slots) && used.start <= used.end && (forall s :: s in slots ==> s.start < s.end)
    ensures Chronological(Carved(slots, used))
    ensures forall s :: s in Carved(slots, used) ==> s.start < s.end
    ensures (exists s :: s in slots && Inside(used, s)) ==>
      && (forall t :: Covers(Carved(slots, used), t) <==> Covers(slots, t) && !Has(used, t))
      && TotalLength(Carved(slots, used)) == TotalLength(slots) - Len(used)
  {
    CarvedChronological(slots, used);
    if exists s :: s in slots && Inside(used, s) {
      ContainedFound(slots, used);
      CarvedCoverage(slots, used);
      CarvedLength(slots, used);
    }
  }

  /** When some slot contains `used`, the search for the first one succeeds. */
  lemma ContainedFound(slots: seq<Interval>, used: Interval)
    requires exists s :: s in slots && Inside(used, s)
    ensures FirstContaining(slots, used) < |slots|
  {
    var s :| s in slots && Inside(used, s);
    var j :| 0 <= j < |slots| && slots[j] == s;
    assert FirstContaining(slots, used) <= j;
  }

  /** Concatenation is associative. */
  lemma ConcatAssoc(a: seq<Interval>, b: seq<Interval>, c: seq<Interval>)
    ensures a + (b + c) == a + b + c
  {
  }

  /** A concatenation splits back into its parts. */
  lemma SplitAt(pre: seq<Interval>, post: seq<Interval>)
    ensures (pre + post)[..|pre|] == pre && (pre + post)[|pre|..] == post
  {
  }

  /** An index `i` with no containing slot before it, where slot `i` contains `used` or `i` is the end, is the first. */
  lemma FirstIsFirst(slots: seq<Interval>, used: Interval, i: nat)
    requires i <= |slots|
    requires forall j :: 0 <= j < i ==> !Inside(used, slots[j])
    requires i < |slots| ==> Inside(used, slots[i])
    ensures FirstContaining(slots, used) == i
  {
  }

  /**
   * With free slots 10:00-12:00, 12:30-15:00 and 16:00-17:00, a 60-minute
   * lunch preferred at 12:00 is chosen in the second slot, 12:30-13:30: its
   * candidate is 30 minutes away, the first slot's (11:00) 60 minutes.
   */
  lemma ExampleLunchPlacement()
    ensures var slots := [Interval(10 * Hour, 12 * Hour), Interval(12 * Hour + 30 * Minute, 15 * Hour),
                          Interval(16 * Hour, 17 * Hour)];
      && (forall k :: ChosenAt(slots, 60 * Minute, 12 * Hour, k) <==> k == 1)
      && Placed(slots[1], 60 * Minute, 12 * Hour) == Interval(12 * Hour + 30 * Minute, 13 * Hour + 30 * Minute)
  {
    var slots := [Interval(10 * Hour, 12 * Hour), Interval(12 * Hour + 30 * Minute, 15 * Hour),
                  Interval(16 * Hour, 17 * Hour)];
    var d, p := 60 * Minute, 12 * Hour;
    assert Distance(slots[0], d, p) == 60 * Minute;
    assert Distance(slots[1], d, p) == 30 * Minute;
    assert Distance(slots[2], d, p) == 4 * Hour;
    assert ChosenAt(slots, d, p, 1);
  }
}

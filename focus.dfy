/**
 * Focus-time packing of one day (src/utils/scheduler.js, lines 159-190):
 * every free slot, in order, is filled from its start with blocks of at most
 * an hour while at least half an hour of it is left and focus time is still
 * needed. The source counts seconds; the model counts milliseconds.
 */
module FocusPacking {
  import opened Intervals

  /** The shortest remainder of a slot that still receives a block (line 168). */
  const MinFocusMs: int := 1800 * 1000
  /** The longest block (line 169). */
  const MaxFocusMs: int := 3600 * 1000

  /**
   * The blocks placed in a slot whose unused part is `[start, end)` while
   * `needed` milliseconds are still wanted: each one takes
   * `min(3600 s, what is left of the slot, what is still needed)`.
   */
  function SlotBlocks(start: int, end: int, needed: int): seq<Interval>
    decreases end - start
  {
    if end - start >= MinFocusMs && needed > 0 then
      var b := Min(MaxFocusMs, Min(end - start, needed));
      [Interval(start, start + b)] + SlotBlocks(start + b, end, needed - b)
    else
      []
  }

  /** The blocks placed in `slots`, one slot after the other, the need shrinking as blocks are placed. */
  function Pack(slots: seq<Interval>, needed: int): seq<Interval>
  {
    if slots == [] then []
    else
      var here := SlotBlocks(slots[0].start, slots[0].end, needed);
      here + Pack(slots[1..], needed - TotalLength(here))
  }

  lemma TotalLengthCons(b: Interval, s: seq<Interval>)
    ensures TotalLength([b] + s) == Len(b) + TotalLength(s)
  {
    assert ([b] + s)[1..] == s;
  }

  /** The blocks of one slot lie inside it, each longer than zero and at most an hour, and add up to no more than what was needed. */
  lemma {:induction false} SlotBlocksBounds(start: int, end: int, needed: int)
    ensures var bs := SlotBlocks(start, end, needed);
      && (forall b :: b in bs ==> start <= b.start && b.end <= end && 0 < Len(b) <= MaxFocusMs)
      && 0 <= TotalLength(bs) <= (if needed > 0 then needed else 0)
    decreases end - start
  {
    if end - start >= MinFocusMs && needed > 0 {
      var b := Min(MaxFocusMs, Min(end - start, needed));
      var blk := Interval(start, start + b);
      var rest := SlotBlocks(start + b, end, needed - b);
      assert SlotBlocks(start, end, needed) == [blk] + rest;
      SlotBlocksBounds(start + b, end, needed - b);
      TotalLengthCons(blk, rest);
      forall x | x in [blk] + rest ensures start <= x.start && x.end <= end && 0 < Len(x) <= MaxFocusMs {
        if x != blk {
          assert x in rest;
        }
      }
    }
  }

  /** The blocks of one slot are laid end to end from the slot's start. */
  lemma {:induction false} SlotBlocksChain(start: int, end: int, needed: int)
    ensures var bs := SlotBlocks(start, end, needed);
      && (bs != [] ==> bs[0].start == start && bs[|bs| - 1].end == start + TotalLength(bs))
      && (forall i :: 0 <= i < |bs| - 1 ==> bs[i].end == bs[i + 1].start)
    decreases end - start
  {
    if end - start >= MinFocusMs && needed > 0 {
      var b := Min(MaxFocusMs, Min(end - start, needed));
      var blk := Interval(start, start + b);
      var rest := SlotBlocks(start + b, end, needed - b);
      var bs := [blk] + rest;
      SlotBlocksChain(start + b, end, needed - b);
      TotalLengthCons(blk, rest);
      forall i | 0 <= i < |bs| - 1 ensures bs[i].end == bs[i + 1].start {
        assert bs[i + 1] == rest[i];
        if i > 0 {
          assert bs[i] == rest[i - 1];
        }
      }
      if rest != [] {
        assert bs[|bs| - 1] == rest[|rest| - 1];
      }
    }
  }

  /**
   * The blocks of one slot are laid end to end from the slot's start, each
   * longer than zero and at most an hour, inside the slot, and together no
   * longer than what was needed.
   */
  lemma SlotBlocksLayout(start: int, end: int, needed: int)
    ensures var bs := SlotBlocks(start, end, needed);
      && (forall b :: b in bs ==> start <= b.start && b.end <= end && 0 < Len(b) <= MaxFocusMs)
      && (bs != [] ==> bs[0].start == start && bs[|bs| - 1].end == start + TotalLength(bs))
      && (forall i :: 0 <= i < |bs| - 1 ==> bs[i].end == bs[i + 1].start)
      && 0 <= TotalLength(bs) <= (if needed > 0 then needed else 0)
  {
    SlotBlocksBounds(start, end, needed);
    SlotBlocksChain(start, end, needed);
  }

  /**
   * Packing stops in a slot only when less than half an hour of it is left
   * or the need is met; a block shorter than half an hour is the last one
   * and meets the need exactly.
   */
  lemma {:induction false} SlotBlocksStop(start: int, end: int, needed: int)
    requires needed > 0
    ensures var bs := SlotBlocks(start, end, needed);
      && (end - (start + TotalLength(bs)) < MinFocusMs || TotalLength(bs) == needed)
      && (forall i :: 0 <= i < |bs| && Len(bs[i]) < MinFocusMs ==> i == |bs| - 1 && TotalLength(bs) == needed)
    decreases end - start
  {
    var bs := SlotBlocks(start, end, needed);
    if end - start >= MinFocusMs {
      var b := Min(MaxFocusMs, Min(end - start, needed));
      var blk := Interval(start, start + b);
      var rest := SlotBlocks(start + b, end, needed - b);
      assert bs == [blk] + rest;
      TotalLengthCons(blk, rest);
      if needed - b > 0 {
        SlotBlocksStop(start + b, end, needed - b);
        assert b >= MinFocusMs;
        forall i | 0 <= i < |bs| && Len(bs[i]) < MinFocusMs
          ensures i == |bs| - 1 && TotalLength(bs) == needed
        {
          assert i > 0 && bs[i] == rest[i - 1];
        }
      } else {
        assert rest == [];
      }
    }
  }

  /** Example: 90 minutes needed and one 90-minute slot give a 60-minute block, then a 30-minute one. */
  lemma ExampleNinetyMinutes(s: int)
    ensures SlotBlocks(s, s + 5400 * 1000, 5400 * 1000)
         == [Interval(s, s + 3600 * 1000), Interval(s + 3600 * 1000, s + 5400 * 1000)]
  {
    assert SlotBlocks(s + 5400 * 1000, s + 5400 * 1000, 0) == [];
    assert SlotBlocks(s + 3600 * 1000, s + 5400 * 1000, 1800 * 1000)
        == [Interval(s + 3600 * 1000, s + 5400 * 1000)];
  }

  /** A block of the packing lies inside one of the slots. */
  ghost predicate InSomeSlot(b: Interval, slots: seq<Interval>)
  {
    exists s :: s in slots && Inside(b, s)
  }

  lemma TailChronological(slots: seq<Interval>)
    requires slots != [] && Chronological(slots)
    ensures Chronological(slots[1..])
  {
    forall i, j | 0 <= i < j < |slots[1..]| ensures slots[1..][i].end <= slots[1..][j].start {
      assert slots[1..][i] == slots[i + 1] && slots[1..][j] == slots[j + 1];
    }
  }

  /** The packing of a nonempty slot list: the blocks of its first slot, then the packing of the others. */
  lemma PackUnfold(slots: seq<Interval>, needed: int)
    requires slots != []
    ensures var here := SlotBlocks(slots[0].start, slots[0].end, needed);
      Pack(slots, needed) == here + Pack(slots[1..], needed - TotalLength(here))
  {
  }

  /** A block inside one of the later slots is inside one of the slots. */
  lemma InLaterSlot(b: Interval, slots: seq<Interval>)
    requires slots != [] && InSomeSlot(b, slots[1..])
    ensures InSomeSlot(b, slots)
  {
    var x :| x in slots[1..] && Inside(b, x);
    var k :| 0 <= k < |slots[1..]| && slots[1..][k] == x;
    assert slots[k + 1] == x;
  }

  /** Every block of the packing is longer than zero, at most an hour, and inside one of the slots. */
  lemma {:induction false} PackInside(slots: seq<Interval>, needed: int)
    ensures forall b :: b in Pack(slots, needed) ==> InSomeSlot(b, slots) && 0 < Len(b) <= MaxFocusMs
  {
    if slots != [] {
      var s := slots[0];
      var here := SlotBlocks(s.start, s.end, needed);
      var left := needed - TotalLength(here);
      var rest := Pack(slots[1..], left);
      SlotBlocksBounds(s.start, s.end, needed);
      PackInside(slots[1..], left);
      PackUnfold(slots, needed);
      assert s in slots;
      forall b | b in here + rest ensures InSomeSlot(b, slots) && 0 < Len(b) <= MaxFocusMs {
        if b in here {
          assert Inside(b, s);
        } else {
          InLaterSlot(b, slots);
        }
      }
    }
  }

  /** A block of the packing that lies in a later slot starts after the first slot ends. */
  lemma LaterSlotBlocks(slots: seq<Interval>, b: Interval)
    requires slots != [] && Chronological(slots)
    requires InSomeSlot(b, slots[1..])
    ensures slots[0].end <= b.start
  {
    var x :| x in slots[1..] && Inside(b, x);
    var k :| 0 <= k < |slots[1..]| && slots[1..][k] == x;
    assert slots[k + 1] == x;
  }

  /** The packing is chronological when the slots are. */
  lemma {:induction false} PackChronological(slots: seq<Interval>, needed: int)
    requires Chronological(slots)
    ensures Chronological(Pack(slots, needed))
  {
    if slots != [] {
      var s := slots[0];
      var here := SlotBlocks(s.start, s.end, needed);
      var left := needed - TotalLength(here);
      var rest := Pack(slots[1..], left);
      assert Chronological(here) by {
        SlotBlocksBounds(s.start, s.end, needed);
        SlotBlocksChain(s.start, s.end, needed);
        ChainIsChronological(here);
      }
      assert Chronological(rest) by {
        TailChronological(slots);
        PackChronological(slots[1..], left);
      }
      assert forall x, y :: x in here && y in rest ==> x.end <= y.start by {
        SlotBlocksBounds(s.start, s.end, needed);
        PackInside(slots[1..], left);
        forall x, y | x in here && y in rest ensures x.end <= y.start {
          LaterSlotBlocks(slots, y);
        }
      }
      ChronologicalAppend(here, rest);
      PackUnfold(slots, needed);
      assert Pack(slots, needed) == here + rest;
    } else {
      assert Pack(slots, needed) == [];
    }
  }

  /** The packing is no longer in total than what was needed. */
  lemma {:induction false} PackTotal(slots: seq<Interval>, needed: int)
    ensures 0 <= TotalLength(Pack(slots, needed)) <= (if needed > 0 then needed else 0)
  {
    if slots != [] {
      var s := slots[0];
      var here := SlotBlocks(s.start, s.end, needed);
      var left := needed - TotalLength(here);
      var rest := Pack(slots[1..], left);
      SlotBlocksLayout(s.start, s.end, needed);
      PackTotal(slots[1..], left);
      assert Pack(slots, needed) == here + rest;
      TotalLengthAppend(here, rest);
      assert TotalLength(Pack(slots, needed)) == TotalLength(here) + TotalLength(rest);
      if needed <= 0 {
        assert TotalLength(here) == 0;
        assert TotalLength(rest) == 0;
      }
    }
  }

  /** Only the last of `bs` may be shorter than half an hour, and then `bs` add up to `needed`. */
  predicate ShortOnlyLast(bs: seq<Interval>, needed: int)
  {
    forall i :: 0 <= i < |bs| && Len(bs[i]) < MinFocusMs ==> i == |bs| - 1 && TotalLength(bs) == needed
  }

  /**
   * A block shorter than half an hour is the last block of the day, and with
   * it the need is met exactly: every other block is at least half an hour.
   */
  lemma {:induction false} PackShortIsLast(slots: seq<Interval>, needed: int)
    ensures ShortOnlyLast(Pack(slots, needed), needed)
  {
    if slots != [] && needed > 0 {
      var s := slots[0];
      var here := SlotBlocks(s.start, s.end, needed);
      var left := needed - TotalLength(here);
      var rest := Pack(slots[1..], left);
      var bs := here + rest;
      assert Pack(slots, needed) == bs;
      SlotBlocksStop(s.start, s.end, needed);
      PackShortIsLast(slots[1..], left);
      TotalLengthAppend(here, rest);
      forall i | 0 <= i < |bs| && Len(bs[i]) < MinFocusMs
        ensures i == |bs| - 1 && TotalLength(bs) == needed
      {
        if i < |here| {
          assert bs[i] == here[i];
          assert Len(here[i]) < MinFocusMs;
          assert i == |here| - 1 && TotalLength(here) == needed;
          PackNothingLeft(slots[1..], left);
          assert rest == [];
        } else {
          var k := i - |here|;
          assert bs[i] == rest[k];
          assert Len(rest[k]) < MinFocusMs;
          assert ShortOnlyLast(rest, left);
        }
      }
    } else if slots != [] {
      assert SlotBlocks(slots[0].start, slots[0].end, needed) == [];
      PackNothingLeft(slots[1..], needed);
      assert Pack(slots, needed) == [];
    }
  }

  lemma {:induction false} ChainIsChronological(bs: seq<Interval>)
    requires forall m :: 0 <= m < |bs| - 1 ==> bs[m].end <= bs[m + 1].start
    requires forall b :: b in bs ==> b.start < b.end
    ensures Chronological(bs)
    decreases |bs|
  {
    if |bs| > 1 {
      var tail := bs[1..];
      assert forall m :: 0 <= m < |tail| - 1 ==> tail[m].end <= tail[m + 1].start by {
        forall m | 0 <= m < |tail| - 1 ensures tail[m].end <= tail[m + 1].start {
          assert tail[m] == bs[m + 1] && tail[m + 1] == bs[m + 2];
        }
      }
      assert forall b :: b in tail ==> b in bs;
      ChainIsChronological(tail);
      forall i, j | 0 <= i < j < |bs| ensures bs[i].end <= bs[j].start {
        if i > 0 {
          assert bs[i] == tail[i - 1] && bs[j] == tail[j - 1];
        } else if j > 1 {
          assert bs[1] in bs;
          assert bs[j] == tail[j - 1] && bs[1] == tail[0];
        }
      }
    }
  }

  /** Once nothing is needed, packing places nothing. */
  lemma {:induction false} PackNothingLeft(slots: seq<Interval>, needed: int)
    requires needed <= 0
    ensures Pack(slots, needed) == []
  {
    if slots != [] {
      PackNothingLeft(slots[1..], needed);
    }
  }

  /** What is still to be placed from part `[start, end)` of one slot onwards, with `after` the later slots. */
  function Remaining(start: int, end: int, needed: int, after: seq<Interval>): seq<Interval>
  {
    var here := SlotBlocks(start, end, needed);
    here + Pack(after, needed - TotalLength(here))
  }

  /** One step of the inner loop: the next block, then what remains of the slot. */
  lemma RemainingStep(start: int, end: int, needed: int, after: seq<Interval>)
    requires end - start >= MinFocusMs && needed > 0
    ensures var b := Min(MaxFocusMs, Min(end - start, needed));
      Remaining(start, end, needed, after)
      == [Interval(start, start + b)] + Remaining(start + b, end, needed - b, after)
  {
    var b := Min(MaxFocusMs, Min(end - start, needed));
    var more := SlotBlocks(start + b, end, needed - b);
    TotalLengthCons(Interval(start, start + b), more);
  }

  /** A whole slot, then the later slots. */
  lemma PackFirstSlot(slots: seq<Interval>, i: int, needed: int)
    requires 0 <= i < |slots|
    ensures Pack(slots[i..], needed) == Remaining(slots[i].start, slots[i].end, needed, slots[i + 1..])
  {
    assert slots[i..][1..] == slots[i + 1..];
  }

  /** Leaving a slot when the inner loop stops: only the later slots remain. */
  lemma RemainingDone(start: int, end: int, needed: int, after: seq<Interval>)
    requires !(end - start >= MinFocusMs && needed > 0)
    ensures Remaining(start, end, needed, after) == Pack(after, needed)
  {
  }

  /** The inner loop's invariant survives the placement of one block. */
  lemma PlaceStep(blocks: seq<Interval>, start: int, end: int, needed: int, after: seq<Interval>, goal: seq<Interval>, b: int)
    requires end - start >= MinFocusMs && needed > 0
    requires b == Min(MaxFocusMs, Min(end - start, needed))
    requires blocks + Remaining(start, end, needed, after) == goal
    ensures (blocks + [Interval(start, start + b)]) + Remaining(start + b, end, needed - b, after) == goal
  {
    var focus := Interval(start, start + b);
    RemainingStep(start, end, needed, after);
    var r := Remaining(start + b, end, needed - b, after);
    assert blocks + ([focus] + r) == (blocks + [focus]) + r;
  }

  /** Appending a block adds its length to the total. */
  lemma TotalLengthSnoc(blocks: seq<Interval>, b: Interval)
    ensures TotalLength(blocks + [b]) == TotalLength(blocks) + Len(b)
  {
    TotalLengthAppend(blocks, [b]);
    TotalLengthCons(b, []);
  }

  /**
   * Lines 163-190: pack focus blocks into `slots` while `needed`
   * milliseconds are wanted, adding each block's length to the week tally.
   */
  method PackFocus(slots: seq<Interval>, needed: int, tally: int) returns (blocks: seq<Interval>, tally': int)
    ensures blocks == Pack(slots, needed)
    ensures tally' == tally + TotalLength(blocks)
  {
    blocks := [];
    tally' := tally;
    if needed <= 0 {
      PackNothingLeft(slots, needed);
    } else {
      var neededMs := needed;
      var i := 0;
      while i < |slots|
        invariant 0 <= i <= |slots|
        invariant blocks + Pack(slots[i..], neededMs) == Pack(slots, needed)
        invariant neededMs == needed - TotalLength(blocks)
        invariant tally' == tally + TotalLength(blocks)
      {
        var slot := slots[i];
        var slotStart := slot.start;
        ghost var after := slots[i + 1..];
        PackFirstSlot(slots, i, neededMs);
        while slot.end - slotStart >= MinFocusMs && neededMs > 0
          invariant blocks + Remaining(slotStart, slot.end, neededMs, after) == Pack(slots, needed)
          invariant neededMs == needed - TotalLength(blocks)
          invariant tally' == tally + TotalLength(blocks)
          decreases slot.end - slotStart
        {
          var focusBlockMs := Min(MaxFocusMs, Min(slot.end - slotStart, neededMs));
          var focus := Interval(slotStart, slotStart + focusBlockMs);
          PlaceStep(blocks, slotStart, slot.end, neededMs, after, Pack(slots, needed), focusBlockMs);
          TotalLengthSnoc(blocks, focus);
          blocks := blocks + [focus];
          slotStart := slotStart + focusBlockMs;
          neededMs := neededMs - focusBlockMs;
          tally' := tally' + focusBlockMs;
        }
        RemainingDone(slotStart, slot.end, neededMs, after);
        i := i + 1;
      }
      assert slots[i..] == [];
    }
  }

  /**
   * What the source promises of a day's focus blocks: each lies in a free
   * slot and lasts more than zero and at most an hour, they do not overlap,
   * together they stay within the need, and only the last can be shorter
   * than half an hour.
   */
  lemma PackFacts(slots: seq<Interval>, needed: int)
    requires Chronological(slots)
    ensures var blocks := Pack(slots, needed);
      && (forall b :: b in blocks ==> InSomeSlot(b, slots) && 0 < Len(b) <= MaxFocusMs)
      && Chronological(blocks)
      && 0 <= TotalLength(blocks) <= (if needed > 0 then needed else 0)
      && ShortOnlyLast(blocks, needed)
  {
    PackInside(slots, needed);
    PackChronological(slots, needed);
    PackTotal(slots, needed);
    PackShortIsLast(slots, needed);
  }
}

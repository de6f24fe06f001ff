/**
 * Free-slot computation of one working day (src/utils/scheduler.js,
 * lines 100-112): a cursor walks the consolidated busy blocks and emits the
 * gaps between them inside the working window.
 */
module FreeSlots {
  import opened Intervals
  import opened Consolidation

  /**
   * The gaps left by `busy` from instant `cursor` to `we`: before each block
   * the stretch from the cursor to the block's start, if any, and after the
   * last block the stretch to `we`, if any.
   */
  function Gaps(cursor: int, busy: seq<Interval>, we: int): seq<Interval>
    decreases |busy|
  {
    if busy == [] then
      (if cursor < we then [Interval(cursor, we)] else [])
    else
      (if cursor < busy[0].start then [Interval(cursor, busy[0].start)] else [])
      + Gaps(Max(cursor, busy[0].end), busy[1..], we)
  }

  /** Blocks that the cursor at `c` can meet: each ends in the window and either runs forwards or starts at or before `c`. */
  predicate Reachable(busy: seq<Interval>, c: int, we: int)
  {
    forall b :: b in busy ==> b.end <= we && (b.start <= b.end || b.start <= c)
  }

  lemma RestStartsLater(busy: seq<Interval>)
    requires SortedByStart(busy) && busy != []
    ensures forall x :: x in busy[1..] ==> busy[0].start <= x.start && x in busy
  {
    forall x | x in busy[1..] ensures busy[0].start <= x.start && x in busy {
      var k :| 0 <= k < |busy[1..]| && busy[1..][k] == x;
      assert busy[k + 1] == x;
    }
  }

  /** The gaps from `c` on are non-empty and lie in `[c, we)`. */
  lemma {:induction false} GapsInRange(c: int, busy: seq<Interval>, we: int)
    requires SortedByStart(busy) && Reachable(busy, c, we)
    ensures forall s :: s in Gaps(c, busy, we) ==> c <= s.start < s.end <= we
    decreases |busy|
  {
    if busy != [] {
      var b := busy[0];
      var c' := Max(c, b.end);
      assert b in busy;
      RestStartsLater(busy);
      GapsInRange(c', busy[1..], we);
    }
  }

  /** The gaps from `c` on are in chronological order. */
  lemma {:induction false} GapsChronological(c: int, busy: seq<Interval>, we: int)
    requires SortedByStart(busy) && Reachable(busy, c, we)
    ensures Chronological(Gaps(c, busy, we))
    decreases |busy|
  {
    if busy != [] {
      var b := busy[0];
      var c' := Max(c, b.end);
      var head := if c < b.start then [Interval(c, b.start)] else [];
      assert b in busy;
      RestStartsLater(busy);
      GapsChronological(c', busy[1..], we);
      GapsInRange(c', busy[1..], we);
      var tail := Gaps(c', busy[1..], we);
      forall x, y | x in head && y in tail ensures x.end <= y.start {
      }
      ChronologicalAppend(head, tail);
    }
  }

  /** The gaps from `c` on cover exactly the instants of `[c, we)` that no busy block covers. */
  lemma {:induction false} GapsCover(c: int, busy: seq<Interval>, we: int)
    requires SortedByStart(busy) && Reachable(busy, c, we)
    ensures forall t :: Covers(Gaps(c, busy, we), t) <==> c <= t < we && !Covers(busy, t)
    decreases |busy|
  {
    var g := Gaps(c, busy, we);
    if busy == [] {
      forall t ensures Covers(g, t) <==> c <= t < we && !Covers(busy, t) {
        if c < we { CoversSingleton(Interval(c, we), t); }
      }
    } else {
      var b := busy[0];
      var rest := busy[1..];
      var c' := Max(c, b.end);
      var head := if c < b.start then [Interval(c, b.start)] else [];
      assert busy == [b] + rest;
      assert b in busy;
      RestStartsLater(busy);
      GapsCover(c', rest, we);
      var tail := Gaps(c', rest, we);
      assert g == head + tail;
      forall t ensures Covers(g, t) <==> c <= t < we && !Covers(busy, t) {
        CoversAppend(head, tail, t);
        CoversAppend([b], rest, t);
        CoversSingleton(b, t);
        if c < b.start {
          CoversSingleton(Interval(c, b.start), t);
          assert t < b.start ==> !Covers(rest, t);
        }
      }
    }
  }

  /** The gaps of a window around confined, sorted busy blocks, and the two extreme cases. */
  lemma GapsOfWindow(busy: seq<Interval>, ws: int, we: int)
    requires SortedByStart(busy)
    requires forall b :: b in busy ==> Confined(b, ws, we)
    ensures forall s :: s in Gaps(ws, busy, we) ==> ws <= s.start < s.end <= we
    ensures Chronological(Gaps(ws, busy, we))
    ensures forall t :: Covers(Gaps(ws, busy, we), t) <==> ws <= t < we && !Covers(busy, t)
    ensures (forall t :: ws <= t < we ==> Covers(busy, t)) ==> Gaps(ws, busy, we) == []
    ensures busy == [] ==> Gaps(ws, busy, we) == (if ws < we then [Interval(ws, we)] else [])
  {
    GapsInRange(ws, busy, we);
    GapsChronological(ws, busy, we);
    GapsCover(ws, busy, we);
    var g := Gaps(ws, busy, we);
    if g != [] && (forall t :: ws <= t < we ==> Covers(busy, t)) {
      assert g[0] in g;
      assert Covers(g, g[0].start);
    }
  }

  /** One step of the cursor walk. */
  lemma GapsStep(cursor: int, busy: seq<Interval>, i: int, we: int)
    requires 0 <= i < |busy|
    ensures Gaps(cursor, busy[i..], we)
         == (if cursor < busy[i].start then [Interval(cursor, busy[i].start)] else [])
            + Gaps(Max(cursor, busy[i].end), busy[i + 1..], we)
  {
    assert busy[i..][1..] == busy[i + 1..];
  }

  /**
   * Lines 101-112: the free slots of the window `[ws, we)` around the
   * consolidated busy blocks are their gaps; `GapsOfWindow` states what
   * those are.
   */
  method ComputeFreeSlots(busy: seq<Interval>, ws: int, we: int) returns (free: seq<Interval>)
    requires SortedByStart(busy)
    requires forall b :: b in busy ==> Confined(b, ws, we)
    ensures free == Gaps(ws, busy, we)
  {
    free := [];
    var cursor := ws;
    var i := 0;
    while i < |busy|
      invariant 0 <= i <= |busy|
      invariant free + Gaps(cursor, busy[i..], we) == Gaps(ws, busy, we)
    {
      var block := busy[i];
      GapsStep(cursor, busy, i, we);
      ghost var rest := Gaps(Max(cursor, block.end), busy[i + 1..], we);
      if cursor < block.start {
        var gap := Interval(cursor, block.start);
        assert free + ([gap] + rest) == (free + [gap]) + rest;
        free := free + [gap];
      } else {
        assert [] + rest == rest;
      }
      cursor := Max(cursor, block.end);
      i := i + 1;
    }
    assert busy[i..] == [];
    if cursor < we {
      free := free + [Interval(cursor, we)];
    }
  }

  /**
   * A window 09:00-17:00 with meetings 09:00-10:00, 12:00-12:30 and
   * 15:00-16:00 leaves 10:00-12:00, 12:30-15:00 and 16:00-17:00 free.
   */
  lemma ExampleThreeMeetings()
    ensures Gaps(9 * Hour,
                 [Interval(9 * Hour, 10 * Hour), Interval(12 * Hour, 12 * Hour + 30 * Minute),
                  Interval(15 * Hour, 16 * Hour)],
                 17 * Hour)
         == [Interval(10 * Hour, 12 * Hour), Interval(12 * Hour + 30 * Minute, 15 * Hour),
             Interval(16 * Hour, 17 * Hour)]
  {
    var b1, b2, b3 := Interval(9 * Hour, 10 * Hour), Interval(12 * Hour, 12 * Hour + 30 * Minute),
                      Interval(15 * Hour, 16 * Hour);
    var busy := [b1, b2, b3];
    assert busy[1..] == [b2, b3] && busy[1..][1..] == [b3] && busy[1..][1..][1..] == [];
    assert Gaps(16 * Hour, [], 17 * Hour) == [Interval(16 * Hour, 17 * Hour)];
    assert Gaps(12 * Hour + 30 * Minute, [b3], 17 * Hour)
        == [Interval(12 * Hour + 30 * Minute, 15 * Hour), Interval(16 * Hour, 17 * Hour)];
    assert Gaps(10 * Hour, [b2, b3], 17 * Hour)
        == [Interval(10 * Hour, 12 * Hour), Interval(12 * Hour + 30 * Minute, 15 * Hour),
            Interval(16 * Hour, 17 * Hour)];
  }
}

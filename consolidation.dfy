/**
 * Busy-block preparation of one working day (src/utils/scheduler.js,
 * lines 76-98): keep the events that meet the working window, clamp them to
 * it, sort them by start and merge the ones that overlap or touch.
 */
module Consolidation {
  import opened Intervals

  /** Calendar intervals never end before they start. */
  predicate WellFormed(spans: seq<Interval>)
  {
    forall b :: b in spans ==> b.start <= b.end
  }

  /**
   * What clamping guarantees of a block: it lies in the window and either
   * runs forwards or starts at the window's start (the only way a block can
   * run backwards is a window whose end precedes its start).
   */
  predicate Confined(b: Interval, ws: int, we: int)
  {
    ws <= b.start && b.end <= we && (b.start <= b.end || b.start == ws)
  }

  /** A block that meets the window `[ws, we)` and lies inside it. */
  predicate InWindow(b: Interval, ws: int, we: int)
  {
    ws <= b.start <= b.end <= we && b.start < we && ws < b.end
  }

  /**
   * A busy list as the consolidation produces it for a window with
   * `ws <= we`: separated, and every block meets the window and lies in it.
   */
  predicate Consolidated(bs: seq<Interval>, ws: int, we: int)
  {
    Separated(bs) && forall b :: b in bs ==> InWindow(b, ws, we)
  }

  /** The filter and the clamping of lines 76-82, in input order. */
  function ClampToWindow(spans: seq<Interval>, ws: int, we: int): (r: seq<Interval>)
    ensures |r| <= |spans|
    ensures forall t :: Covers(r, t) <==> ws <= t < we && Covers(spans, t)
    ensures WellFormed(spans) ==> forall b :: b in r ==> Confined(b, ws, we)
    ensures WellFormed(spans) && ws < we ==> forall b :: b in r ==> InWindow(b, ws, we)
    ensures (forall b :: b in spans ==> b.start < b.end) && ws < we ==>
      forall b :: b in r ==> b.start < b.end
    ensures ws > we ==> forall b :: b in r ==> b == Interval(ws, we)
    ensures (forall b :: b in spans ==> InWindow(b, ws, we)) ==> r == spans
  {
    if spans == [] then []
    else
      var e := spans[0];
      var rest := ClampToWindow(spans[1..], ws, we);
      assert spans == [e] + spans[1..];
      assert e in spans;
      assert forall b :: b in spans[1..] ==> b in spans;
      assert forall t :: Covers(spans, t) <==> Has(e, t) || Covers(spans[1..], t) by {
        assert spans == [e] + spans[1..];
        forall t ensures Covers(spans, t) <==> Has(e, t) || Covers(spans[1..], t) {
          CoversAppend([e], spans[1..], t);
          CoversSingleton(e, t);
        }
      }
      if e.start < we && e.end > ws then
        var c := Interval(Max(e.start, ws), Min(e.end, we));
        assert forall t :: Covers([c] + rest, t) <==> Has(c, t) || Covers(rest, t) by {
          forall t ensures Covers([c] + rest, t) <==> Has(c, t) || Covers(rest, t) {
            CoversAppend([c], rest, t);
            CoversSingleton(c, t);
          }
        }
        [c] + rest
      else
        rest
  }

  /** A block starting no later than every block of a sorted list can go in front of it. */
  lemma SortedCons(x: Interval, rest: seq<Interval>)
    requires SortedByStart(rest)
    requires forall y :: y in rest ==> x.start <= y.start
    ensures SortedByStart([x] + rest)
  {
    var r := [x] + rest;
    forall i, j | 0 <= i < j < |r| ensures r[i].start <= r[j].start {
      assert r[j] == rest[j - 1];
      if i > 0 {
        assert r[i] == rest[i - 1];
      } else {
        assert rest[j - 1] in rest;
      }
    }
  }

  /** Inserts `b` before the first block that does not start earlier. */
  function InsertByStart(b: Interval, s: seq<Interval>): seq<Interval>
  {
    if s == [] || b.start <= s[0].start then [b] + s
    else [s[0]] + InsertByStart(b, s[1..])
  }

  /** Inserting adds exactly the one block. */
  lemma {:induction false} InsertByStartElements(b: Interval, s: seq<Interval>)
    ensures multiset(InsertByStart(b, s)) == multiset(s) + multiset{b}
    ensures forall x :: x in InsertByStart(b, s) ==> x == b || x in s
  {
    if !(s == [] || b.start <= s[0].start) {
      assert s == [s[0]] + s[1..];
      InsertByStartElements(b, s[1..]);
    }
  }

  /** A sorted list without its first block, every block of which starts no earlier than the first. */
  lemma SortedTail(s: seq<Interval>)
    requires SortedByStart(s) && s != []
    ensures SortedByStart(s[1..])
    ensures forall x :: x in s[1..] ==> s[0].start <= x.start
  {
    var t := s[1..];
    forall i, j | 0 <= i < j < |t| ensures t[i].start <= t[j].start {
      assert t[i] == s[i + 1] && t[j] == s[j + 1];
    }
    forall x | x in t ensures s[0].start <= x.start {
      var k :| 0 <= k < |t| && t[k] == x;
      assert s[k + 1] == x;
    }
  }

  /** Inserting into a sorted list keeps it sorted. */
  lemma {:induction false} InsertByStartSorted(b: Interval, s: seq<Interval>)
    requires SortedByStart(s)
    ensures SortedByStart(InsertByStart(b, s))
  {
    if s == [] || b.start <= s[0].start {
      forall y | y in s ensures b.start <= y.start {
        var k :| 0 <= k < |s| && s[k] == y;
      }
      SortedCons(b, s);
    } else {
      var rest := InsertByStart(b, s[1..]);
      SortedTail(s);
      InsertByStartSorted(b, s[1..]);
      InsertByStartElements(b, s[1..]);
      SortedCons(s[0], rest);
    }
  }

  /**
   * `Array.prototype.sort` with the comparator `a.start - b.start` (line 83),
   * a stable sort: blocks with equal starts keep their input order.
   */
  function SortByStart(s: seq<Interval>): seq<Interval>
  {
    if s == [] then [] else InsertByStart(s[0], SortByStart(s[1..]))
  }

  /** The sort yields a sorted permutation of its input. */
  lemma {:induction false} SortByStartFacts(s: seq<Interval>)
    ensures SortedByStart(SortByStart(s))
    ensures multiset(SortByStart(s)) == multiset(s)
  {
    if s != [] {
      assert s == [s[0]] + s[1..];
      SortByStartFacts(s[1..]);
      InsertByStartSorted(s[0], SortByStart(s[1..]));
      InsertByStartElements(s[0], SortByStart(s[1..]));
    }
  }

  /** The sort is stable: an input already in order comes out as it is. */
  lemma {:induction false} SortByStartKeepsSorted(s: seq<Interval>)
    requires SortedByStart(s)
    ensures SortByStart(s) == s
  {
    if s != [] {
      var t := s[1..];
      assert SortedByStart(t) by {
        SortedTail(s);
      }
      SortByStartKeepsSorted(t);
      assert t == [] || s[0].start <= t[0].start by {
        if t != [] {
          assert t[0] == s[1];
        }
      }
      assert SortByStart(s) == InsertByStart(s[0], t);
      assert s == [s[0]] + t;
    }
  }



  lemma SameElements(a: seq<Interval>, b: seq<Interval>)
    requires multiset(a) == multiset(b)
    ensures forall x :: x in a <==> x in b
    ensures forall t :: Covers(a, t) <==> Covers(b, t)
  {
    forall x
      ensures x in a <==> x in b
    {
      assert x in a <==> x in multiset(a);
      assert x in b <==> x in multiset(b);
    }
  }

  /**
   * Merged block `m` starts where some block of `blocks` starts, no earlier
   * than that block ends, and ends where some block of `blocks` ends.
   */
  predicate Origin(blocks: seq<Interval>, m: Interval)
  {
    && (exists j :: 0 <= j < |blocks| && blocks[j].start == m.start && blocks[j].end <= m.end)
    && (exists j :: 0 <= j < |blocks| && blocks[j].end == m.end)
  }

  /** Extending `last` by a block that starts inside it or at its end covers both. */
  lemma GrowCovers(prefix: seq<Interval>, last: Interval, block: Interval)
    requires last.start <= block.start <= last.end
    ensures forall t :: Covers(prefix + [Interval(last.start, Max(last.end, block.end))], t)
                        <==> Covers(prefix + [last], t) || Has(block, t)
  {
    var grown := Interval(last.start, Max(last.end, block.end));
    forall t
      ensures Covers(prefix + [grown], t) <==> Covers(prefix + [last], t) || Has(block, t)
    {
      CoversAppend(prefix, [grown], t);
      CoversAppend(prefix, [last], t);
      CoversSingleton(grown, t);
      CoversSingleton(last, t);
    }
  }

  lemma PushCovers(prefix: seq<Interval>, block: Interval)
    ensures forall t :: Covers(prefix + [block], t) <==> Covers(prefix, t) || Has(block, t)
  {
    forall t ensures Covers(prefix + [block], t) <==> Covers(prefix, t) || Has(block, t) {
      CoversAppend(prefix, [block], t);
      CoversSingleton(block, t);
    }
  }

  /** What the merge loop knows after consuming `blocks[..i]`. */
  ghost predicate MergeInvariant(blocks: seq<Interval>, i: nat, merged: seq<Interval>)
    requires i <= |blocks|
  {
    && |merged| <= i
    && SortedByStart(merged) && Separated(merged)
    && (forall k, j :: 0 <= k < |merged| && i <= j < |blocks| ==> merged[k].start <= blocks[j].start)
    && (forall t :: Covers(merged, t) <==> Covers(blocks[..i], t))
    && (forall m :: m in merged ==> Origin(blocks, m))
    && (Separated(blocks) ==> merged == blocks[..i])
  }

  /** Growing the last merged block keeps every start, so the order facts carry over. */
  lemma GrowKeepsOrder(blocks: seq<Interval>, i: nat, merged: seq<Interval>, grown: Interval)
    requires i < |blocks| && MergeInvariant(blocks, i, merged)
    requires merged != [] && grown.start == merged[|merged| - 1].start
    ensures var merged' := merged[..|merged| - 1] + [grown];
      && |merged'| <= i + 1
      && SortedByStart(merged') && Separated(merged')
      && (forall k, j :: 0 <= k < |merged'| && i + 1 <= j < |blocks| ==> merged'[k].start <= blocks[j].start)
  {
    var n := |merged| - 1;
    var merged' := merged[..n] + [grown];
    assert forall k :: 0 <= k < n ==> merged'[k] == merged[k];
    assert merged'[n] == grown;
    forall k | 0 <= k <= n ensures merged'[k].start == merged[k].start {
      if k < n {
        assert merged'[k] == merged[k];
      }
    }
  }

  /** The grown block starts where an input block starts and ends where one ends. */
  lemma GrowOrigin(blocks: seq<Interval>, i: nat, merged: seq<Interval>)
    requires i < |blocks| && MergeInvariant(blocks, i, merged)
    requires merged != []
    ensures var last := merged[|merged| - 1];
      forall m :: m in merged[..|merged| - 1] + [Interval(last.start, Max(last.end, blocks[i].end))] ==> Origin(blocks, m)
  {
    var block := blocks[i];
    var n := |merged| - 1;
    var last := merged[n];
    var grown := Interval(last.start, Max(last.end, block.end));
    assert last in merged;
    assert Origin(blocks, grown) by {
      var j :| 0 <= j < |blocks| && blocks[j].start == last.start && blocks[j].end <= last.end;
      var j' :| 0 <= j' < |blocks| && blocks[j'].end == last.end;
      if block.end > last.end {
        assert blocks[i].end == grown.end;
      } else {
        assert blocks[j'].end == grown.end;
      }
    }
    forall m | m in merged[..n] + [grown] ensures Origin(blocks, m) {
      if m != grown {
        assert m in merged[..n];
        var k :| 0 <= k < n && merged[..n][k] == m;
        assert merged[k] == m;
      }
    }
  }

  /** The step of line 93: the last merged block grows to cover `blocks[i]`. */
  lemma GrowStep(blocks: seq<Interval>, i: nat, merged: seq<Interval>)
    requires SortedByStart(blocks) && i < |blocks| && MergeInvariant(blocks, i, merged)
    requires merged != [] && blocks[i].start <= merged[|merged| - 1].end
    ensures var last := merged[|merged| - 1];
      MergeInvariant(blocks, i + 1,
        merged[..|merged| - 1] + [Interval(last.start, Max(last.end, blocks[i].end))])
  {
    var block := blocks[i];
    var n := |merged| - 1;
    var last := merged[n];
    var grown := Interval(last.start, Max(last.end, block.end));
    assert blocks[..i + 1] == blocks[..i] + [block];
    PushCovers(blocks[..i], block);
    assert merged == merged[..n] + [last];
    GrowCovers(merged[..n], last, block);
    GrowKeepsOrder(blocks, i, merged, grown);
    GrowOrigin(blocks, i, merged);
  }

  /** The step of lines 89 and 95: `blocks[i]` becomes a new merged block. */
  lemma PushStep(blocks: seq<Interval>, i: nat, merged: seq<Interval>)
    requires SortedByStart(blocks) && i < |blocks| && MergeInvariant(blocks, i, merged)
    requires merged == [] || blocks[i].start > merged[|merged| - 1].end
    ensures MergeInvariant(blocks, i + 1, merged + [blocks[i]])
  {
    var block := blocks[i];
    assert blocks[..i + 1] == blocks[..i] + [block];
    PushCovers(blocks[..i], block);
    PushCovers(merged, block);
    assert Origin(blocks, block) by {
      assert blocks[i].start == block.start && blocks[i].end == block.end;
    }
  }

  /**
   * One step of the merge loop of lines 86-98. A block that starts no later
   * than the end of the last merged block extends it
   * (`last.end = max(last.end, block.end)`); any other block is pushed as a
   * new merged block.
   */
  function MergeBlock(merged: seq<Interval>, block: Interval): seq<Interval>
  {
    if merged == [] then [block]
    else
      var last := merged[|merged| - 1];
      if block.start <= last.end then merged[..|merged| - 1] + [Interval(last.start, Max(last.end, block.end))]
      else merged + [block]
  }

  /** The merge of `blocks`, one block at a time from the first. */
  function Merged(blocks: seq<Interval>): seq<Interval>
    decreases |blocks|
  {
    if blocks == [] then [] else MergeBlock(Merged(blocks[..|blocks| - 1]), blocks[|blocks| - 1])
  }

  /** Merging one more block of the input is one more merge step. */
  lemma MergedSnoc(blocks: seq<Interval>, i: nat)
    requires i < |blocks|
    ensures Merged(blocks[..i + 1]) == MergeBlock(Merged(blocks[..i]), blocks[i])
  {
    assert blocks[..i + 1][..i] == blocks[..i];
  }

  /** The merge of every prefix of sorted blocks satisfies the merge invariant. */
  lemma {:induction false} MergedInvariant(blocks: seq<Interval>, n: nat)
    requires SortedByStart(blocks) && n <= |blocks|
    ensures MergeInvariant(blocks, n, Merged(blocks[..n]))
  {
    if n == 0 {
      assert blocks[..0] == [];
    } else {
      MergedInvariant(blocks, n - 1);
      MergedSnoc(blocks, n - 1);
      var m := Merged(blocks[..n - 1]);
      var next := MergeBlock(m, blocks[n - 1]);
      assert Merged(blocks[..n]) == next;
      if m == [] || blocks[n - 1].start > m[|m| - 1].end {
        PushStep(blocks, n - 1, m);
        assert next == m + [blocks[n - 1]];
      } else {
        GrowStep(blocks, n - 1, m);
      }
    }
  }

  /**
   * Merging sorted blocks gives sorted, separated blocks that cover exactly
   * the instants of the input, each starting and ending at an input block;
   * separated input comes back unchanged.
   */
  lemma MergedFacts(blocks: seq<Interval>)
    requires SortedByStart(blocks)
    ensures |Merged(blocks)| <= |blocks|
    ensures SortedByStart(Merged(blocks)) && Separated(Merged(blocks))
    ensures forall t :: Covers(Merged(blocks), t) <==> Covers(blocks, t)
    ensures forall m :: m in Merged(blocks) ==> Origin(blocks, m)
    ensures Separated(blocks) ==> Merged(blocks) == blocks
  {
    MergedInvariant(blocks, |blocks|);
    assert blocks[..|blocks|] == blocks;
  }

  /** The merge loop of lines 86-98. */
  method Merge(blocks: seq<Interval>) returns (merged: seq<Interval>)
    requires SortedByStart(blocks)
    ensures merged == Merged(blocks)
    ensures |merged| <= |blocks|
    ensures SortedByStart(merged) && Separated(merged)
    ensures forall t :: Covers(merged, t) <==> Covers(blocks, t)
    ensures forall m :: m in merged ==> Origin(blocks, m)
    ensures Separated(blocks) ==> merged == blocks
  {
    merged := [];
    var i := 0;
    while i < |blocks|
      invariant 0 <= i <= |blocks|
      invariant merged == Merged(blocks[..i])
    {
      var block := blocks[i];
      MergedSnoc(blocks, i);
      if merged == [] {
        merged := [block];
      } else {
        var last := merged[|merged| - 1];
        if block.start <= last.end {
          merged := merged[..|merged| - 1] + [Interval(last.start, Max(last.end, block.end))];
        } else {
          merged := merged + [block];
        }
      }
      i := i + 1;
    }
    assert blocks[..i] == blocks;
    MergedFacts(blocks);
  }

  /** A merged block keeps every per-block property that clamping gave the inputs. */
  lemma MergedKeepsBounds(blocks: seq<Interval>, merged: seq<Interval>, ws: int, we: int)
    requires forall m :: m in merged ==> Origin(blocks, m)
    ensures (forall b :: b in blocks ==> Confined(b, ws, we)) ==> forall b :: b in merged ==> Confined(b, ws, we)
    ensures (forall b :: b in blocks ==> InWindow(b, ws, we)) ==> forall b :: b in merged ==> InWindow(b, ws, we)
    ensures (forall b :: b in blocks ==> b.start < b.end) ==> forall b :: b in merged ==> b.start < b.end
  {
    forall b | b in merged
      ensures (forall x :: x in blocks ==> Confined(x, ws, we)) ==> Confined(b, ws, we)
      ensures (forall x :: x in blocks ==> InWindow(x, ws, we)) ==> InWindow(b, ws, we)
      ensures (forall x :: x in blocks ==> x.start < x.end) ==> b.start < b.end
    {
      var j :| 0 <= j < |blocks| && blocks[j].start == b.start && blocks[j].end <= b.end;
      var j' :| 0 <= j' < |blocks| && blocks[j'].end == b.end;
      assert blocks[j] in blocks && blocks[j'] in blocks;
    }
  }

  lemma ConsolidatedIsSorted(bs: seq<Interval>, ws: int, we: int)
    requires Consolidated(bs, ws, we)
    ensures SortedByStart(bs)
  {
    forall i, j | 0 <= i < j < |bs| ensures bs[i].start <= bs[j].start {
      assert bs[i] in bs;
    }
  }

  /** Lines 76-98 as a whole: clamp to the window, sort by start, merge. */
  function Busy(spans: seq<Interval>, ws: int, we: int): seq<Interval>
  {
    Merged(SortByStart(ClampToWindow(spans, ws, we)))
  }

  /**
   * The consolidated busy blocks of the events whose intervals are `spans`,
   * for the working window `[ws, we)`: sorted and separated, covering exactly
   * the busy instants of the window, inside it, and positive when the
   * events are. Input already in that form comes back unchanged.
   */
  lemma BusyFacts(spans: seq<Interval>, ws: int, we: int)
    ensures var busy := Busy(spans, ws, we);
      && SortedByStart(busy) && Separated(busy)
      && (forall t :: Covers(busy, t) <==> ws <= t < we && Covers(spans, t))
      && (WellFormed(spans) ==> forall b :: b in busy ==> Confined(b, ws, we))
      && (WellFormed(spans) && ws < we ==> Consolidated(busy, ws, we))
      && ((forall b :: b in spans ==> b.start < b.end) && ws < we ==>
            forall b :: b in busy ==> b.start < b.end)
      && (Consolidated(spans, ws, we) ==> busy == spans)
  {
    var clamped := ClampToWindow(spans, ws, we);
    var sorted := SortByStart(clamped);
    SortByStartFacts(clamped);
    if SortedByStart(clamped) {
      SortByStartKeepsSorted(clamped);
    }
    SameElements(sorted, clamped);
    MergedFacts(sorted);
    MergedKeepsBounds(sorted, Merged(sorted), ws, we);
    if Consolidated(spans, ws, we) {
      ConsolidatedIsSorted(spans, ws, we);
    }
  }

  /** Lines 76-98: the busy blocks of the working window, computed step by step. */
  method ConsolidateBusy(spans: seq<Interval>, ws: int, we: int) returns (busy: seq<Interval>)
    ensures busy == Busy(spans, ws, we)
  {
    var clamped := ClampToWindow(spans, ws, we);
    var sorted := SortByStart(clamped);
    SortByStartFacts(clamped);
    busy := Merge(sorted);
  }
}

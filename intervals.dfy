/**
 * Half-open intervals of instants. Every instant of the scheduler is an
 * integer number of milliseconds, as JavaScript `Date` arithmetic yields.
 */
module Intervals {

  const Minute: int := 60000
  const Hour: int := 60 * Minute

  /** The instants `start <= t < end`. */
  datatype Interval = Interval(start: int, end: int)

  function Len(i: Interval): int
  {
    i.end - i.start
  }

  function Min(a: int, b: int): int
  {
    if a <= b then a else b
  }

  function Max(a: int, b: int): int
  {
    if a >= b then a else b
  }

  /** Instant `t` lies in interval `i`. */
  predicate Has(i: Interval, t: int)
  {
    i.start <= t < i.end
  }

  /** `inner` lies within `outer`. */
  predicate Inside(inner: Interval, outer: Interval)
  {
    outer.start <= inner.start && inner.end <= outer.end
  }

  /** Some interval of `s` holds instant `t`. */
  predicate Covers(s: seq<Interval>, t: int)
  {
    exists b :: b in s && Has(b, t)
  }

  /** Starts never decrease along `s`. */
  predicate SortedByStart(s: seq<Interval>)
  {
    forall i, j :: 0 <= i < j < |s| ==> s[i].start <= s[j].start
  }

  /** Each interval ends strictly before every later one starts. */
  predicate Separated(s: seq<Interval>)
  {
    forall i, j :: 0 <= i < j < |s| ==> s[i].end < s[j].start
  }

  /** Each interval ends no later than every later one starts. */
  predicate Chronological(s: seq<Interval>)
  {
    forall i, j :: 0 <= i < j < |s| ==> s[i].end <= s[j].start
  }

  /** Sum of the lengths of the intervals of `s`. */
  function TotalLength(s: seq<Interval>): int
  {
    if s == [] then 0 else Len(s[0]) + TotalLength(s[1..])
  }

  lemma {:induction false} TotalLengthAppend(a: seq<Interval>, b: seq<Interval>)
    ensures TotalLength(a + b) == TotalLength(a) + TotalLength(b)
  {
    if a == [] {
      assert a + b == b;
    } else {
      assert (a + b)[1..] == a[1..] + b;
      TotalLengthAppend(a[1..], b);
    }
  }

  lemma CoversSingleton(x: Interval, t: int)
    ensures Covers([x], t) <==> Has(x, t)
  {
    if Has(x, t) {
      assert x in [x];
    }
  }

  lemma CoversAppend(a: seq<Interval>, b: seq<Interval>, t: int)
    ensures Covers(a + b, t) <==> Covers(a, t) || Covers(b, t)
  {
    if Covers(a + b, t) {
      var x :| x in a + b && Has(x, t);
      assert x in a || x in b;
    }
    if Covers(a, t) {
      var x :| x in a && Has(x, t);
      assert x in a + b;
    }
    if Covers(b, t) {
      var x :| x in b && Has(x, t);
      assert x in a + b;
    }
  }
  /** Two chronological lists, the first ending before the second begins, make a chronological list. */
  lemma ChronologicalAppend(a: seq<Interval>, b: seq<Interval>)
    requires Chronological(a) && Chronological(b)
    requires forall x, y :: x in a && y in b ==> x.end <= y.start
    ensures Chronological(a + b)
  {
    var g := a + b;
    forall i, j | 0 <= i < j < |g| ensures g[i].end <= g[j].start {
      if j < |a| {
        assert g[i] == a[i] && g[j] == a[j];
      } else if i >= |a| {
        assert g[i] == b[i - |a|] && g[j] == b[j - |a|];
      } else {
        assert g[i] == a[i] && g[j] == b[j - |a|];
        assert a[i] in a && b[j - |a|] in b;
      }
    }
  }

  /** The intervals before and after position `k` of a chronological list. */
  lemma ChronologicalAround(s: seq<Interval>, k: int)
    requires Chronological(s) && 0 <= k < |s|
    ensures Chronological(s[..k]) && Chronological(s[k + 1..])
    ensures forall x :: x in s[..k] ==> x.end <= s[k].start
    ensures forall y :: y in s[k + 1..] ==> s[k].end <= y.start
  {
    forall x | x in s[..k] ensures x.end <= s[k].start {
      var i :| 0 <= i < k && s[..k][i] == x;
      assert s[i] == x;
    }
    forall y | y in s[k + 1..] ensures s[k].end <= y.start {
      var i :| 0 <= i < |s| - k - 1 && s[k + 1..][i] == y;
      assert s[k + 1 + i] == y;
    }
    var post := s[k + 1..];
    forall i, j | 0 <= i < j < |post| ensures post[i].end <= post[j].start {
      assert post[i] == s[k + 1 + i] && post[j] == s[k + 1 + j];
    }
  }
}

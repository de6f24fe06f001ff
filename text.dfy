/**
 * The string operations the scheduler relies on, on `seq<char>`:
 * `includes`, an ASCII `toLowerCase`, `split` on one character, decimal
 * digits for `Number(...)` and `String(n).padStart(2, '0')`.
 */
module Text {

  /** `s.includes(sub)`: `sub` occurs somewhere in `s`. */
  predicate Contains(s: string, sub: string)
    decreases |s|
  {
    sub <= s || (s != [] && Contains(s[1..], sub))
  }

  /** `Contains` means exactly that `sub` starts at some position of `s`. */
  lemma {:induction false} ContainsIffOccurs(s: string, sub: string)
    ensures Contains(s, sub) <==> exists i :: 0 <= i <= |s| && sub <= s[i..]
    decreases |s|
  {
    if s != [] {
      ContainsIffOccurs(s[1..], sub);
      if sub <= s {
        assert s[0..] == s;
      } else if Contains(s[1..], sub) {
        var i :| 0 <= i <= |s[1..]| && sub <= s[1..][i..];
        assert s[1..][i..] == s[i + 1..];
      }
      if exists i :: 0 <= i <= |s| && sub <= s[i..] {
        var i :| 0 <= i <= |s| && sub <= s[i..];
        if i > 0 {
          assert s[1..][i - 1..] == s[i..];
        } else {
          assert s[0..] == s;
        }
      }
    } else {
      assert forall i :: 0 <= i <= |s| ==> s[i..] == s;
    }
  }

  /** A string that lacks the first character of `sub` does not contain `sub`. */
  lemma {:induction false} LacksFirstChar(s: string, sub: string)
    requires sub != [] && sub[0] !in s
    ensures !Contains(s, sub)
    decreases |s|
  {
    if s != [] {
      assert s[1..] <= s[1..] && forall c :: c in s[1..] ==> c in s;
      LacksFirstChar(s[1..], sub);
    }
  }

  /** `sub` occurs in `pre + sub + post`. */
  lemma ContainsMiddle(pre: string, sub: string, post: string)
    ensures Contains(pre + sub + post, sub)
  {
    var s := pre + sub + post;
    assert sub <= s[|pre|..];
    ContainsIffOccurs(s, sub);
  }

  /** The ASCII lower-case of one character; every other character is kept. */
  function LowerChar(c: char): char
  {
    if 'A' <= c <= 'Z' then (c as int - 'A' as int + 'a' as int) as char else c
  }

  /** `s.toLowerCase()` on the ASCII letters. */
  function ToLower(s: string): (r: string)
    ensures |r| == |s|
  {
    seq(|s|, i requires 0 <= i < |s| => LowerChar(s[i]))
  }

  /** A match survives lower-casing both sides, so a case-insensitive search finds every exact match. */
  lemma ToLowerKeepsContains(s: string, sub: string)
    requires Contains(s, sub)
    ensures Contains(ToLower(s), ToLower(sub))
  {
    ContainsIffOccurs(s, sub);
    var i :| 0 <= i <= |s| && sub <= s[i..];
    assert ToLower(sub) <= ToLower(s)[i..] by {
      forall k | 0 <= k < |sub| ensures ToLower(sub)[k] == ToLower(s)[i..][k] {
        assert sub[k] == s[i + k];
      }
    }
    ContainsIffOccurs(ToLower(s), ToLower(sub));
  }

  /** `s.split(sep)`: the fields between the separators, empty ones included. */
  function Split(s: string, sep: char): (r: seq<string>)
    ensures |r| >= 1
    ensures forall f :: f in r ==> sep !in f
    decreases |s|
  {
    if s == [] then [[]]
    else
      var rest := Split(s[1..], sep);
      if s[0] == sep then [[]] + rest
      else [[s[0]] + rest[0]] + rest[1..]
  }

  /** `fields.join(sep)`. */
  function Join(fields: seq<string>, sep: char): string
    requires |fields| >= 1
    decreases |fields|
  {
    if |fields| == 1 then fields[0] else fields[0] + [sep] + Join(fields[1..], sep)
  }

  /** Joining the fields of a split gives the string back. */
  lemma {:induction false} JoinSplit(s: string, sep: char)
    ensures Join(Split(s, sep), sep) == s
    decreases |s|
  {
    if s != [] {
      var rest := Split(s[1..], sep);
      JoinSplit(s[1..], sep);
      if s[0] == sep {
        JoinEmptyCons(rest, sep);
      } else {
        JoinCharCons(s[0], rest, sep);
      }
      assert s == [s[0]] + s[1..];
    }
  }

  /** An empty first field joins as a leading separator. */
  lemma JoinEmptyCons(rest: seq<string>, sep: char)
    requires |rest| >= 1
    ensures Join([[]] + rest, sep) == [sep] + Join(rest, sep)
  {
    var r := [[]] + rest;
    assert r[0] == [] && r[1..] == rest;
  }

  /** A character put before the first field joins as a leading character. */
  lemma JoinCharCons(c: char, rest: seq<string>, sep: char)
    requires |rest| >= 1
    ensures Join([[c] + rest[0]] + rest[1..], sep) == [c] + Join(rest, sep)
  {
    var r := [[c] + rest[0]] + rest[1..];
    if |rest| > 1 {
      var j := Join(rest[1..], sep);
      assert r[1..] == rest[1..];
      assert ([c] + rest[0]) + [sep] + j == [c] + (rest[0] + [sep] + j);
    }
  }

  /** Splitting a string made of fields without the separator gives those fields back. */
  lemma {:induction false} SplitJoin(fields: seq<string>, sep: char)
    requires |fields| >= 1
    requires forall f :: f in fields ==> sep !in f
    ensures Split(Join(fields, sep), sep) == fields
    decreases |fields|, |fields[0]|
  {
    if |fields| == 1 {
      SplitField(fields[0], [], sep);
    } else {
      var tail := fields[1..];
      assert forall f :: f in tail ==> f in fields;
      SplitJoin(tail, sep);
      SplitField(fields[0], tail, sep);
    }
  }

  /** Splitting `field` followed, when `tail` is not empty, by a separator and the join of `tail`. */
  lemma {:induction false} SplitField(field: string, tail: seq<string>, sep: char)
    requires sep !in field
    requires tail != [] ==> Split(Join(tail, sep), sep) == tail
    ensures var s := if tail == [] then field else field + [sep] + Join(tail, sep);
      Split(s, sep) == [field] + tail
    decreases |field|
  {
    var s := if tail == [] then field else field + [sep] + Join(tail, sep);
    if field == [] {
      if tail != [] {
        assert s == [sep] + Join(tail, sep);
        assert s[1..] == Join(tail, sep);
      }
    } else {
      SplitField(field[1..], tail, sep);
      var s' := if tail == [] then field[1..] else field[1..] + [sep] + Join(tail, sep);
      assert s[1..] == s';
      assert s[0] == field[0];
      assert [field[0]] + field[1..] == field;
    }
  }

  /** A character is a decimal digit. */
  predicate IsDigit(c: char)
  {
    '0' <= c <= '9'
  }

  /** Every character of `s` is a decimal digit (the empty string included). */
  predicate IsDigits(s: string)
  {
    forall i :: 0 <= i < |s| ==> IsDigit(s[i])
  }

  /** The value of a decimal digit string, as `Number(s)` reads it; the empty string is 0. */
  function DigitsValue(s: string): nat
    requires IsDigits(s)
    decreases |s|
  {
    if s == [] then 0
    else DigitsValue(s[..|s| - 1]) * 10 + (s[|s| - 1] as int - '0' as int)
  }

  /** The decimal digit for `d`. */
  function DigitChar(d: nat): char
    requires d < 10
  {
    ('0' as int + d) as char
  }

  /** `String(n)` for a natural number: its decimal digits without leading zeros. */
  function NatToString(n: nat): string
    decreases n
  {
    if n < 10 then [DigitChar(n)] else NatToString(n / 10) + [DigitChar(n % 10)]
  }

  /** Reading back the digits of `n` gives `n`. */
  lemma {:induction false} NatToStringValue(n: nat)
    ensures IsDigits(NatToString(n)) && |NatToString(n)| >= 1
    ensures DigitsValue(NatToString(n)) == n
    decreases n
  {
    var s := NatToString(n);
    if n >= 10 {
      NatToStringValue(n / 10);
      assert s[..|s| - 1] == NatToString(n / 10);
    }
  }

  /** `String(n).padStart(2, '0')`. */
  function Pad2(n: nat): string
  {
    var s := NatToString(n);
    if |s| < 2 then "0" + s else s
  }

  /** Padding keeps the value and gives digits only, exactly two of them below 100. */
  lemma Pad2Value(n: nat)
    ensures IsDigits(Pad2(n)) && DigitsValue(Pad2(n)) == n
    ensures n < 100 ==> |Pad2(n)| == 2
  {
    NatToStringValue(n);
    if n >= 10 {
      if n < 100 {
        assert NatToString(n / 10) == [DigitChar(n / 10)];
      }
    } else {
      var p := Pad2(n);
      assert p == ['0', DigitChar(n)];
      assert p[..1] == "0" && p[..1][..0] == "";
      assert DigitsValue(p[..1]) == 0;
    }
  }

  /** A digit string holds no character that is not a digit. */
  lemma DigitsExclude(s: string, c: char)
    requires IsDigits(s) && !IsDigit(c)
    ensures c !in s
  {
    assert forall k :: 0 <= k < |s| ==> s[k] != c;
  }
}

/**
 * Shared vocabulary of the model: an optional value (the source's `T | null`),
 * order-preserving filtering (`Array.prototype.filter`), the handful of string
 * operations the source borrows from JavaScript (`toLowerCase`, `includes`,
 * `Number.prototype.toString`, `padStart`) and `Math.round` on a ratio.
 */
module Common {

  /** `T | null` in the source. */
  datatype Option<+T> = None | Some(value: T) {
    /** `x ?? fallback`: the carried value, or the fallback when there is none. */
    function GetOr(fallback: T): T {
      match this
      case Some(v) => v
      case None => fallback
    }
  }

  /** One octet. */
  type byte = b: int | 0 <= b < 256

  // ---------------------------------------------------------------------------
  // Sequences
  // ---------------------------------------------------------------------------

  /** `xs.filter(p)`: the elements satisfying `p`, in their original order. */
  function Filter<T(==,!new)>(xs: seq<T>, p: T -> bool): (r: seq<T>)
    ensures |r| <= |xs|
    ensures forall i :: 0 <= i < |r| ==> p(r[i])
  {
    if |xs| == 0 then []
    else
      var rest := Filter(xs[1..], p);
      if p(xs[0]) then [xs[0]] + rest else rest
  }

  /**
   * The filtered sequence holds exactly the elements satisfying `p`, no more
   * often than `xs` does, in the order of `xs`.
   */
  lemma {:induction false} FilterSpec<T(!new)>(xs: seq<T>, p: T -> bool)
    ensures forall x :: x in Filter(xs, p) <==> x in xs && p(x)
    ensures multiset(Filter(xs, p)) <= multiset(xs)
    ensures IsSubsequence(Filter(xs, p), xs)
  {
    if |xs| > 0 {
      FilterSpec(xs[1..], p);
      assert xs == [xs[0]] + xs[1..];
      var rest := Filter(xs[1..], p);
      if p(xs[0]) {
        assert ([xs[0]] + rest)[1..] == rest;
      } else {
        SubsequenceDropFront(rest, xs);
      }
    }
  }

  /** Each element kept occurs exactly as often as in `xs`; each dropped one not at all. */
  lemma {:induction false} FilterMultiplicity<T(!new)>(xs: seq<T>, p: T -> bool)
    ensures forall x :: multiset(Filter(xs, p))[x] == if p(x) then multiset(xs)[x] else 0
  {
    if |xs| > 0 {
      FilterMultiplicity(xs[1..], p);
      assert xs == [xs[0]] + xs[1..];
      assert multiset(xs) == multiset([xs[0]]) + multiset(xs[1..]);
    }
  }

  lemma SubsequenceDropFront<T(!new)>(sub: seq<T>, xs: seq<T>)
    requires |xs| > 0 && IsSubsequence(sub, xs[1..])
    ensures IsSubsequence(sub, xs)
  {
    if |sub| > 0 && sub[0] == xs[0] {
      SubsequenceWeaken(sub, xs[1..]);
    }
  }

  /** Dropping the head of a subsequence keeps it a subsequence. */
  lemma {:induction false} SubsequenceWeaken<T(!new)>(sub: seq<T>, xs: seq<T>)
    requires |sub| > 0 && IsSubsequence(sub, xs)
    ensures IsSubsequence(sub[1..], xs)
  {
    if |xs| > 0 {
      if sub[0] == xs[0] {
        SubsequenceDropFront(sub[1..], xs);
      } else {
        SubsequenceWeaken(sub, xs[1..]);
        SubsequenceDropFront(sub[1..], xs);
      }
    }
  }

  /** `sub` can be obtained from `xs` by deleting elements: the order is kept. */
  predicate IsSubsequence<T(==)>(sub: seq<T>, xs: seq<T>)
  {
    if |sub| == 0 then true
    else if |xs| == 0 then false
    else if sub[0] == xs[0] then IsSubsequence(sub[1..], xs[1..])
    else IsSubsequence(sub, xs[1..])
  }

  /** The number of elements of `xs` satisfying `p`, the source's `xs.filter(p).length`. */
  function Count<T(==,!new)>(xs: seq<T>, p: T -> bool): nat
  {
    |Filter(xs, p)|
  }

  /** Replacing one element changes a filtered count by what leaves and what enters. */
  lemma {:induction false} CountUpdate<T(!new)>(xs: seq<T>, i: nat, x: T, p: T -> bool)
    requires i < |xs|
    ensures Count(xs[i := x], p)
            == Count(xs, p) - (if p(xs[i]) then 1 else 0) + (if p(x) then 1 else 0)
  {
    if i == 0 {
      assert xs[i := x][1..] == xs[1..];
    } else {
      CountUpdate(xs[1..], i - 1, x, p);
      assert xs[i := x][1..] == xs[1..][i - 1 := x];
      assert xs[i := x][0] == xs[0];
    }
  }

  /** A filter whose predicate holds nowhere leaves nothing; one that finds something is non-empty. */
  lemma CountZeroIff<T(!new)>(xs: seq<T>, p: T -> bool)
    ensures Count(xs, p) == 0 <==> forall i :: 0 <= i < |xs| ==> !p(xs[i])
  {
    FilterSpec(xs, p);
    if Count(xs, p) != 0 {
      var r := Filter(xs, p);
      assert r[0] in r;
      assert r[0] in xs && p(r[0]);
    } else {
      forall i | 0 <= i < |xs| ensures !p(xs[i]) {
        assert xs[i] in xs;
      }
    }
  }

  /** Filtering with a predicate that keeps everything is the identity. */
  lemma {:induction false} FilterAll<T(!new)>(xs: seq<T>, p: T -> bool)
    requires forall i :: 0 <= i < |xs| ==> p(xs[i])
    ensures Filter(xs, p) == xs
  {
    if |xs| > 0 {
      FilterAll(xs[1..], p);
      assert xs == [xs[0]] + xs[1..];
    }
  }

  /** Filtering distributes over putting one element in front. */
  lemma FilterCons<T(!new)>(x: T, xs: seq<T>, p: T -> bool)
    ensures Filter([x] + xs, p) == (if p(x) then [x] else []) + Filter(xs, p)
  {
    assert ([x] + xs)[1..] == xs;
  }

  /** Filtering distributes over concatenation. */
  lemma {:induction false} FilterConcat<T(!new)>(xs: seq<T>, ys: seq<T>, p: T -> bool)
    ensures Filter(xs + ys, p) == Filter(xs, p) + Filter(ys, p)
  {
    if |xs| == 0 {
      assert xs + ys == ys;
    } else {
      FilterConcat(xs[1..], ys, p);
      assert xs + ys == [xs[0]] + (xs[1..] + ys);
      assert xs == [xs[0]] + xs[1..];
      FilterCons(xs[0], xs[1..] + ys, p);
      FilterCons(xs[0], xs[1..], p);
    }
  }

  /** Putting the same element in front of two sequences keeps a relation between their filters. */
  lemma FilterFrontShift<T(!new)>(a: T, xs: seq<T>, ys: seq<T>, extra: seq<T>, p: T -> bool)
    requires Filter(xs, p) == Filter(ys, p) + extra
    ensures Filter([a] + xs, p) == Filter([a] + ys, p) + extra
  {
    var h := if p(a) then [a] else [];
    calc {
      Filter([a] + xs, p);
      == { FilterCons(a, xs, p); }
      h + Filter(xs, p);
      ==
      h + (Filter(ys, p) + extra);
      ==
      (h + Filter(ys, p)) + extra;
      == { FilterCons(a, ys, p); }
      Filter([a] + ys, p) + extra;
    }
  }

  /** A filter drops nothing exactly when its predicate holds everywhere. */
  lemma {:induction false} FilterKeepsAllIff<T(!new)>(xs: seq<T>, p: T -> bool)
    ensures |Filter(xs, p)| == |xs| <==> forall i :: 0 <= i < |xs| ==> p(xs[i])
  {
    if |xs| > 0 {
      FilterKeepsAllIff(xs[1..], p);
      if forall i :: 0 <= i < |xs| ==> p(xs[i]) {
        assert forall i :: 0 <= i < |xs[1..]| ==> p(xs[1..][i]);
      } else if p(xs[0]) {
        var k :| 0 <= k < |xs| && !p(xs[k]);
        assert !p(xs[1..][k - 1]);
      }
    }
  }

  /** `xs.findIndex(p)`: the first position satisfying `p`, or `None` (the source's -1). */
  function FindIndex<T>(xs: seq<T>, p: T -> bool): (r: Option<nat>)
    ensures r.Some? ==> r.value < |xs| && p(xs[r.value]) && forall j :: 0 <= j < r.value ==> !p(xs[j])
    ensures r.None? ==> forall j :: 0 <= j < |xs| ==> !p(xs[j])
  {
    if |xs| == 0 then None
    else if p(xs[0]) then Some(0)
    else match FindIndex(xs[1..], p)
         case None => None
         case Some(i) => Some(i + 1)
  }

  /** No element occurs twice. */
  predicate Distinct<T(==)>(xs: seq<T>)
  {
    forall i, j :: 0 <= i < j < |xs| ==> xs[i] != xs[j]
  }

  /** `xs.slice(0, n)`, for a non-negative bound. */
  function Take<T>(xs: seq<T>, n: nat): (r: seq<T>)
    ensures |r| == if n < |xs| then n else |xs|
    ensures forall i :: 0 <= i < |r| ==> r[i] == xs[i]
  {
    if n < |xs| then xs[..n] else xs
  }

  // ---------------------------------------------------------------------------
  // Characters and strings
  // ---------------------------------------------------------------------------

  predicate IsDigit(c: char) { '0' <= c <= '9' }

  predicate AllDigits(s: string) { forall i :: 0 <= i < |s| ==> IsDigit(s[i]) }

  /** `String.prototype.toLowerCase` on one character (ASCII letters only). */
  function LowerChar(c: char): (r: char)
    ensures IsDigit(r) <==> IsDigit(c)
  {
    if 'A' <= c <= 'Z' then (c as int + 32) as char else c
  }

  /** `String.prototype.toUpperCase` on one character (ASCII letters only). */
  function UpperChar(c: char): char
  {
    if 'a' <= c <= 'z' then (c as int - 32) as char else c
  }

  function ToLower(s: string): (r: string)
    ensures |r| == |s|
    ensures forall i :: 0 <= i < |s| ==> r[i] == LowerChar(s[i])
  {
    if |s| == 0 then [] else [LowerChar(s[0])] + ToLower(s[1..])
  }

  function ToUpper(s: string): (r: string)
    ensures |r| == |s|
    ensures forall i :: 0 <= i < |s| ==> r[i] == UpperChar(s[i])
  {
    if |s| == 0 then [] else [UpperChar(s[0])] + ToUpper(s[1..])
  }

  /** `s.includes(sub)`: `sub` occurs in `s` at some position (the empty string occurs everywhere). */
  predicate Contains(s: string, sub: string)
  {
    sub <= s || (|s| > 0 && Contains(s[1..], sub))
  }

  /** A one-character text occurs exactly when the character does. */
  lemma {:induction false} ContainsChar(s: string, c: char)
    ensures Contains(s, [c]) <==> c in s
  {
    if |s| > 0 {
      ContainsChar(s[1..], c);
      assert s == [s[0]] + s[1..];
      assert [c] <= s <==> s[0] == c;
    }
  }

  /** `s.replace(/\D/g, '')`: the decimal digits of `s`, in order. */
  function DigitsOf(s: string): (r: string)
    ensures AllDigits(r)
    ensures |r| <= |s|
  {
    if |s| == 0 then []
    else if IsDigit(s[0]) then [s[0]] + DigitsOf(s[1..])
    else DigitsOf(s[1..])
  }

  lemma {:induction false} DigitsOfDigits(s: string)
    requires AllDigits(s)
    ensures DigitsOf(s) == s
  {
    if |s| > 0 {
      DigitsOfDigits(s[1..]);
    }
  }

  lemma {:induction false} DigitsOfNone(s: string)
    requires forall i :: 0 <= i < |s| ==> !IsDigit(s[i])
    ensures DigitsOf(s) == []
  {
    if |s| > 0 {
      DigitsOfNone(s[1..]);
    }
  }

  lemma {:induction false} DigitsOfConcat(a: string, b: string)
    ensures DigitsOf(a + b) == DigitsOf(a) + DigitsOf(b)
  {
    var t := a + b;
    if |a| == 0 {
      assert t == b;
    } else {
      assert t[0] == a[0] && t[1..] == a[1..] + b;
      DigitsOfConcat(a[1..], b);
      if IsDigit(a[0]) {
        assert DigitsOf(t) == [a[0]] + (DigitsOf(a[1..]) + DigitsOf(b));
      }
    }
  }

  /** `s.split(',')[0]`: the text before the first comma, or all of `s` when it has none. */
  function BeforeComma(s: string): (r: string)
    ensures r <= s
    ensures ',' !in r
    ensures |r| < |s| ==> s[|r|] == ','
  {
    if |s| == 0 || s[0] == ',' then [] else [s[0]] + BeforeComma(s[1..])
  }

  // ---------------------------------------------------------------------------
  // Decimal text
  // ---------------------------------------------------------------------------

  function DigitChar(d: nat): (c: char)
    requires d < 10
    ensures IsDigit(c)
  {
    ('0' as int + d) as char
  }

  function DigitValue(c: char): nat
    requires IsDigit(c)
  {
    c as int - '0' as int
  }

  /** `String(n)` for a non-negative integer: its decimal digits, without leading zeros. */
  function NatToString(n: nat): (r: string)
    ensures |r| >= 1 && AllDigits(r)
  {
    if n < 10 then [DigitChar(n)] else NatToString(n / 10) + [DigitChar(n % 10)]
  }

  /** `String(i)` for any integer: a minus sign before the magnitude when negative. */
  function IntToString(i: int): (r: string)
    ensures i >= 0 ==> r == NatToString(i)
    ensures i < 0 ==> r == "-" + NatToString(-i)
  {
    if i >= 0 then NatToString(i) else "-" + NatToString(-i)
  }

  /** The value of a string of decimal digits. */
  function ParseNat(s: string): nat
    requires AllDigits(s)
  {
    if |s| == 0 then 0 else 10 * ParseNat(s[..|s| - 1]) + DigitValue(s[|s| - 1])
  }

  /** Decimal text reads back as the number it was made from. */
  lemma {:induction false} ParseNatToString(n: nat)
    ensures ParseNat(NatToString(n)) == n
  {
    if n >= 10 {
      var s := NatToString(n);
      ParseNatToString(n / 10);
      assert s[..|s| - 1] == NatToString(n / 10);
    }
  }

  lemma NatToStringInjective(a: nat, b: nat)
    requires NatToString(a) == NatToString(b)
    ensures a == b
  {
    ParseNatToString(a);
    ParseNatToString(b);
  }

  /** `String(n).padStart(2, '0')` for `0 <= n < 100`: exactly two digits. */
  function TwoDigits(n: nat): (r: string)
    requires n < 100
    ensures |r| == 2 && AllDigits(r)
    ensures ParseNat(r) == n
  {
    var r := [DigitChar(n / 10), DigitChar(n % 10)];
    assert r[..1] == [DigitChar(n / 10)];
    assert ParseNat(r[..1]) == n / 10 by {
      assert r[..1][..0] == [];
    }
    r
  }

  /** `s.padStart(n, c)`: `c` repeated in front until the text is `n` long; a longer text is kept. */
  function PadStart(s: string, n: nat, c: char): (r: string)
    ensures |r| == if |s| < n then n else |s|
    ensures r[|r| - |s|..] == s
    ensures forall i :: 0 <= i < |r| - |s| ==> r[i] == c
  {
    if |s| < n then seq(n - |s|, _ => c) + s else s
  }

  /** The length of the longest run of digits `s` starts with. */
  function LeadingDigits(s: string): nat
  {
    if |s| == 0 || !IsDigit(s[0]) then 0 else 1 + LeadingDigits(s[1..])
  }

  lemma {:induction false} LeadingDigitsOfConcat(a: string, x: string)
    requires AllDigits(a)
    requires |x| == 0 || !IsDigit(x[0])
    ensures LeadingDigits(a + x) == |a|
  {
    if |a| == 0 {
      assert a + x == x;
    } else {
      LeadingDigitsOfConcat(a[1..], x);
      assert (a + x)[1..] == a[1..] + x;
    }
  }

  /** The leading run really is made of digits. */
  lemma {:induction false} LeadingDigitsPrefix(s: string)
    ensures LeadingDigits(s) <= |s|
    ensures AllDigits(s[..LeadingDigits(s)])
  {
    if |s| > 0 && IsDigit(s[0]) {
      LeadingDigitsPrefix(s[1..]);
      assert s[..LeadingDigits(s)] == [s[0]] + s[1..][..LeadingDigits(s[1..])];
    }
  }

  /**
   * A run of digits followed by text that does not start with a digit splits
   * in only one way: this is what lets formatted numbers be read back.
   */
  lemma DigitRunSplit(a: string, x: string, b: string, y: string)
    requires AllDigits(a) && AllDigits(b)
    requires |x| == 0 || !IsDigit(x[0])
    requires |y| == 0 || !IsDigit(y[0])
    requires a + x == b + y
    ensures a == b && x == y
  {
    LeadingDigitsOfConcat(a, x);
    LeadingDigitsOfConcat(b, y);
    if |a| == |b| {
      assert a == (a + x)[..|a|];
      assert b == (b + y)[..|b|];
      assert x == (a + x)[|a|..];
      assert y == (b + y)[|b|..];
    }
  }

  // ---------------------------------------------------------------------------
  // Rounding
  // ---------------------------------------------------------------------------

  /**
   * `Math.round(num / den)` for a positive denominator: the integer nearest to
   * the ratio, halves rounding up (towards positive infinity).
   */
  function RoundRatio(num: int, den: int): (r: int)
    requires den > 0
    ensures 2 * r * den - den <= 2 * num < 2 * r * den + den
  {
    var q := (2 * num + den) / (2 * den);
    DivBounds(2 * num + den, 2 * den);
    q
  }

  /** `Math.ceil(num / den)` for a positive denominator: the least integer not below the ratio. */
  function CeilRatio(num: int, den: int): (r: int)
    requires den > 0
    ensures den * (r - 1) < num <= den * r
  {
    var q := (num + den - 1) / den;
    DivBounds(num + den - 1, den);
    q
  }

  lemma DivBounds(a: int, b: int)
    requires b > 0
    ensures (a / b) * b <= a < (a / b) * b + b
  {
  }

  /** `Math.round(x)` on a real: the nearest integer, halves rounding up. */
  function RoundReal(x: real): (r: int)
    ensures r as real - 0.5 <= x < r as real + 0.5
  {
    (x + 0.5).Floor
  }
}

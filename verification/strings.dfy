/** String helpers: lower-casing, suffix tests, decimal rendering of counts. */
module Strings {

  /** `str.lower()` on one character: ASCII capitals become small letters. */
  function LowerChar(c: char): (r: char)
    ensures !('A' <= r <= 'Z')
    ensures r != c ==> 'A' <= c <= 'Z' && r as int == c as int + 32
  {
    if 'A' <= c <= 'Z' then (c as int - 'A' as int + 'a' as int) as char else c
  }

  /** `str.lower()` character by character. */
  function Lower(s: string): (r: string)
    ensures |r| == |s|
  {
    seq(|s|, i requires 0 <= i < |s| => LowerChar(s[i]))
  }

  /** After `lower()` no ASCII capital is left, and every other character is where it was. */
  lemma LowerLeavesNoCapitals(s: string)
    ensures forall i :: 0 <= i < |s| ==> !('A' <= Lower(s)[i] <= 'Z')
    ensures forall i :: 0 <= i < |s| && !('A' <= s[i] <= 'Z') ==> Lower(s)[i] == s[i]
  {
    forall i | 0 <= i < |s| ensures Lower(s)[i] == LowerChar(s[i]) {
    }
  }

  /** `s.endswith(suffix)` */
  predicate EndsWith(s: string, suffix: string) {
    |suffix| <= |s| && s[|s| - |suffix|..] == suffix
  }

  /** `s.endswith(suffixes)` for a tuple of suffixes. */
  predicate EndsWithAny(s: string, suffixes: seq<string>) {
    exists k :: 0 <= k < |suffixes| && EndsWith(s, suffixes[k])
  }

  /** A tuple of suffixes split in two: the string ends with one of the whole exactly when it ends with one of either part. */
  lemma EndsWithAnyConcat(s: string, xs: seq<string>, ys: seq<string>)
    ensures EndsWithAny(s, xs + ys) <==> EndsWithAny(s, xs) || EndsWithAny(s, ys)
  {
    if EndsWithAny(s, xs + ys) {
      var k :| 0 <= k < |xs + ys| && EndsWith(s, (xs + ys)[k]);
      if k < |xs| {
        assert EndsWith(s, xs[k]);
      } else {
        assert EndsWith(s, ys[k - |xs|]);
      }
    }
    if EndsWithAny(s, xs) {
      var k :| 0 <= k < |xs| && EndsWith(s, xs[k]);
      assert (xs + ys)[k] == xs[k];
    }
    if EndsWithAny(s, ys) {
      var k :| 0 <= k < |ys| && EndsWith(s, ys[k]);
      assert (xs + ys)[|xs| + k] == ys[k];
    }
  }

  /** `s.endswith((a, b, c))` */
  lemma EndsWithAny3(s: string, a: string, b: string, c: string)
    ensures EndsWithAny(s, [a, b, c]) <==> EndsWith(s, a) || EndsWith(s, b) || EndsWith(s, c)
  {
    var xs := [a, b, c];
    if EndsWith(s, a) { assert EndsWith(s, xs[0]); }
    if EndsWith(s, b) { assert EndsWith(s, xs[1]); }
    if EndsWith(s, c) { assert EndsWith(s, xs[2]); }
  }

  predicate IsDigit(c: char) {
    '0' <= c <= '9'
  }

  predicate AllDigits(s: string) {
    forall i :: 0 <= i < |s| ==> IsDigit(s[i])
  }

  function DigitChar(d: nat): (c: char)
    requires d < 10
    ensures IsDigit(c)
  {
    ('0' as int + d) as char
  }

  /** `str(n)` for a non-negative integer: decimal digits without leading zeros. */
  function NatToString(n: nat): (r: string)
    ensures |r| > 0 && AllDigits(r)
    ensures r[0] == '0' ==> n == 0
    decreases n
  {
    if n < 10 then [DigitChar(n)] else NatToString(n / 10) + [DigitChar(n % 10)]
  }

  /** The number a string of decimal digits denotes. */
  function DigitsValue(s: string): nat
    requires AllDigits(s)
  {
    if s == [] then 0
    else DigitsValue(s[..|s| - 1]) * 10 + (s[|s| - 1] as int - '0' as int)
  }

  /** Reading back the decimal rendering of a count gives the count. */
  lemma {:induction false} DigitsValueOfNatToString(n: nat)
    ensures DigitsValue(NatToString(n)) == n
    decreases n
  {
    var r := NatToString(n);
    if n >= 10 {
      DigitsValueOfNatToString(n / 10);
      assert r[..|r| - 1] == NatToString(n / 10);
    }
  }

  /** Distinct counts are rendered as distinct strings. */
  lemma NatToStringInjective(m: nat, n: nat)
    ensures NatToString(m) == NatToString(n) ==> m == n
  {
    DigitsValueOfNatToString(m);
    DigitsValueOfNatToString(n);
  }

  /** Splitting at the last occurrence of a separator `c` is unique. */
  lemma LastOccurrence<T>(x1: seq<T>, y1: seq<T>, x2: seq<T>, y2: seq<T>, c: T)
    requires x1 + [c] + y1 == x2 + [c] + y2
    requires c !in y1 && c !in y2
    ensures x1 == x2 && y1 == y2
  {
    var s := x1 + [c] + y1;
    assert forall i :: |x1| < i < |s| ==> s[i] == y1[i - |x1| - 1];
    assert forall i :: |x2| < i < |s| ==> s[i] == y2[i - |x2| - 1];
    assert s[|x1|] == c && s[|x2|] == c;
    assert |x1| == |x2|;
    assert x1 == s[..|x1|] == x2;
    assert y1 == s[|x1| + 1..] == y2;
  }
}

/**
 The string primitives the checkout validator is built from: Python's
 `str.isdigit()` (restricted to ASCII digits), `int()` on a digit string, and
 `str.replace(c, "")`, which deletes every occurrence of one character.
 */
module Text {

  predicate IsAsciiDigit(c: char) {
    '0' <= c <= '9'
  }

  /** Python's `s.isdigit()`: true iff `s` is non-empty and every character is a digit. */
  predicate IsDigits(s: string) {
    |s| > 0 && forall i :: 0 <= i < |s| ==> IsAsciiDigit(s[i])
  }

  /** True iff every character of `s` is a digit; unlike `IsDigits`, holds of "". */
  predicate AllDigits(s: string) {
    forall i :: 0 <= i < |s| ==> IsAsciiDigit(s[i])
  }

  function DigitValue(c: char): (d: nat)
    requires IsAsciiDigit(c)
    ensures d <= 9
    ensures d == 0 <==> c == '0'
  {
    c as int - '0' as int
  }

  /** Python's `int(s)` on a string of decimal digits, read most significant first. */
  function Value(s: string): nat
    requires AllDigits(s)
    decreases |s|
  {
    if |s| == 0 then 0 else Value(s[..|s| - 1]) * 10 + DigitValue(s[|s| - 1])
  }

  /** Like `int()`, `Value` ignores a leading zero, so "04" and "4" denote the same month. */
  lemma {:induction false} ValueIgnoresLeadingZero(s: string)
    requires AllDigits(s)
    ensures Value("0" + s) == Value(s)
    decreases |s|
  {
    var t := "0" + s;
    if |s| == 0 {
      assert t[..0] == [];
    } else {
      assert t[..|t| - 1] == "0" + s[..|s| - 1];
      assert t[|t| - 1] == s[|s| - 1];
      ValueIgnoresLeadingZero(s[..|s| - 1]);
    }
  }

  /** The number of ASCII digits in `s`. */
  function DigitCount(s: string): (n: nat)
    ensures n <= |s|
  {
    if |s| == 0 then 0
    else (if IsAsciiDigit(s[0]) then 1 else 0) + DigitCount(s[1..])
  }

  /** Python's `s.replace(c, "")`: `s` with every occurrence of `c` deleted. */
  function Delete(s: string, c: char): (r: string)
    ensures c !in r
    ensures |r| <= |s|
  {
    if |s| == 0 then []
    else (if s[0] == c then [] else [s[0]]) + Delete(s[1..], c)
  }

  /** Every character other than `c` survives the deletion, as often as it occurred. */
  lemma {:induction false} DeleteKeepsOthers(s: string, c: char)
    ensures forall x :: x in Delete(s, c) <==> x in s && x != c
    ensures forall x :: x != c ==> multiset(Delete(s, c))[x] == multiset(s)[x]
    decreases |s|
  {
    if |s| > 0 {
      var head := if s[0] == c then [] else [s[0]];
      assert s == [s[0]] + s[1..];
      DeleteKeepsOthers(s[1..], c);
      assert Delete(s, c) == head + Delete(s[1..], c);
    }
  }

  /** Deleting from a concatenation deletes from each part and keeps the parts in order. */
  lemma {:induction false} DeleteConcat(a: string, b: string, c: char)
    ensures Delete(a + b, c) == Delete(a, c) + Delete(b, c)
    decreases |a|
  {
    if |a| == 0 {
      assert a + b == b;
    } else {
      var head := if a[0] == c then [] else [a[0]];
      assert (a + b)[0] == a[0];
      assert (a + b)[1..] == a[1..] + b;
      assert Delete(a + b, c) == head + Delete(a[1..] + b, c);
      DeleteConcat(a[1..], b, c);
      assert Delete(a, c) == head + Delete(a[1..], c);
    }
  }

  /** A string without `c` is left exactly as it was. */
  lemma {:induction false} DeleteAbsent(s: string, c: char)
    requires c !in s
    ensures Delete(s, c) == s
    decreases |s|
  {
    if |s| > 0 {
      assert c !in s[1..];
      DeleteAbsent(s[1..], c);
    }
  }

  /** Deleting a character is idempotent. */
  lemma DeleteIdempotent(s: string, c: char)
    ensures Delete(Delete(s, c), c) == Delete(s, c)
  {
    DeleteAbsent(Delete(s, c), c);
  }
}

/**
 * The handful of Python string operations the harvesters rely on, stated over
 * `string` (a `seq<char>`): `sep in s`, `s.split(sep)[-1]`, `s.split(c)[0]`,
 * `s.startswith(p)`, `s.isdigit()` and `str(n)` for an integer `n`.
 */
module Text {
  import opened Options

  /** `sep` occurs in `s` starting at index `i`. */
  predicate OccursAt(s: string, sep: string, i: int) {
    0 <= i && i + |sep| <= |s| && s[i..i + |sep|] == sep
  }

  /** `r` is a suffix of `s`. */
  predicate IsSuffix(r: string, s: string) {
    |r| <= |s| && s[|s| - |r|..] == r
  }

  /** Python's `s.startswith(p)`. */
  predicate StartsWith(s: string, p: string) {
    |p| <= |s| && s[..|p|] == p
  }

  /** An occurrence in a suffix of `s` is an occurrence in `s`, shifted. */
  lemma OccursInSuffix(s: string, sep: string, k: nat, j: nat)
    requires k <= |s|
    ensures OccursAt(s[k..], sep, j) <==> OccursAt(s, sep, k + j)
  {
    if 0 <= j && j + |sep| <= |s| - k {
      assert s[k..][j..j + |sep|] == s[k + j..k + j + |sep|];
    }
  }

  /** Occurrences in `s[1..]` are those in `s` after index 0. */
  lemma DropFirst(s: string, sep: string)
    requires |s| > 0
    ensures forall j :: 1 <= j ==> (OccursAt(s, sep, j) <==> OccursAt(s[1..], sep, j - 1))
  {
    forall j | 1 <= j
      ensures OccursAt(s, sep, j) <==> OccursAt(s[1..], sep, j - 1)
    {
      OccursInSuffix(s, sep, 1, j - 1);
    }
  }

  /** The index of the first occurrence of `sep` in `s` (Python's `s.find(sep)`), if any. */
  function Find(s: string, sep: string): (r: Option<nat>)
    ensures r.Some? ==> OccursAt(s, sep, r.value)
    ensures r.Some? ==> forall j :: 0 <= j < r.value ==> !OccursAt(s, sep, j)
    ensures r.None? ==> forall j :: 0 <= j ==> !OccursAt(s, sep, j)
    decreases |s|
  {
    if |s| < |sep| then
      None
    else if s[..|sep|] == sep then
      assert OccursAt(s, sep, 0);
      Some(0)
    else
      var rest := Find(s[1..], sep);
      assert !OccursAt(s, sep, 0);
      DropFirst(s, sep);
      match rest
      case None => None
      case Some(i) => Some(i + 1)
  }

  /** Python's `sep in s`. */
  predicate Contains(s: string, sep: string) {
    Find(s, sep).Some?
  }

  /** `r` is what follows an occurrence of `sep` in `s` that ends `s` but for `r`. */
  predicate FollowsCut(s: string, sep: string, r: string) {
    |r| + |sep| <= |s| && OccursAt(s, sep, |s| - |r| - |sep|)
  }

  /** One cut of `split`: what holds of the rest after an occurrence at `i` holds of `s`. */
  lemma CutStep(s: string, sep: string, i: nat, r: string)
    requires OccursAt(s, sep, i)
    requires IsSuffix(r, s[i + |sep|..])
    requires r == s[i + |sep|..] || FollowsCut(s[i + |sep|..], sep, r)
    ensures IsSuffix(r, s)
    ensures FollowsCut(s, sep, r)
  {
    var t := s[i + |sep|..];
    assert t[|t| - |r|..] == s[|s| - |r|..];
    if r != t {
      OccursInSuffix(s, sep, i + |sep|, |t| - |r| - |sep|);
    }
  }

  /**
   * The last piece of Python's `s.split(sep)`: split scans `s` from the left
   * and cuts at non-overlapping occurrences of `sep`; this is what follows the
   * last cut, or `s` itself when `sep` does not occur. The ensures fix the
   * piece only when `sep` cannot overlap itself; the body is what fixes the
   * left-to-right cut.
   */
  function LastSplit(s: string, sep: string): (r: string)
    requires |sep| > 0
    ensures IsSuffix(r, s)
    ensures forall j :: 0 <= j ==> !OccursAt(r, sep, j)
    ensures !Contains(s, sep) ==> r == s
    ensures Contains(s, sep) ==> FollowsCut(s, sep, r)
    decreases |s|
  {
    match Find(s, sep)
    case None => s
    case Some(i) =>
      var r := LastSplit(s[i + |sep|..], sep);
      CutStep(s, sep, i, r);
      r
  }

  /** A one-character separator that occurs nowhere in `s` is not in `s`. */
  lemma CharNotOccurring(s: string, c: char)
    requires forall j :: 0 <= j ==> !OccursAt(s, [c], j)
    ensures c !in s
  {
    forall k | 0 <= k < |s|
      ensures s[k] != c
    {
      assert !OccursAt(s, [c], k);
      assert s[k..k + 1] == [s[k]];
    }
  }

  /** The first piece of Python's `s.split([c])`: the text before the first `c`. */
  function FirstSplit(s: string, c: char): (r: string)
    ensures |r| <= |s| && r == s[..|r|]
    ensures c !in r
    ensures |r| < |s| ==> s[|r|] == c
    ensures c !in s ==> r == s
  {
    if s == [] then []
    else if s[0] == c then []
    else [s[0]] + FirstSplit(s[1..], c)
  }

  predicate IsDigit(c: char) {
    '0' <= c <= '9'
  }

  /** Every character is an ASCII decimal digit (true of the empty string). */
  predicate AllDigits(s: string) {
    forall i :: 0 <= i < |s| ==> IsDigit(s[i])
  }

  /**
   * Python's `s.isdigit()` restricted to ASCII digits: non-empty and all
   * digits, so none of the characters an href is cut at.
   */
  predicate IsDigitString(s: string)
    ensures IsDigitString(s) ==> s != [] && '/' !in s && '?' !in s && '#' !in s
  {
    s != [] && AllDigits(s)
  }

  /** The number a string of decimal digits denotes. */
  function DecimalValue(s: string): nat
    requires AllDigits(s)
  {
    if s == [] then 0
    else DecimalValue(s[..|s| - 1]) * 10 + ((s[|s| - 1] as int) - ('0' as int))
  }

  /** Python's `str(n)` for `n >= 0`: decimal digits, no leading zero. */
  function NatToDecimal(n: nat): (r: string)
    ensures IsDigitString(r)
    ensures DecimalValue(r) == n
    ensures |r| > 1 ==> r[0] != '0'
  {
    var last := [(('0' as int) + n % 10) as char];
    if n < 10 then
      last
    else
      var front := NatToDecimal(n / 10);
      var r := front + last;
      assert r[..|r| - 1] == front;
      r
  }

  /** A digit string without a leading zero is what `str` prints for the number it denotes. */
  lemma {:induction false} DecimalRoundTrip(s: string)
    requires IsDigitString(s) && (|s| == 1 || s[0] != '0')
    ensures NatToDecimal(DecimalValue(s)) == s
    decreases |s|
  {
    var front, last := s[..|s| - 1], s[|s| - 1];
    var d := (last as int) - ('0' as int);
    assert IsDigit(last);
    if |s| > 1 {
      assert front[0] == s[0];
      assert AllDigits(front) by {
        forall i | 0 <= i < |front| ensures IsDigit(front[i]) {
          assert front[i] == s[i];
        }
      }
      DecimalRoundTrip(front);
      var v := DecimalValue(front);
      assert v != 0 by {
        if |front| == 1 {
          assert front[..0] == [];
          assert v == (front[0] as int) - ('0' as int);
        } else {
          assert v >= 10;
        }
      }
      assert DecimalValue(s) / 10 == v && DecimalValue(s) % 10 == d;
      assert s == front + [last];
    }
  }

  /** Python's `str(n)` for any integer. */
  function IntToDecimal(n: int): (r: string)
    ensures r != []
    ensures n < 0 <==> r[0] == '-'
    ensures n >= 0 ==> IsDigitString(r) && DecimalValue(r) == n
    ensures n < 0 ==> IsDigitString(r[1..]) && DecimalValue(r[1..]) == -n
  {
    if n < 0 then
      var d := NatToDecimal(-n);
      assert ("-" + d)[1..] == d;
      "-" + d
    else
      NatToDecimal(n)
  }

  /** Different integers print differently. */
  lemma IntToDecimalInjective(a: int, b: int)
    requires IntToDecimal(a) == IntToDecimal(b)
    ensures a == b
  {
  }
}

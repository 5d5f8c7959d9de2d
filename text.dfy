/**
 * The handful of string operations the controller relies on: taking the text
 * before a separator (Python's `s.split(sep)[0]`), dropping the first
 * character (`s[1:]`), and rendering a non-negative integer in decimal (as an
 * f-string does), with a reader that inverts the rendering.
 */
module Text {

  /** `s.split(c)[0]` for a one-character separator: the text before the first `c`, or all of `s`. */
  function BeforeChar(s: string, c: char): (r: string)
    ensures r <= s
    ensures c !in r
    ensures |r| < |s| ==> s[|r|] == c
    decreases |s|
  {
    if s == [] then []
    else if s[0] == c then []
    else [s[0]] + BeforeChar(s[1..], c)
  }

  /** `s[1:]`: every character but the first; the empty string stays empty. */
  function DropFirst(s: string): (r: string)
    ensures s == [] ==> r == []
    ensures s != [] ==> [s[0]] + r == s
  {
    if s == [] then [] else s[1..]
  }

  /** `sep` occurs in `s` starting at index `i`. */
  predicate OccursAt(s: string, sep: string, i: nat)
  {
    i + |sep| <= |s| && s[i..i + |sep|] == sep
  }

  lemma OccursAtShift(s: string, sep: string, i: nat)
    requires s != []
    ensures OccursAt(s, sep, i + 1) <==> OccursAt(s[1..], sep, i)
  {
    if i + 1 + |sep| <= |s| {
      assert s[i + 1..i + 1 + |sep|] == s[1..][i..i + |sep|];
    }
  }

  /** A prefix of `s` has no occurrence of `sep` where `s` has none. */
  lemma OccursAtPrefix(s: string, r: string, sep: string)
    requires r <= s
    requires forall i: nat :: i < |r| ==> !OccursAt(s, sep, i)
    ensures forall i: nat :: i < |r| ==> !OccursAt(r, sep, i)
  {
    forall i: nat | i < |r| && OccursAt(r, sep, i)
      ensures OccursAt(s, sep, i)
    {
      assert s[i..i + |sep|] == r[i..i + |sep|];
    }
  }

  /**
   * `s.split(sep)[0]` for a non-empty separator (Python refuses an empty one):
   * the text before the leftmost occurrence of `sep`, or all of `s`.
   */
  function BeforeSeparator(s: string, sep: string): (r: string)
    requires sep != []
    ensures r <= s
    ensures r == s || OccursAt(s, sep, |r|)
    ensures forall i: nat :: i < |r| ==> !OccursAt(s, sep, i)
    decreases |s|
  {
    if |s| < |sep| then s
    else if s[..|sep|] == sep then []
    else
      var rest := BeforeSeparator(s[1..], sep);
      forall i: nat | i < |rest| + 1 ensures !OccursAt(s, sep, i) {
        if i > 0 { OccursAtShift(s, sep, i - 1); }
      }
      if rest == s[1..] then
        assert [s[0]] + rest == s;
        [s[0]] + rest
      else
        OccursAtShift(s, sep, |rest|);
        [s[0]] + rest
  }

  predicate IsDigit(c: char)
  {
    '0' <= c <= '9'
  }

  predicate AllDigits(s: string)
  {
    forall i :: 0 <= i < |s| ==> IsDigit(s[i])
  }

  function DigitChar(d: nat): (c: char)
    requires d < 10
    ensures IsDigit(c)
  {
    ('0' as int + d) as char
  }

  /** The decimal rendering of `n`, as `str(n)` and f-strings produce it: digits only, no leading zero. */
  function DecimalString(n: nat): (s: string)
    ensures s != [] && AllDigits(s)
    ensures s == "0" <==> n == 0
    ensures s[0] == '0' ==> s == "0"
  {
    if n < 10 then [DigitChar(n)]
    else DecimalString(n / 10) + [DigitChar(n % 10)]
  }

  /** The number a string of decimal digits denotes. */
  function DecimalValue(s: string): nat
    requires AllDigits(s)
  {
    if s == [] then 0
    else 10 * DecimalValue(s[..|s| - 1]) + (s[|s| - 1] as int - '0' as int)
  }

  /** Reading back a rendered number gives the number: the rendering loses nothing. */
  lemma {:induction false} DecimalRoundTrip(n: nat)
    ensures DecimalValue(DecimalString(n)) == n
  {
    if n >= 10 {
      var s := DecimalString(n);
      assert s[..|s| - 1] == DecimalString(n / 10);
      DecimalRoundTrip(n / 10);
    }
  }

  /** Two different numbers never render alike. */
  lemma DecimalStringInjective(m: nat, n: nat)
    requires DecimalString(m) == DecimalString(n)
    ensures m == n
  {
    DecimalRoundTrip(m);
    DecimalRoundTrip(n);
  }
}

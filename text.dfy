/** Character classes of Python's `re` and `str`, restricted to ASCII, and
    the string helpers the log parser relies on: maximal runs of a class
    (what a greedy `\d+` consumes), `str.strip`, `str.lstrip`/`str.rstrip`
    with one character, and `str(int)`. */
module Text {
  import opened Wrappers

  /** `\d` */
  predicate IsDigit(c: char) { '0' <= c <= '9' }

  /** `[A-Z]` */
  predicate IsUpper(c: char) { 'A' <= c <= 'Z' }

  /** `\w`: letters, digits and the underscore. */
  predicate IsWordChar(c: char) {
    'a' <= c <= 'z' || 'A' <= c <= 'Z' || '0' <= c <= '9' || c == '_'
  }

  /** Whitespace as both `str.strip()` and `\s` see it: tab, line feed,
      vertical tab, form feed, carriage return, the four separators
      0x1C..0x1F and the space. */
  predicate IsSpace(c: char) { 9 <= c as int <= 13 || 0x1C <= c as int <= 0x20 }

  /** `\S` */
  predicate IsNotSpace(c: char) { !IsSpace(c) }

  /** `.` without the DOTALL flag. */
  predicate IsNotNewline(c: char) { c != '\n' }

  /** `[0-9\.]` */
  predicate IsVersionChar(c: char) { '0' <= c <= '9' || c == '.' }

  predicate IsOpenBracket(c: char) { c == '[' }

  predicate IsCloseBracket(c: char) { c == ']' }

  /** Every character of `s` is in class `p`. */
  predicate All(s: string, p: char -> bool) {
    forall j :: 0 <= j < |s| ==> p(s[j])
  }

  /** `s[lo..hi]` is a slice of `s` whose characters are all in class `p`. */
  predicate Span(s: string, lo: int, hi: int, p: char -> bool) {
    0 <= lo <= hi <= |s| && forall j :: lo <= j < hi ==> p(s[j])
  }

  /** Length of the longest run of class `p` starting at index `i`: what a
      greedy `p+` or `p*` consumes there. */
  function RunLen(s: string, i: nat, p: char -> bool): (n: nat)
    requires i <= |s|
    ensures Span(s, i, i + n, p)
    ensures i + n == |s| || !p(s[i + n])
    decreases |s| - i
  {
    if i == |s| || !p(s[i]) then 0 else 1 + RunLen(s, i + 1, p)
  }

  /** A run of class `p` that cannot be extended is the one `RunLen` finds. */
  lemma RunLenExact(s: string, i: nat, p: char -> bool, m: nat)
    requires Span(s, i, i + m, p) && (i + m == |s| || !p(s[i + m]))
    ensures RunLen(s, i, p) == m
  {
  }

  /** Any run of class `p` at `i` is at most as long as the maximal one. */
  lemma RunLenCovers(s: string, i: nat, p: char -> bool, m: nat)
    requires Span(s, i, i + m, p)
    ensures m <= RunLen(s, i, p)
  {
  }

  /** Length of the longest run of class `p` that ends just before index `e`. */
  function BackRunLen(s: string, e: nat, p: char -> bool): (n: nat)
    requires e <= |s|
    ensures n <= e && Span(s, e - n, e, p)
    ensures n == e || !p(s[e - n - 1])
    decreases e
  {
    if e == 0 || !p(s[e - 1]) then 0 else 1 + BackRunLen(s, e - 1, p)
  }

  /** The largest index in `[lo, hi)` holding `c`, if there is one. */
  function LastIndexOf(s: string, c: char, lo: nat, hi: nat): (r: Option<nat>)
    requires hi <= |s|
    ensures r.Some? ==> lo <= r.value < hi && s[r.value] == c
    ensures forall k :: lo <= k < hi && (r.None? || r.value < k) ==> s[k] != c
    decreases hi
  {
    if hi <= lo then None
    else if s[hi - 1] == c then Some(hi - 1)
    else LastIndexOf(s, c, lo, hi - 1)
  }

  /** `s.lstrip(chars)`: drops the longest prefix of class `p`. */
  function LStrip(s: string, p: char -> bool): (r: string)
    ensures |r| <= |s| && r == s[|s| - |r|..]
    ensures Span(s, 0, |s| - |r|, p)
    ensures r == [] || !p(r[0])
  {
    s[RunLen(s, 0, p)..]
  }

  /** `s.rstrip(chars)`: drops the longest suffix of class `p`. */
  function RStrip(s: string, p: char -> bool): (r: string)
    ensures |r| <= |s| && r == s[..|r|]
    ensures Span(s, |r|, |s|, p)
    ensures r == [] || !p(r[|r| - 1])
  {
    s[..|s| - BackRunLen(s, |s|, p)]
  }

  /** `s.strip()`: drops leading and trailing whitespace. */
  function Strip(s: string): string {
    RStrip(LStrip(s, IsSpace), IsSpace)
  }

  /** What `Strip` leaves is the slice of `s` between a whitespace prefix and
      a whitespace suffix, and it neither starts nor ends with whitespace. */
  lemma StripTrims(s: string)
    ensures var r := Strip(s);
      && (exists a :: 0 <= a && a + |r| <= |s| && r == s[a..a + |r|]
                      && Span(s, 0, a, IsSpace) && Span(s, a + |r|, |s|, IsSpace))
      && (r == [] || (!IsSpace(r[0]) && !IsSpace(r[|r| - 1])))
  {
    StripSlice(s, LStrip(s, IsSpace), Strip(s), IsSpace, IsSpace);
  }

  /** Stripping a prefix of class `p` and then a suffix of class `q` leaves
      a slice of the original with only `p` before it and only `q` after. */
  lemma StripSlice(s: string, t: string, r: string, p: char -> bool, q: char -> bool)
    requires |t| <= |s| && t == s[|s| - |t|..] && Span(s, 0, |s| - |t|, p)
    requires |r| <= |t| && r == t[..|r|] && Span(t, |r|, |t|, q)
    ensures var a := |s| - |t|; r == s[a..a + |r|]
                                && Span(s, 0, a, p) && Span(s, a + |r|, |s|, q)
  {
    var a := |s| - |t|;
    forall j | a + |r| <= j < |s| ensures q(s[j]) {
      assert s[j] == t[j - a];
    }
  }

  function DigitChar(d: nat): (c: char)
    requires d < 10
    ensures IsDigit(c)
  {
    ('0' as int + d) as char
  }

  /** `str(n)` for a natural number: decimal digits without leading zeros. */
  function NatToString(n: nat): (r: string)
    ensures |r| >= 1 && All(r, IsDigit)
    ensures r[0] == '0' <==> n == 0
    ensures |r| == 1 <==> n < 10
    decreases n
  {
    if n < 10 then [DigitChar(n)] else NatToString(n / 10) + [DigitChar(n % 10)]
  }

  /** The number a string of decimal digits denotes (non-digits count as 0). */
  function DecValue(r: string): nat {
    if r == [] then 0
    else DecValue(r[..|r| - 1]) * 10 + (if IsDigit(r[|r| - 1]) then r[|r| - 1] as int - '0' as int else 0)
  }

  /** The digits of `str(n)` denote `n`. */
  lemma {:induction false} NatToStringValue(n: nat)
    ensures DecValue(NatToString(n)) == n
    decreases n
  {
    if n >= 10 {
      NatToStringValue(n / 10);
      assert NatToString(n)[..|NatToString(n)| - 1] == NatToString(n / 10);
    }
  }

  /** `str(i)` for any integer: a minus sign before the digits of a negative one. */
  function IntToString(i: int): string
  {
    if i < 0 then "-" + NatToString(-i) else NatToString(i)
  }

  /** The number of decimal digits of `n`, by range. */
  lemma {:induction false} NatToStringLength(n: nat)
    ensures n < 10 ==> |NatToString(n)| == 1
    ensures 10 <= n < 100 ==> |NatToString(n)| == 2
    ensures 100 <= n < 1000 ==> |NatToString(n)| == 3
    ensures 1000 <= n ==> |NatToString(n)| >= 4
    decreases n
  {
    if n >= 10 {
      NatToStringLength(n / 10);
    }
  }

  /** `str(i)` is three digits exactly for the integers 100 to 999. */
  lemma ThreeDigitText(i: int)
    ensures (|IntToString(i)| == 3 && All(IntToString(i), IsDigit)) <==> 100 <= i < 1000
  {
    if i < 0 {
      assert !IsDigit(IntToString(i)[0]);
    } else {
      NatToStringLength(i);
    }
  }
}

/** How the parser turns the list returned by `re.findall` into the URL
    field: `str(paths)[2:-2]`, that is Python's `repr` of a list of strings
    with its first two and last two characters cut off. With no match this
    is the empty string, with one ordinary path it is the path itself, and
    with several matches the quotes and commas of the list display remain
    inside the field. */
module Repr {
  import opened Text

  /** A character `repr` copies unchanged (unless it is the delimiting quote):
      neither a backslash nor an ASCII control character. */
  predicate IsVerbatim(c: char) { c != '\\' && c as int >= 0x20 && c as int != 0x7F }

  function HexDigit(d: nat): char
    requires d < 16
  {
    if d < 10 then DigitChar(d) else ('a' as int + (d - 10)) as char
  }

  /** How `repr` writes one character inside a literal delimited by `quote`. */
  function EscapeChar(c: char, quote: char): string {
    if c == '\\' then "\\\\"
    else if c == quote then ['\\', c]
    else if c == '\t' then "\\t"
    else if c == '\n' then "\\n"
    else if c == '\r' then "\\r"
    else if c as int < 0x20 || c as int == 0x7F then
      ['\\', 'x', HexDigit(c as int / 16), HexDigit(c as int % 16)]
    else [c]
  }

  /** The escaped text of `s[i..]`. */
  function Escape(s: string, i: nat, quote: char): string
    requires i <= |s|
    decreases |s| - i
  {
    if i == |s| then [] else EscapeChar(s[i], quote) + Escape(s, i + 1, quote)
  }

  /** `repr(s)` for a str: single quotes, unless `s` holds a single quote
      and no double quote. */
  function StrRepr(s: string): string {
    var quote := if '\'' in s && '"' !in s then '"' else '\'';
    [quote] + Escape(s, 0, quote) + [quote]
  }

  /** The element reprs of a list display, separated by `, `. */
  function JoinReprs(xs: seq<string>, i: nat): string
    requires i <= |xs|
    decreases |xs| - i
  {
    if i == |xs| then ""
    else if i + 1 == |xs| then StrRepr(xs[i])
    else StrRepr(xs[i]) + ", " + JoinReprs(xs, i + 1)
  }

  /** `str(xs)` for a list of strings. */
  function ListRepr(xs: seq<string>): string {
    "[" + JoinReprs(xs, 0) + "]"
  }

  /** The characters of `t` from index `lo` up to, not including, `hi`. */
  function Substring(t: string, lo: nat, hi: nat): string
    requires lo <= hi <= |t|
    decreases hi - lo
  {
    if lo == hi then [] else [t[lo]] + Substring(t, lo + 1, hi)
  }

  lemma {:induction false} SubstringIsSlice(t: string, lo: nat, hi: nat)
    requires lo <= hi <= |t|
    ensures Substring(t, lo, hi) == t[lo..hi]
    decreases hi - lo
  {
    if lo < hi {
      SubstringIsSlice(t, lo + 1, hi);
      assert t[lo..hi] == [t[lo]] + t[lo + 1..hi];
    }
  }

  /** Python's slice `t[2:-2]`, empty when `t` is shorter than five. */
  function TrimTwo(t: string): string {
    if |t| >= 4 then Substring(t, 2, |t| - 2) else []
  }

  /** The URL field built from the paths `re.findall` returned. */
  function UrlField(paths: seq<string>): string {
    TrimTwo(ListRepr(paths))
  }

  /** A path whose `repr` is the path between two quotes: no backslash, no
      control character, and not both kinds of quote. */
  predicate ReprSafe(p: string) {
    All(p, IsVerbatim) && !('\'' in p && '"' in p)
  }

  lemma {:induction false} EscapeVerbatim(s: string, i: nat, quote: char)
    requires i <= |s| && All(s, IsVerbatim) && quote !in s
    ensures Escape(s, i, quote) == s[i..]
    decreases |s| - i
  {
    if i < |s| {
      EscapeVerbatim(s, i + 1, quote);
      assert s[i..] == [s[i]] + s[i + 1..];
    }
  }

  /** `repr` of a safe path is the path between two quote characters. */
  lemma StrReprSafe(p: string)
    requires ReprSafe(p)
    ensures |StrRepr(p)| == |p| + 2 && StrRepr(p)[1..|p| + 1] == p
  {
    var quote := if '\'' in p && '"' !in p then '"' else '\'';
    EscapeVerbatim(p, 0, quote);
  }

  /** `re.findall` found nothing: the URL field is empty. */
  lemma UrlFieldNoMatch()
    ensures UrlField([]) == ""
  {
  }

  /** `re.findall` found one safe path: the URL field is that path. */
  lemma UrlFieldOneMatch(p: string)
    requires ReprSafe(p)
    ensures UrlField([p]) == p
  {
    StrReprSafe(p);
    var t := ListRepr([p]);
    assert t == "[" + StrRepr(p) + "]";
    SubstringIsSlice(t, 2, |t| - 2);
    assert t[2..|t| - 2] == StrRepr(p)[1..|p| + 1];
  }

  /** `re.findall` found two paths with no quote, backslash or control
      character: the URL field keeps the list's inner `', '` separator. */
  lemma UrlFieldTwoMatches(p: string, q: string)
    requires All(p, IsVerbatim) && '\'' !in p
    requires All(q, IsVerbatim) && '\'' !in q
    ensures UrlField([p, q]) == p + "', '" + q
  {
    EscapeVerbatim(p, 0, '\'');
    EscapeVerbatim(q, 0, '\'');
    assert StrRepr(p) == "'" + p + "'";
    assert StrRepr(q) == "'" + q + "'";
    assert JoinReprs([p, q], 1) == StrRepr(q);
    assert JoinReprs([p, q], 0) == StrRepr(p) + ", " + StrRepr(q);
    var inner := p + "', '" + q;
    assert ListRepr([p, q]) == "['" + inner + "']";
    TrimTwoBetween("['", inner, "']");
  }

  lemma TrimTwoBetween(a: string, m: string, b: string)
    requires |a| == 2 && |b| == 2
    ensures TrimTwo(a + m + b) == m
  {
    SubstringIsSlice(a + m + b, 2, |m| + 2);
    assert (a + m + b)[2..|m| + 2] == m;
  }
}

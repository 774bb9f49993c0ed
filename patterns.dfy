/** The six regular expressions the parser applies to each stripped line,
    each written as a search over the string.

    Once its start is fixed, every pattern here but two matches in one way
    only: each greedy run (`\d+`, `\w+`, `[A-Z]+`, `\S+`, `[0-9\.]+`) is
    followed by a character outside its own class, so backtracking can never
    find a second way to match. A search therefore finds the leftmost start
    at which the pattern matches and, there, the maximal runs. There are two
    exceptions. The last `\d+` of the IP pattern is followed by nothing, so
    every shorter third run matches too; the greedy search takes the
    longest. The timestamp pattern `\[.+\]` can end at several `]`, since
    `.` also matches `]`; the search takes the last one the line-feed-free
    run reaches, as backtracking does. For each pattern a predicate states
    declaratively what a match at a given position is, and the search
    function's contract, with the lemmas beside it, says that it returns the
    leftmost such match (the longest, for the IP; the one with the greatest
    end, for the timestamp), and nothing when there is none. */
module Patterns {
  import opened Wrappers
  import opened Text

  // ---------------------------------------------------------------------
  // re.search(r"^\d+\.\d+\.\d+", line)

  /** `t` is `\d+\.\d+\.\d+` with its two dots at indices `a` and `b`. */
  predicate IpShapeAt(t: string, a: int, b: int) {
    0 < a && a + 1 < b && b + 1 < |t| && t[a] == '.' && t[b] == '.'
    && Span(t, 0, a, IsDigit) && Span(t, a + 1, b, IsDigit) && Span(t, b + 1, |t|, IsDigit)
  }

  ghost predicate IpShape(t: string) {
    exists a, b :: IpShapeAt(t, a, b)
  }

  /** Some prefix of `s` matches the anchored IP pattern. */
  ghost predicate HasIp(s: string) {
    exists k :: 0 <= k <= |s| && IpShape(s[..k])
  }

  /** The client address: a prefix of `s` of the shape digits.digits.digits
      (three groups only), ending where the third digit run ends. */
  function MatchIp(s: string): (r: Option<string>)
    ensures r.Some? ==> |r.value| <= |s| && r.value == s[..|r.value|] && IpShape(r.value)
    ensures r.Some? ==> |r.value| == |s| || !IsDigit(s[|r.value|])
  {
    var a := RunLen(s, 0, IsDigit);
    if a == 0 || a == |s| || s[a] != '.' then None
    else
      var b := RunLen(s, a + 1, IsDigit);
      if b == 0 || a + 1 + b == |s| || s[a + 1 + b] != '.' then None
      else
        var c := RunLen(s, a + 2 + b, IsDigit);
        if c == 0 then None
        else
          var ip := s[..a + 2 + b + c];
          assert IpShapeAt(ip, a, a + 1 + b);
          Some(ip)
  }

  /** Any prefix of `s` in the IP shape is found by `MatchIp` and is no
      longer than what it returns. */
  lemma MatchIpCovers(s: string, k: nat, a: nat, b: nat)
    requires k <= |s| && IpShapeAt(s[..k], a, b)
    ensures MatchIp(s).Some? && k <= |MatchIp(s).value|
  {
    IpShapeInLine(s, k, a, b);
    MatchIpRuns(s, k, a, b);
  }

  /** The dots and digit runs of an IP-shaped prefix, read in the line. */
  lemma IpShapeInLine(s: string, k: nat, a: nat, b: nat)
    requires k <= |s| && IpShapeAt(s[..k], a, b)
    ensures 0 < a && a + 1 < b && b + 1 < k && s[a] == '.' && s[b] == '.'
    ensures Span(s, 0, a, IsDigit) && Span(s, a + 1, b, IsDigit) && Span(s, b + 1, k, IsDigit)
  {
    var t := s[..k];
    forall j | 0 <= j < k ensures s[j] == t[j] { }
  }

  lemma MatchIpRuns(s: string, k: nat, a: nat, b: nat)
    requires 0 < a && a + 1 < b && b + 1 < k <= |s| && s[a] == '.' && s[b] == '.'
    requires Span(s, 0, a, IsDigit) && Span(s, a + 1, b, IsDigit) && Span(s, b + 1, k, IsDigit)
    ensures MatchIp(s).Some? && k <= |MatchIp(s).value|
  {
    RunLenExact(s, 0, IsDigit, a);
    RunLenExact(s, a + 1, IsDigit, b - a - 1);
    RunLenCovers(s, b + 1, IsDigit, k - b - 1);
  }

  /** `re.search(r"^\d+\.\d+\.\d+", s)` fails exactly when no prefix of
      `s` has the shape, and otherwise yields the longest prefix that has it. */
  lemma MatchIpLongest(s: string)
    ensures MatchIp(s).None? <==> !HasIp(s)
    ensures MatchIp(s).Some? ==> forall k :: |MatchIp(s).value| < k <= |s| ==> !IpShape(s[..k])
  {
    forall k | 0 <= k <= |s| && IpShape(s[..k])
      ensures MatchIp(s).Some? && k <= |MatchIp(s).value|
    {
      var a, b :| IpShapeAt(s[..k], a, b);
      MatchIpCovers(s, k, a, b);
    }
    if MatchIp(s).Some? {
      var ip := MatchIp(s).value;
      assert s[..|ip|] == ip;
    }
  }

  // ---------------------------------------------------------------------
  // re.search(r"\[.+\]", line)

  /** `s[i..k + 1]` matches `\[.+\]`: a `[` at `i`, a `]` at `k`, and at
      least one character, none a line feed, between them. */
  predicate BracketAt(s: string, i: int, k: int) {
    0 <= i && i + 2 <= k < |s| && s[i] == '[' && s[k] == ']'
    && forall j :: i < j < k ==> s[j] != '\n'
  }

  ghost predicate HasBracket(s: string) {
    exists i, k :: BracketAt(s, i, k)
  }

  /** The possible ends of a bracket match starting at `i` are the `]`
      inside the line-feed-free run after the `[`. */
  lemma BracketEnds(s: string, i: nat, n: nat)
    requires i < |s| && s[i] == '[' && n == RunLen(s, i + 1, IsNotNewline)
    ensures forall k :: BracketAt(s, i, k) <==> i + 2 <= k < i + 1 + n && s[k] == ']'
  {
  }

  /** The leftmost bracket match at or after `i`, with its greedy end. */
  function FindBracket(s: string, i: nat): (r: Option<(nat, nat)>)
    requires i <= |s|
    ensures r.Some? ==> i <= r.value.0 && BracketAt(s, r.value.0, r.value.1)
    ensures r.Some? ==> forall k :: r.value.1 < k ==> !BracketAt(s, r.value.0, k)
    ensures forall j, k :: i <= j && (r.None? || j < r.value.0) ==> !BracketAt(s, j, k)
    decreases |s| - i
  {
    if i == |s| then None
    else if s[i] != '[' then FindBracket(s, i + 1)
    else
      var n := RunLen(s, i + 1, IsNotNewline);
      BracketEnds(s, i, n);
      match LastIndexOf(s, ']', i + 2, i + 1 + n)
      case Some(k) => Some((i, k))
      case None => FindBracket(s, i + 1)
  }

  /** `s[i..k + 1]` is the match `re.search` returns: no bracket match
      starts before `i`, and none starting at `i` ends after `k`. */
  ghost predicate LeftmostBracket(s: string, i: int, k: int) {
    && BracketAt(s, i, k)
    && (forall j, k' :: 0 <= j < i ==> !BracketAt(s, j, k'))
    && (forall k' :: k < k' ==> !BracketAt(s, i, k'))
  }

  /** The bracketed timestamp, brackets included, or nothing: the leftmost
      match, extended to its last possible `]`. */
  function MatchTime(s: string): (r: Option<string>)
    ensures r.None? <==> !HasBracket(s)
    ensures r.Some? ==> exists i, k :: LeftmostBracket(s, i, k) && r.value == s[i..k + 1]
  {
    match FindBracket(s, 0)
    case Some((i, k)) =>
      assert LeftmostBracket(s, i, k);
      Some(s[i..k + 1])
    case None => None
  }

  /** `stamp.lstrip("[").rstrip("]")`: every leading `[` and then every
      trailing `]` removed; the result neither starts with `[` nor ends
      with `]`. */
  function TimeContent(stamp: string): (r: string)
    ensures r == [] || (r[0] != '[' && r[|r| - 1] != ']')
  {
    RStrip(LStrip(stamp, IsOpenBracket), IsCloseBracket)
  }

  /** What `TimeContent` keeps is the slice of the stamp with only `[`
      before it and only `]` after it. */
  lemma TimeContentSlice(stamp: string)
    ensures var r := TimeContent(stamp);
      exists a :: 0 <= a && a + |r| <= |stamp| && r == stamp[a..a + |r|]
                  && Span(stamp, 0, a, IsOpenBracket)
                  && Span(stamp, a + |r|, |stamp|, IsCloseBracket)
  {
    var t := LStrip(stamp, IsOpenBracket);
    StripSlice(stamp, t, TimeContent(stamp), IsOpenBracket, IsCloseBracket);
  }

  // ---------------------------------------------------------------------
  // re.search(r'\"\w+\s', line), then [1:-1]

  /** `s[i..i + w + 2]` matches `"\w+\s`: a `"`, `w` word characters, one
      whitespace character. */
  predicate MethodAt(s: string, i: int, w: int) {
    0 <= i && 1 <= w && i + 1 + w < |s| && s[i] == '"'
    && Span(s, i + 1, i + 1 + w, IsWordChar) && IsSpace(s[i + 1 + w])
  }

  ghost predicate HasMethod(s: string) {
    exists i, w :: MethodAt(s, i, w)
  }

  /** At a `"`, the only candidate length is the maximal word run. */
  lemma MethodLength(s: string, i: nat, w: nat)
    requires i < |s| && w == RunLen(s, i + 1, IsWordChar)
    ensures forall w' :: MethodAt(s, i, w') ==> w' == w
  {
    forall w' | MethodAt(s, i, w') ensures w' == w {
      RunLenExact(s, i + 1, IsWordChar, w');
    }
  }

  /** The leftmost method match at or after `i`: its start and word length. */
  function FindMethod(s: string, i: nat): (r: Option<(nat, nat)>)
    requires i <= |s|
    ensures r.Some? ==> i <= r.value.0 && MethodAt(s, r.value.0, r.value.1)
    ensures r.Some? ==> forall w :: MethodAt(s, r.value.0, w) ==> w == r.value.1
    ensures forall j, w :: i <= j && (r.None? || j < r.value.0) ==> !MethodAt(s, j, w)
    decreases |s| - i
  {
    if i == |s| then None
    else if s[i] != '"' then FindMethod(s, i + 1)
    else
      var w := RunLen(s, i + 1, IsWordChar);
      MethodLength(s, i, w);
      if 1 <= w && i + 1 + w < |s| && IsSpace(s[i + 1 + w]) then Some((i, w))
      else FindMethod(s, i + 1)
  }

  /** `verb` is the word run of the leftmost method match in `s`. */
  ghost predicate LeftmostMethod(s: string, verb: string) {
    exists i :: MethodAt(s, i, |verb|) && verb == s[i + 1..i + 1 + |verb|]
                && forall j, w :: 0 <= j < i ==> !MethodAt(s, j, w)
  }

  /** The HTTP verb: the word run of the leftmost method match, without the
      quote before it and the whitespace after it. */
  function MatchMethod(s: string): (r: Option<string>)
    ensures r.None? <==> !HasMethod(s)
    ensures r.Some? ==> |r.value| >= 1 && All(r.value, IsWordChar)
    ensures r.Some? ==> LeftmostMethod(s, r.value)
  {
    match FindMethod(s, 0)
    case Some((i, w)) =>
      var verb := s[i + 1..i + 1 + w];
      assert |verb| == w;
      Some(verb)
    case None => None
  }

  // ---------------------------------------------------------------------
  // re.search(r"\s\d{3}\s", line), then strip()

  /** `s[i..i + 5]` matches `\s\d{3}\s`. */
  predicate StatusAt(s: string, i: int) {
    0 <= i && i + 4 < |s| && IsSpace(s[i]) && Span(s, i + 1, i + 4, IsDigit) && IsSpace(s[i + 4])
  }

  ghost predicate HasStatus(s: string) {
    exists i :: StatusAt(s, i)
  }

  /** The leftmost status match at or after `i`. */
  function FindStatus(s: string, i: nat): (r: Option<nat>)
    requires i <= |s|
    ensures r.Some? ==> i <= r.value && StatusAt(s, r.value)
    ensures forall j :: i <= j && (r.None? || j < r.value) ==> !StatusAt(s, j)
    decreases |s| - i
  {
    if i == |s| then None
    else if StatusAt(s, i) then Some(i)
    else FindStatus(s, i + 1)
  }

  /** The status code: the three digits of the leftmost whitespace-bounded
      three-digit group, whitespace removed. */
  function MatchStatus(s: string): (r: Option<string>)
    ensures r.None? <==> !HasStatus(s)
    ensures r.Some? ==> |r.value| == 3 && All(r.value, IsDigit)
    ensures r.Some? ==> exists i :: StatusAt(s, i) && r.value == s[i + 1..i + 4]
                                    && forall j :: 0 <= j < i ==> !StatusAt(s, j)
  {
    match FindStatus(s, 0)
    case Some(i) => Some(s[i + 1..i + 4])
    case None => None
  }

  // ---------------------------------------------------------------------
  // re.search(r"\d+$", line)

  /** `s[i..k]` matches `\d+$`: a non-empty digit run ending at the end of
      `s`, or just before a final line feed. */
  predicate SizeAt(s: string, i: int, k: int) {
    0 <= i < k && Span(s, i, k, IsDigit) && (k == |s| || (k + 1 == |s| && s[k] == '\n'))
  }

  ghost predicate HasSize(s: string) {
    exists i, k :: SizeAt(s, i, k)
  }

  /** Every size match ends at `e` and starts within the digit run before it. */
  lemma SizeEnds(s: string, e: nat, n: nat)
    requires e == (if |s| > 0 && s[|s| - 1] == '\n' then |s| - 1 else |s|)
    requires n == BackRunLen(s, e, IsDigit)
    ensures forall i, k :: SizeAt(s, i, k) ==> k == e && e - n <= i
  {
  }

  /** The leftmost size match, with its end. */
  function FindSize(s: string): (r: Option<(nat, nat)>)
    ensures r.Some? ==> SizeAt(s, r.value.0, r.value.1)
    ensures r.Some? ==> forall k :: SizeAt(s, r.value.0, k) ==> k == r.value.1
    ensures forall i, k :: (r.None? || i < r.value.0) ==> !SizeAt(s, i, k)
  {
    var e := if |s| > 0 && s[|s| - 1] == '\n' then |s| - 1 else |s|;
    var n := BackRunLen(s, e, IsDigit);
    SizeEnds(s, e, n);
    if n == 0 then None else Some((e - n, e))
  }

  /** The response size: the digits at the very end of the line, or nothing. */
  function MatchSize(s: string): (r: Option<string>)
    ensures r.None? <==> !HasSize(s)
    ensures r.Some? ==> |r.value| >= 1 && All(r.value, IsDigit)
    ensures r.Some? ==> exists i, k :: SizeAt(s, i, k) && r.value == s[i..k]
                                       && forall j, k' :: 0 <= j < i ==> !SizeAt(s, j, k')
  {
    match FindSize(s)
    case Some((i, k)) => Some(s[i..k])
    case None => None
  }

  /** `d` is the whole non-empty run of digits that ends `s`. */
  predicate DigitSuffix(s: string, d: string) {
    1 <= |d| <= |s| && All(d, IsDigit) && d == s[|s| - |d|..]
    && (|d| == |s| || !IsDigit(s[|s| - |d| - 1]))
  }

  /** On a line that does not end in whitespace, the size match is the whole
      run of digits that ends the line. */
  lemma MatchSizeSuffix(s: string)
    requires MatchSize(s).Some? && !IsSpace(s[|s| - 1])
    ensures DigitSuffix(s, MatchSize(s).value)
  {
    var i, k :| SizeAt(s, i, k) && MatchSize(s).value == s[i..k]
                && forall j, k' :: 0 <= j < i ==> !SizeAt(s, j, k');
    assert k == |s|;
  }

  // ---------------------------------------------------------------------
  // re.findall(r'"[A-Z]+ (\S+) HTTP/[0-9\.]+"', line)

  /** A match of the request pattern, by the lengths of its three runs. */
  datatype RequestMatch = RequestMatch(start: nat, verb: nat, path: nat, version: nat)
  {
    function PathStart(): nat { start + 2 + verb }
    function VersionStart(): nat { start + 8 + verb + path }
    function End(): nat { start + 9 + verb + path + version }
  }

  /** `lit` occurs in `s` at index `k`. */
  predicate LiteralAt(s: string, k: nat, lit: string) {
    k + |lit| <= |s| && forall j :: 0 <= j < |lit| ==> s[k + j] == lit[j]
  }

  /** `s[m.start..m.End()]` is `"VERB path HTTP/version"` with the runs of
      the lengths `m` gives. */
  predicate RequestAt(s: string, m: RequestMatch) {
    m.End() <= |s| && s[m.start] == '"'
    && 1 <= m.verb && Span(s, m.start + 1, m.start + 1 + m.verb, IsUpper) && s[m.start + 1 + m.verb] == ' '
    && 1 <= m.path && Span(s, m.PathStart(), m.PathStart() + m.path, IsNotSpace)
    && LiteralAt(s, m.PathStart() + m.path, " HTTP/")
    && 1 <= m.version && Span(s, m.VersionStart(), m.VersionStart() + m.version, IsVersionChar)
    && s[m.End() - 1] == '"'
  }

  /** The captured group of a request match. */
  function PathOf(s: string, m: RequestMatch): (p: string)
    requires RequestAt(s, m)
    ensures |p| == m.path >= 1 && All(p, IsNotSpace)
  {
    var p := s[m.PathStart()..m.PathStart() + m.path];
    assert All(p, IsNotSpace) by {
      forall j | 0 <= j < |p| ensures IsNotSpace(p[j]) {
        assert p[j] == s[m.PathStart() + j];
      }
    }
    p
  }

  /** The only way the request pattern can match at `i`: each of its three
      runs as long as it can be. */
  function CandidateAt(s: string, i: nat): Option<RequestMatch>
    requires i <= |s|
  {
    if i == |s| then None
    else
      var verb := RunLen(s, i + 1, IsUpper);
      if i + 2 + verb > |s| then None
      else
        var path := RunLen(s, i + 2 + verb, IsNotSpace);
        if i + 8 + verb + path > |s| then None
        else
          var version := RunLen(s, i + 8 + verb + path, IsVersionChar);
          Some(RequestMatch(i, verb, path, version))
  }

  /** The request pattern at `i`, when it matches there. */
  function MatchRequestAt(s: string, i: nat): (r: Option<RequestMatch>)
    requires i <= |s|
    ensures r.Some? ==> r.value.start == i && RequestAt(s, r.value)
  {
    match CandidateAt(s, i)
    case Some(m) => if RequestAt(s, m) then Some(m) else None
    case None => None
  }

  /** The request pattern matches at a given start in one way only, and
      `MatchRequestAt` finds it: its three runs are the maximal ones. */
  lemma MatchRequestAtFinds(s: string, m: RequestMatch)
    requires RequestAt(s, m)
    ensures MatchRequestAt(s, m.start) == Some(m)
  {
    RunLenExact(s, m.start + 1, IsUpper, m.verb);
    assert s[m.PathStart() + m.path + 0] == " HTTP/"[0];
    RunLenExact(s, m.PathStart(), IsNotSpace, m.path);
    RunLenExact(s, m.VersionStart(), IsVersionChar, m.version);
    CandidateAtRuns(s, m);
  }

  /** The candidate at `m.start` is `m` when the runs there have `m`'s lengths. */
  lemma CandidateAtRuns(s: string, m: RequestMatch)
    requires m.End() <= |s|
    requires RunLen(s, m.start + 1, IsUpper) == m.verb
    requires RunLen(s, m.PathStart(), IsNotSpace) == m.path
    requires RunLen(s, m.VersionStart(), IsVersionChar) == m.version
    ensures CandidateAt(s, m.start) == Some(m)
  {
  }

  lemma NoRequestAt(s: string, i: nat)
    requires i <= |s| && MatchRequestAt(s, i).None?
    ensures forall m: RequestMatch :: m.start == i ==> !RequestAt(s, m)
  {
    forall m: RequestMatch | m.start == i && RequestAt(s, m) ensures false {
      MatchRequestAtFinds(s, m);
    }
  }

  /** The leftmost request match at or after `i`. */
  function FindRequest(s: string, i: nat): (r: Option<RequestMatch>)
    requires i <= |s|
    ensures r.Some? ==> i <= r.value.start && RequestAt(s, r.value)
    ensures forall m: RequestMatch :: i <= m.start && (r.None? || m.start < r.value.start) ==> !RequestAt(s, m)
    decreases |s| - i
  {
    if i == |s| then None
    else
      match MatchRequestAt(s, i)
      case Some(m) => Some(m)
      case None =>
        NoRequestAt(s, i);
        FindRequest(s, i + 1)
  }

  /** `re.findall` of the request pattern from `i` on: the captured paths of
      the successive non-overlapping leftmost matches, each a non-empty run
      of non-whitespace characters. */
  function FindAllPaths(s: string, i: nat): (r: seq<string>)
    requires i <= |s|
    ensures forall p :: p in r ==> |p| >= 1 && All(p, IsNotSpace)
    decreases |s| - i
  {
    match FindRequest(s, i)
    case None => []
    case Some(m) => [PathOf(s, m)] + FindAllPaths(s, m.End())
  }

  /** `re.findall` returns nothing exactly when the pattern matches nowhere
      from `i` on; otherwise its first element is the path of the leftmost
      match. */
  lemma FindAllPathsFirst(s: string, i: nat)
    requires i <= |s|
    ensures FindAllPaths(s, i) == [] <==> forall m: RequestMatch :: i <= m.start ==> !RequestAt(s, m)
    ensures FindAllPaths(s, i) != [] ==>
      exists m: RequestMatch :: i <= m.start && RequestAt(s, m) && FindAllPaths(s, i)[0] == PathOf(s, m)
                                && forall m': RequestMatch :: i <= m'.start < m.start ==> !RequestAt(s, m')
  {
    match FindRequest(s, i)
    case None =>
    case Some(m) =>
      assert FindAllPaths(s, i)[0] == PathOf(s, m);
  }
}

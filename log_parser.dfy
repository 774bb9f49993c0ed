/** Turning the lines of an access log into records (`process_log`).

    Each line is stripped and each of its six fields is taken by its own
    regular expression applied to the whole stripped line. Five of the
    searches must succeed; the source calls `.group()` on their results, so
    one that finds nothing raises and ends the whole run. The URL comes from
    `re.findall` and never fails. */
module LogParser {
  import opened Wrappers
  import opened Text
  import opened Repr
  import opened Patterns

  /** The dictionary keys of a parsed line. */
  datatype Field = Ip | Time | HttpMethod | Url | Status | ResponseSize

  /** One parsed line: six text fields (no numeric conversion). */
  datatype Record = Record(ip: string, time: string, httpMethod: string,
                           url: string, status: string, responseSize: string)
  {
    /** `row[key]` */
    function Get(f: Field): string {
      match f
      case Ip => ip
      case Time => time
      case HttpMethod => httpMethod
      case Url => url
      case Status => status
      case ResponseSize => responseSize
    }
  }

  /** The five searches that must succeed on a stripped line. */
  ghost predicate Extractable(line: string) {
    HasIp(line) && HasBracket(line) && HasMethod(line) && HasStatus(line) && HasSize(line)
  }

  /** One iteration of the loop body of `process_log`: the record of one raw
      line, or nothing when a required search fails on its stripped text. */
  function ExtractLine(raw: string): (r: Option<Record>)
    ensures r.Some? <==> Extractable(Strip(raw))
  {
    var line := Strip(raw);
    MatchIpLongest(line);
    match (MatchIp(line), MatchTime(line), MatchMethod(line), MatchStatus(line), MatchSize(line))
    case (Some(ip), Some(stamp), Some(verb), Some(status), Some(size)) =>
      Some(Record(ip, TimeContent(stamp), verb, UrlField(FindAllPaths(line, 0)), status, size))
    case _ => None
  }

  /** The record of a line that extracts is assembled from the five searches,
      each of which found something. */
  lemma ExtractedParts(raw: string)
    requires ExtractLine(raw).Some?
    ensures var line, rec := Strip(raw), ExtractLine(raw).value;
      && MatchIp(line) == Some(rec.ip)
      && MatchTime(line).Some? && rec.time == TimeContent(MatchTime(line).value)
      && MatchMethod(line) == Some(rec.httpMethod)
      && MatchStatus(line) == Some(rec.status)
      && MatchSize(line) == Some(rec.responseSize)
  {
  }

  /** The ip field is the longest prefix of the stripped line of the shape
      digits.digits.digits. */
  lemma ExtractedIp(raw: string)
    requires ExtractLine(raw).Some?
    ensures var line, ip := Strip(raw), ExtractLine(raw).value.ip;
      && |ip| <= |line| && ip == line[..|ip|] && IpShape(ip)
      && forall k :: |ip| < k <= |line| ==> !IpShape(line[..k])
  {
    ExtractedParts(raw);
    MatchIpLongest(Strip(raw));
  }

  /** The time field is the greedy `[...]` span of the stripped line with its
      leading `[` and trailing `]` characters removed. */
  lemma ExtractedTime(raw: string)
    requires ExtractLine(raw).Some?
    ensures var line, time := Strip(raw), ExtractLine(raw).value.time;
      && (exists i, k :: LeftmostBracket(line, i, k) && time == TimeContent(line[i..k + 1]))
      && (time == [] || (time[0] != '[' && time[|time| - 1] != ']'))
  {
    ExtractedParts(raw);
  }

  /** The http_method field is the word run right after the leftmost `"`
      that is followed by a word run and then whitespace. */
  lemma ExtractedMethod(raw: string)
    requires ExtractLine(raw).Some?
    ensures var line, verb := Strip(raw), ExtractLine(raw).value.httpMethod;
      |verb| >= 1 && All(verb, IsWordChar) && LeftmostMethod(line, verb)
  {
    ExtractedParts(raw);
  }

  /** The status field is the leftmost three digits with whitespace on both
      sides. */
  lemma ExtractedStatus(raw: string)
    requires ExtractLine(raw).Some?
    ensures var line, status := Strip(raw), ExtractLine(raw).value.status;
      && |status| == 3 && All(status, IsDigit)
      && exists i :: StatusAt(line, i) && status == line[i + 1..i + 4]
                     && forall j :: 0 <= j < i ==> !StatusAt(line, j)
  {
    ExtractedParts(raw);
  }

  /** The response_size field is the whole run of digits that ends the
      stripped line. */
  lemma ExtractedSize(raw: string)
    requires ExtractLine(raw).Some?
    ensures var line, size := Strip(raw), ExtractLine(raw).value.responseSize;
      DigitSuffix(line, size)
  {
    ExtractedParts(raw);
    StripTrims(raw);
    MatchSizeSuffix(Strip(raw));
  }

  /** The URL field never makes extraction fail. It is empty when the
      request pattern matches nowhere in the line, and it is the captured
      path when exactly one match is found and the path has nothing `repr`
      would escape. */
  lemma ExtractedUrl(raw: string)
    requires ExtractLine(raw).Some?
    ensures var line, rec := Strip(raw), ExtractLine(raw).value;
      var paths := FindAllPaths(line, 0);
      && rec.url == UrlField(paths)
      && ((forall m: RequestMatch :: !RequestAt(line, m)) ==> rec.url == "")
      && (|paths| == 1 && ReprSafe(paths[0]) ==> rec.url == paths[0])
  {
    var line := Strip(raw);
    var paths := FindAllPaths(line, 0);
    FindAllPathsFirst(line, 0);
    if |paths| == 1 && ReprSafe(paths[0]) {
      assert paths == [paths[0]];
      UrlFieldOneMatch(paths[0]);
    }
  }

  /** A line that holds every required field. */
  const ExampleLine: string := "1.2.3 [t] \"G 200 5"

  /** The example line extracts, so the lemmas above speak about lines that
      occur. */
  lemma ExtractExample()
    ensures ExtractLine(ExampleLine).Some?
  {
    ExampleStripped();
    ExampleFields();
  }

  lemma ExampleStripped()
    ensures Strip(ExampleLine) == ExampleLine
  {
    assert RunLen(ExampleLine, 0, IsSpace) == 0;
    assert BackRunLen(ExampleLine, |ExampleLine|, IsSpace) == 0;
  }

  lemma ExampleFields()
    ensures Extractable(ExampleLine)
  {
    var s := ExampleLine;
    assert IpShapeAt(s[..5], 1, 3);
    assert BracketAt(s, 6, 8);
    assert MethodAt(s, 10, 1);
    assert StatusAt(s, 12);
    assert SizeAt(s, 17, 18);
  }

  /** Every line of the input extracts. */
  ghost predicate AllExtract(lines: seq<string>) {
    forall i :: 0 <= i < |lines| ==> ExtractLine(lines[i]).Some?
  }

  /** What the loop of `process_log` has built after the first `n` lines,
      extracting each with `extract`: their records, in order, or nothing as
      soon as one of them does not extract. */
  function ParseUpTo(lines: seq<string>, n: nat, extract: string -> Option<Record>): Option<seq<Record>>
    requires n <= |lines|
  {
    if n == 0 then Some([])
    else
      match ParseUpTo(lines, n - 1, extract)
      case None => None
      case Some(acc) =>
        match extract(lines[n - 1])
        case None => None
        case Some(rec) => Some(acc + [rec])
  }

  /** What `process_log` returns for the whole log. */
  function ParseAll(lines: seq<string>): Option<seq<Record>> {
    ParseUpTo(lines, |lines|, ExtractLine)
  }

  /** After `n` lines there is a result exactly when each of them extracts,
      and then it holds one record per line, in the order of the lines. */
  lemma {:induction false} ParseUpToMeaning(lines: seq<string>, n: nat, extract: string -> Option<Record>)
    requires n <= |lines|
    ensures ParseUpTo(lines, n, extract).Some? <==> forall i :: 0 <= i < n ==> extract(lines[i]).Some?
    ensures ParseUpTo(lines, n, extract).Some? ==> |ParseUpTo(lines, n, extract).value| == n
    ensures ParseUpTo(lines, n, extract).Some? ==>
      forall i :: 0 <= i < n ==> extract(lines[i]) == Some(ParseUpTo(lines, n, extract).value[i])
  {
    if n > 0 {
      ParseUpToMeaning(lines, n - 1, extract);
    }
  }

  /** There is a result exactly when every line extracts, and then it holds
      one record per line, in the order of the lines. */
  lemma ParseAllMeaning(lines: seq<string>)
    ensures ParseAll(lines).Some? <==> AllExtract(lines)
    ensures ParseAll(lines).Some? ==> |ParseAll(lines).value| == |lines|
    ensures ParseAll(lines).Some? ==>
      forall i :: 0 <= i < |lines| ==> ExtractLine(lines[i]) == Some(ParseAll(lines).value[i])
  {
    ParseUpToMeaning(lines, |lines|, ExtractLine);
  }

  /** Once the first `n` lines have no result, no longer prefix has one. */
  lemma {:induction false} ParseUpToAbort(lines: seq<string>, n: nat, m: nat, extract: string -> Option<Record>)
    requires n <= m <= |lines| && ParseUpTo(lines, n, extract).None?
    ensures ParseUpTo(lines, m, extract).None?
    decreases m - n
  {
    if n < m {
      ParseUpToAbort(lines, n, m - 1, extract);
    }
  }

  /** The loop of `process_log`: one record per line, appended in order; the
      first line `extract` rejects aborts the whole run. */
  method ProcessLines(lines: seq<string>, extract: string -> Option<Record>) returns (data: Option<seq<Record>>)
    ensures data == ParseUpTo(lines, |lines|, extract)
  {
    var acc: seq<Record> := [];
    for i := 0 to |lines|
      invariant ParseUpTo(lines, i, extract) == Some(acc)
    {
      var rec := extract(lines[i]);
      if rec.None? {
        ParseUpToAbort(lines, i + 1, |lines|, extract);
        return None;
      }
      acc := acc + [rec.value];
    }
    return Some(acc);
  }

  /** `process_log`: the loop above with the per-line extraction of the
      parser. */
  method ProcessLog(lines: seq<string>) returns (data: Option<seq<Record>>)
    ensures data == ParseAll(lines)
  {
    data := ProcessLines(lines, ExtractLine);
  }

  /** A single line on which a required search fails makes `process_log`
      produce nothing, whatever the other lines hold. */
  lemma OneBadLineFailsAll(lines: seq<string>, bad: nat)
    requires bad < |lines| && !Extractable(Strip(lines[bad]))
    ensures ParseAll(lines).None?
  {
    ParseAllMeaning(lines);
    assert ExtractLine(lines[bad]).None?;
  }
}

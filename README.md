# Access-log parser, modelled in Dafny

`log_parser.py` reads a web-server access log line by line. It turns each
line into a record of six text fields (`ip`, `time`, `http_method`, `URL`,
`status`, `response_size`), each taken by its own regular expression from the
stripped line. Over the list of records it then answers three kinds of
question:

- a summary (`aggregation`): the number of records, the number of distinct
  client addresses, and counters of statuses, URLs and methods;
- two filters (`fetch_status`, `fetch_method`);
- a display rule (`display`), which prints either the first `limit` rows or
  all of them.

`main` decides from the command-line flags which of these run.

The model has six modules:

- `Wrappers` holds `Option`.
- `Text` holds:
  - the ASCII character classes of Python's `re` and `str`;
  - maximal runs of a class;
  - `str.strip`, `lstrip` and `rstrip`;
  - `str(int)`.
- `Patterns` holds the six regular expressions. Each is a leftmost, greedy
  search. A declarative predicate says what a match at a position is. The
  search's contract and the lemmas beside it say that the search finds the
  leftmost match, and finds nothing exactly when there is no match. For the timestamp pattern `\[.+\]`,
  where `.` also matches `]`, it also says that the match ends at the last
  possible `]`.
- `Repr` holds Python's `repr` of a list of strings and the slice `[2:-2]`
  that builds the URL field from the `re.findall` result.
- `LogParser` holds:
  - the record type;
  - `ExtractLine`, the per-line extraction;
  - the loop of `process_log`, as a method proved against the function
    `ParseUpTo`.
- `Queries` holds:
  - the filters;
  - `Counter` as a `map<string, nat>`;
  - the summary;
  - the row selection of `display`, as a method with loops;
  - the flag dispatch of `main`.

A failing `re.search(...)` makes `.group()` raise, which ends the whole run.
The model therefore returns `None` for the whole log as soon as one line
fails to extract. It does not skip the bad line, since the code has no such
policy.

The row limit is not simply "the first `min(limit, length)` rows". The code
differs for two values:

- A limit of 0 is false in Python, so every row is shown.
- A negative limit gives an empty `range`, so no row is shown.

Some results the model makes precise:

- The IP pattern has only three dotted groups, so `127.0.0.1 …` yields
  `127.0.0`.
- A line with no request match gets the URL `""`.
- A line with two request matches whose paths hold no `'` gets a URL that
  keeps the `', '` separator of Python's list display. A path holding `'`
  but no `"` is put in double quotes by `repr`, so the separator around it
  differs; the definition `UrlField` covers that case, but no lemma states
  it.

## Model

| member | source | states |
|---|---|---|
| Text.LStrip | log_parser.py:28 | `lstrip` removes exactly a maximal prefix of the class. What remains is a suffix of the input that does not start with a character of the class. |
| Text.RStrip | log_parser.py:28 | `rstrip` removes exactly a maximal suffix of the class. What remains is a prefix of the input that does not end with a character of the class. |
| Text.StripTrims | log_parser.py:22 | The stripped line is a slice of the raw line. Only whitespace comes before it and only whitespace after it. The slice neither starts nor ends with whitespace. |
| Text.NatToString | log_parser.py:72 | `str(n)` is a non-empty string of digits. It starts with `0` only for 0, and it is one character long exactly below 10. |
| Text.NatToStringValue | log_parser.py:72 | The digits of `str(n)` denote `n` in decimal. |
| Text.ThreeDigitText | log_parser.py:72 | `str(i)` is three digits exactly when 100 <= i <= 999. |
| Patterns.MatchIp | log_parser.py:24 | When the anchored IP pattern matches, the result is a prefix of the line of the shape digits.digits.digits. Its last digit run cannot be extended. |
| Patterns.MatchIpCovers | log_parser.py:24 | Every prefix of the line that has the IP shape is found by the search and is no longer than the match. |
| Patterns.MatchIpLongest | log_parser.py:24 | The search fails exactly when no prefix has the IP shape. Otherwise no longer prefix has the shape. |
| Patterns.FindBracket | log_parser.py:27 | Finds the leftmost `[` that starts a `\[.+\]` match, and there the last possible `]`. The characters between contain no line feed. |
| Patterns.MatchTime | log_parser.py:27 | Finds nothing exactly when no `\[.+\]` match exists. Otherwise returns the slice of the match `re.search` takes: no match starts further left, and none at that start ends further right. |
| Patterns.TimeContent | log_parser.py:28-29 | `lstrip("[")` followed by `rstrip("]")` yields a string that neither starts with `[` nor ends with `]`. |
| Patterns.TimeContentSlice | log_parser.py:28-29 | The time text is a slice of the stamp. Only `[` characters come before it and only `]` characters after it. |
| Patterns.FindMethod | log_parser.py:31 | Finds the leftmost `"\w+\s` match. At that start only one word-run length matches. |
| Patterns.MatchMethod | log_parser.py:31-33 | Finds nothing exactly when no `"\w+\s` match exists. Otherwise returns the non-empty word run of the leftmost match, without the quote and the whitespace character. |
| Patterns.FindStatus | log_parser.py:39 | Finds the leftmost index where `\s\d{3}\s` matches. |
| Patterns.MatchStatus | log_parser.py:39-41 | Finds nothing exactly when no `\s\d{3}\s` match exists. Otherwise returns the three digits of the leftmost match. |
| Patterns.FindSize | log_parser.py:43 | Finds the leftmost start of a `\d+$` match and its only possible end. `$` means the end of the line or just before a final line feed. |
| Patterns.MatchSize | log_parser.py:43-44 | Finds nothing exactly when `\d+$` matches nowhere. Otherwise returns the non-empty digit run of the leftmost match. |
| Patterns.MatchSizeSuffix | log_parser.py:43-44 | On a line that does not end in whitespace, the size is the whole run of digits that ends the line. |
| Patterns.MatchRequestAt | log_parser.py:35 | A match of `"[A-Z]+ (\S+) HTTP/[0-9\.]+"` that it returns starts at the given index. |
| Patterns.MatchRequestAtFinds | log_parser.py:35 | At a given start the request pattern matches in at most one way, and that way is found. |
| Patterns.FindRequest | log_parser.py:35 | Returns the leftmost request match at or after the index. No match starts before it. |
| Patterns.FindAllPaths | log_parser.py:35 | Every captured path that `findall` returns is a non-empty run of non-whitespace characters. |
| Patterns.FindAllPathsFirst | log_parser.py:35 | `findall` returns nothing exactly when the pattern matches nowhere. Otherwise its first element is the path of the leftmost match. |
| Repr.StrReprSafe | log_parser.py:36 | The `repr` of a path with no backslash, no control character and not both quote kinds is the path between two quotes. |
| Repr.UrlFieldNoMatch | log_parser.py:36 | `str([])[2:-2]` is the empty string. |
| Repr.UrlFieldOneMatch | log_parser.py:36 | For one safe path `p`, `str([p])[2:-2]` is `p`. |
| Repr.UrlFieldTwoMatches | log_parser.py:36 | For two paths without quotes, backslashes or control characters, the URL field is `p', 'q`. |
| LogParser.ExtractLine | log_parser.py:14-46 | A line yields a record exactly when the ip, time, method, status and size patterns all match on the stripped line. |
| LogParser.ExtractedIp | log_parser.py:22-25 | `ip` is the longest prefix of the stripped line that has the digits.digits.digits shape. |
| LogParser.ExtractedTime | log_parser.py:27-29 | `time` is the leftmost, greedy bracket match with its leading `[` and trailing `]` removed. It neither starts with `[` nor ends with `]`. |
| LogParser.ExtractedMethod | log_parser.py:31-33 | `http_method` is the non-empty word run after the leftmost `"` that is followed by a word run and whitespace. |
| LogParser.ExtractedUrl | log_parser.py:35-37 | `URL` is the list display of the `findall` result, trimmed. It is `""` when the request pattern matches nowhere, and the path itself for one safe match. |
| LogParser.ExtractedStatus | log_parser.py:39-41 | `status` is three digits: those of the leftmost whitespace-bounded three-digit group. |
| LogParser.ExtractedSize | log_parser.py:43-44 | `response_size` is the whole non-empty run of digits that ends the stripped line. |
| LogParser.ExtractExample | log_parser.py:14-46 | The line `1.2.3 [t] "G 200 5` extracts, so the per-field statements above apply to lines that occur. |
| LogParser.ParseUpToMeaning | log_parser.py:9-46 | After `n` lines, the loop has a result exactly when each of them extracts. The result then holds one record per line, in line order. |
| LogParser.ParseAllMeaning | log_parser.py:7-48 | `process_log` succeeds exactly when every line extracts. It then returns one record per line, each the extraction of that line, in order. |
| LogParser.ParseUpToAbort | log_parser.py:13-46 | Once a prefix of the lines has failed, every longer prefix fails too. |
| LogParser.ProcessLines | log_parser.py:13-46 | The loop returns the result `ParseUpTo` specifies, and it stops at the first line that does not extract. |
| LogParser.ProcessLog | log_parser.py:7-48 | `process_log` returns `ParseAll` of its lines. |
| LogParser.OneBadLineFailsAll | log_parser.py:24-46 | A single line on which a required pattern fails makes the whole run fail, whatever the other lines are. |
| Queries.FilterBy | log_parser.py:70-83 | The filter is no longer than its input. It holds exactly the input rows whose field has the value. |
| Queries.FilterConcat | log_parser.py:70-83 | Filtering a concatenation concatenates the filtered parts, so the original order is kept. |
| Queries.FilterIdempotent | log_parser.py:70-83 | Filtering twice by the same value is filtering once. |
| Queries.FilterAllOrNone | log_parser.py:70-83 | The filter is empty exactly when no row matches. It is the whole input exactly when every row matches. |
| Queries.FetchStatus | log_parser.py:70-75 | Holds exactly the rows whose status is the text of `str(status_to_get)`, and is no longer than the input. |
| Queries.FetchMethod | log_parser.py:78-83 | Holds exactly the rows whose method is `method_to_get`, and is no longer than the input. |
| Queries.ParsedStatuses | log_parser.py:39-46 | Every record `process_log` returns has a status of three digits. |
| Queries.FetchStatusOutOfRange | log_parser.py:70-75 | On records with three-digit statuses, asking for a status outside 100..999 returns nothing. |
| Queries.CountsMeaning | log_parser.py:60-65 | Each `Counter` has as keys exactly the values that occur. Each key's count is the number of rows the filter on that value keeps. |
| Queries.CountsSum | log_parser.py:60-65 | A `Counter`'s counts add up to the number of rows. |
| Queries.IpsBounds | log_parser.py:62 | There are never more distinct IPs than records, and there are none exactly when there is no record. |
| Queries.OneClient | log_parser.py:62 | Records that all come from one IP have one distinct IP. |
| Queries.Aggregation | log_parser.py:51-67 | `total_lines_parsed` is the number of records and `unique_ips` is the size of their IP set, which is bounded as above. The three tables are the count tables of status, URL and method. |
| Queries.AggregationSums | log_parser.py:59-65 | Each of the three tables adds up to `total_lines_parsed`. |
| Queries.RowsShown | log_parser.py:85-91 | The rows shown are a prefix of the rows. They are all the rows when the limit is absent, 0 or too large, none when it is negative, and exactly `limit` rows otherwise. |
| Queries.Display | log_parser.py:85-91 | The two printing loops emit exactly `RowsShown(rows, limit)`, in order. |
| Queries.Run | log_parser.py:123-145 | A failing parse emits nothing. Otherwise the summary is emitted iff `--summary`, and the raw records iff `--raw` without `--summary`. The status rows are emitted iff the status is non-zero, the method rows iff the method is non-empty. Both filters run on the unfiltered records and go through `display` with the same limit. |

## Left out

- Opening the file and reading its lines, with their UTF-8 decoding: the log is a sequence of already-read lines.
- `argparse`, JSON rendering and every `print`: `Run` returns what would be emitted, and `Display` returns the rows it would print.
- Unicode semantics of `\w`, `\s`, `\d`, `str.strip` and `repr`: the classes are ASCII. Whitespace is the ASCII part of Python's table: 9–13 and 0x1C–0x20. `repr` escapes ASCII control characters only and copies every other character verbatim.
- The key order of a `Counter` in the JSON output: a table is a map, so only the counts are kept.
- LogParser.ExtractedUrl: states the URL field only for zero matches and for one safe match. Several matches, or a path with quotes or backslashes, are left to the definitions `FindAllPaths` and `UrlField` (two plain matches in `Repr.UrlFieldTwoMatches`).
- `send_weather_data.py`, `crypto_data_etl.py`, `arg_parsing.py` and `csv_explorer.py` are not part of this model: they are HTTP, S3, pandas and argparse plumbing around foreign calls.

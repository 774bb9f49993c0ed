/** What the tool does with the records once they are parsed: the summary of
    `aggregation`, the two filters `fetch_status` and `fetch_method`, the row
    selection of `display`, and the flag dispatch of `main`. */
module Queries {
  import opened Wrappers
  import opened Text
  import opened LogParser

  // ---------------------------------------------------------------------
  // Filters: [row for row in data_dict if row[key] == value]

  /** The rows whose field `f` equals `v`, in their original order. */
  function FilterBy(data: seq<Record>, f: Field, v: string): (r: seq<Record>)
    ensures |r| <= |data|
    ensures forall x :: x in r <==> x in data && x.Get(f) == v
    decreases |data|
  {
    if data == [] then []
    else
      var init, last := data[..|data| - 1], data[|data| - 1];
      assert data == init + [last];
      var kept := FilterBy(init, f, v);
      if last.Get(f) == v then kept + [last] else kept
  }

  /** Filtering a concatenation filters each part and keeps them in order:
      the filter is an order-preserving subsequence. */
  lemma {:induction false} FilterConcat(a: seq<Record>, b: seq<Record>, f: Field, v: string)
    ensures FilterBy(a + b, f, v) == FilterBy(a, f, v) + FilterBy(b, f, v)
    decreases |b|
  {
    if b != [] {
      var init, last := b[..|b| - 1], b[|b| - 1];
      assert (a + b)[..|a + b| - 1] == a + init;
      assert (a + b)[|a + b| - 1] == last;
      FilterConcat(a, init, f, v);
    } else {
      assert a + b == a;
    }
  }

  /** A single row is kept exactly when its field matches. */
  lemma FilterSingle(x: Record, f: Field, v: string)
    ensures FilterBy([x], f, v) == if x.Get(f) == v then [x] else []
  {
    assert [x][..0] == [];
  }

  /** Filtering twice by the same test is filtering once. */
  lemma {:induction false} FilterIdempotent(data: seq<Record>, f: Field, v: string)
    ensures FilterBy(FilterBy(data, f, v), f, v) == FilterBy(data, f, v)
    decreases |data|
  {
    if data != [] {
      var init, last := data[..|data| - 1], data[|data| - 1];
      FilterIdempotent(init, f, v);
      var kept := FilterBy(init, f, v);
      if last.Get(f) == v {
        FilterConcat(kept, [last], f, v);
        FilterSingle(last, f, v);
      }
    }
  }

  /** The filter keeps every row exactly when every row matches, and keeps
      none exactly when no row matches. */
  lemma FilterAllOrNone(data: seq<Record>, f: Field, v: string)
    ensures FilterBy(data, f, v) == [] <==> forall x :: x in data ==> x.Get(f) != v
    ensures FilterBy(data, f, v) == data <==> forall x :: x in data ==> x.Get(f) == v
  {
    var r := FilterBy(data, f, v);
    if r == [] {
      forall x | x in data ensures x.Get(f) != v {
        assert x !in r;
      }
    }
    if forall x :: x in data ==> x.Get(f) == v {
      FilterKeepsAll(data, f, v);
    }
  }

  lemma {:induction false} FilterKeepsAll(data: seq<Record>, f: Field, v: string)
    requires forall x :: x in data ==> x.Get(f) == v
    ensures FilterBy(data, f, v) == data
    decreases |data|
  {
    if data != [] {
      var init := data[..|data| - 1];
      assert data == init + [data[|data| - 1]];
      FilterKeepsAll(init, f, v);
    }
  }

  /** `fetch_status`: the rows whose status text is `str(statusToGet)`. */
  function FetchStatus(statusToGet: int, data: seq<Record>): (r: seq<Record>)
    ensures |r| <= |data|
    ensures forall x :: x in r <==> x in data && x.status == IntToString(statusToGet)
  {
    FilterBy(data, Status, IntToString(statusToGet))
  }

  /** `fetch_method`: the rows whose method is exactly `methodToGet`. */
  function FetchMethod(methodToGet: string, data: seq<Record>): (r: seq<Record>)
    ensures |r| <= |data|
    ensures forall x :: x in r <==> x in data && x.httpMethod == methodToGet
  {
    FilterBy(data, HttpMethod, methodToGet)
  }

  /** Every row whose status is three digits, as every parsed row's is. */
  predicate ThreeDigitStatuses(data: seq<Record>) {
    forall x :: x in data ==> |x.status| == 3 && All(x.status, IsDigit)
  }

  /** Every record `process_log` returns has a three-digit status. */
  lemma ParsedStatuses(lines: seq<string>)
    requires ParseAll(lines).Some?
    ensures ThreeDigitStatuses(ParseAll(lines).value)
  {
    ParseAllMeaning(lines);
    var data := ParseAll(lines).value;
    forall x | x in data ensures |x.status| == 3 && All(x.status, IsDigit) {
      var i :| 0 <= i < |data| && data[i] == x;
      ExtractedStatus(lines[i]);
    }
  }

  /** Asking for a status outside 100..999 finds nothing among rows whose
      statuses are three digits: `str` of such a number is never three
      digits. */
  lemma FetchStatusOutOfRange(statusToGet: int, data: seq<Record>)
    requires ThreeDigitStatuses(data)
    requires statusToGet < 100 || 1000 <= statusToGet
    ensures FetchStatus(statusToGet, data) == []
  {
    ThreeDigitText(statusToGet);
    FilterAllOrNone(data, Status, IntToString(statusToGet));
  }

  // ---------------------------------------------------------------------
  // aggregation: len, set and Counter

  /** `Counter(row[f] for row in data)`: each value of field `f` mapped to
      the number of rows holding it, built in the order of the rows. */
  function Counts(data: seq<Record>, f: Field): map<string, nat>
    decreases |data|
  {
    if data == [] then map[]
    else
      var m, key := Counts(data[..|data| - 1], f), data[|data| - 1].Get(f);
      m[key := (if key in m then m[key] else 0) + 1]
  }

  /** The values field `f` takes over the rows. */
  function Values(data: seq<Record>, f: Field): set<string> {
    set x | x in data :: x.Get(f)
  }

  /** A table holds, for exactly the values of field `f` that occur, the
      number of rows holding each. */
  ghost predicate IsCountTable(m: map<string, nat>, data: seq<Record>, f: Field) {
    && m.Keys == Values(data, f)
    && forall v :: v in m ==> m[v] == |FilterBy(data, f, v)|
  }

  /** The counter counts: its keys are the values that occur, and each
      count is the number of rows the filter on that value keeps. */
  lemma {:induction false} CountsMeaning(data: seq<Record>, f: Field)
    ensures IsCountTable(Counts(data, f), data, f)
    decreases |data|
  {
    if data != [] {
      var init, last := data[..|data| - 1], data[|data| - 1];
      CountsMeaning(init, f);
      CountsUnfold(data, f);
      ValuesStep(data, f);
      FilterStep(data, f);
      var key := last.Get(f);
      if key !in Counts(init, f) {
        FilterAllOrNone(init, f, key);
      }
    }
  }

  lemma CountsUnfold(data: seq<Record>, f: Field)
    requires data != []
    ensures var m, key := Counts(data[..|data| - 1], f), data[|data| - 1].Get(f);
      Counts(data, f) == m[key := (if key in m then m[key] else 0) + 1]
  {
  }

  lemma ValuesStep(data: seq<Record>, f: Field)
    requires data != []
    ensures Values(data, f) == Values(data[..|data| - 1], f) + {data[|data| - 1].Get(f)}
  {
    var init, last := data[..|data| - 1], data[|data| - 1];
    assert data == init + [last];
  }

  lemma FilterStep(data: seq<Record>, f: Field)
    requires data != []
    ensures var init, last := data[..|data| - 1], data[|data| - 1];
      forall v :: FilterBy(data, f, v) == FilterBy(init, f, v) + (if last.Get(f) == v then [last] else [])
  {
  }

  /** The sum of the counts of a table. */
  ghost function MapSum(m: map<string, nat>): nat
    decreases |m.Keys|
  {
    if m == map[] then 0
    else
      var k :| k in m;
      assert |(m - {k}).Keys| < |m.Keys| by {
        assert (m - {k}).Keys == m.Keys - {k};
      }
      m[k] + MapSum(m - {k})
  }

  /** The sum does not depend on which key is taken first. */
  lemma {:induction false} MapSumRemove(m: map<string, nat>, k: string)
    requires k in m
    ensures MapSum(m) == m[k] + MapSum(m - {k})
    decreases |m.Keys|
  {
    var j :| j in m && MapSum(m) == m[j] + MapSum(m - {j});
    if j != k {
      assert (m - {j}).Keys == m.Keys - {j};
      assert (m - {k}).Keys == m.Keys - {k};
      MapSumRemove(m - {j}, k);
      MapSumRemove(m - {k}, j);
      assert m - {j} - {k} == m - {k} - {j};
    }
  }

  /** Adding one to a key's count, or adding a key with count one, adds one
      to the sum. */
  lemma MapSumIncrement(m: map<string, nat>, k: string)
    ensures MapSum(m[k := (if k in m then m[k] else 0) + 1]) == MapSum(m) + 1
  {
    var m' := m[k := (if k in m then m[k] else 0) + 1];
    MapSumRemove(m', k);
    if k in m {
      MapSumRemove(m, k);
      assert m' - {k} == m - {k};
    } else {
      assert m' - {k} == m;
    }
  }

  /** The counts of a table add up to the number of rows. */
  lemma {:induction false} CountsSum(data: seq<Record>, f: Field)
    ensures MapSum(Counts(data, f)) == |data|
    decreases |data|
  {
    if data != [] {
      var init := data[..|data| - 1];
      CountsSum(init, f);
      MapSumIncrement(Counts(init, f), data[|data| - 1].Get(f));
    }
  }

  /** The distinct client addresses of the rows. */
  function Ips(data: seq<Record>): set<string> {
    set x | x in data :: x.ip
  }

  /** There are never more distinct addresses than rows, and there is at
      least one as soon as there is a row. */
  lemma {:induction false} IpsBounds(data: seq<Record>)
    ensures |Ips(data)| <= |data|
    ensures |Ips(data)| == 0 <==> data == []
    decreases |data|
  {
    if data != [] {
      var init, last := data[..|data| - 1], data[|data| - 1];
      assert data == init + [last];
      assert Ips(data) == Ips(init) + {last.ip};
      IpsBounds(init);
      assert last.ip in Ips(data);
    }
  }

  /** Rows that all come from one address have one distinct address. */
  lemma OneClient(data: seq<Record>, ip: string)
    requires data != [] && forall x :: x in data ==> x.ip == ip
    ensures |Ips(data)| == 1
  {
    assert data[0].ip in Ips(data);
    assert Ips(data) == {ip};
  }

  /** The result of `aggregation`, one field per key of its dictionary. */
  datatype Summary = Summary(totalLinesParsed: nat, uniqueIps: nat,
                             statusCodeCounts: map<string, nat>,
                             urlPathsCounts: map<string, nat>,
                             httpMethodsCounts: map<string, nat>)

  /** `aggregation`. */
  function Aggregation(data: seq<Record>): (s: Summary)
    ensures s.totalLinesParsed == |data|
    ensures s.uniqueIps == |Ips(data)|
    ensures s.uniqueIps <= s.totalLinesParsed && (s.uniqueIps == 0 <==> data == [])
    ensures IsCountTable(s.statusCodeCounts, data, Status)
    ensures IsCountTable(s.urlPathsCounts, data, Url)
    ensures IsCountTable(s.httpMethodsCounts, data, HttpMethod)
  {
    IpsBounds(data);
    CountsMeaning(data, Status);
    CountsMeaning(data, Url);
    CountsMeaning(data, HttpMethod);
    Summary(|data|, |Ips(data)|, Counts(data, Status), Counts(data, Url), Counts(data, HttpMethod))
  }

  /** Each table of the summary adds up to the number of lines parsed. */
  lemma AggregationSums(data: seq<Record>)
    ensures var s := Aggregation(data);
      && MapSum(s.statusCodeCounts) == s.totalLinesParsed
      && MapSum(s.urlPathsCounts) == s.totalLinesParsed
      && MapSum(s.httpMethodsCounts) == s.totalLinesParsed
  {
    CountsSum(data, Status);
    CountsSum(data, Url);
    CountsSum(data, HttpMethod);
  }

  // ---------------------------------------------------------------------
  // display: which rows are printed

  /** The rows `display(rows, limit)` prints, in order. */
  function RowsShown(rows: seq<Record>, limit: Option<int>): (r: seq<Record>)
    ensures |r| <= |rows| && r == rows[..|r|]
    ensures limit.None? || limit.value == 0 || limit.value > |rows| ==> r == rows
    ensures limit.Some? && limit.value < 0 ==> r == []
    ensures limit.Some? && 0 < limit.value <= |rows| ==> |r| == limit.value
  {
    if limit.Some? && limit.value != 0 && limit.value <= |rows| then
      rows[..if limit.value < 0 then 0 else limit.value]
    else rows
  }

  /** `display`: with a non-zero limit no larger than the number of rows it
      prints the rows at indices `range(limit)`, otherwise every row. The
      printing is replaced by collecting the printed rows. */
  method Display(rows: seq<Record>, limit: Option<int>) returns (shown: seq<Record>)
    ensures shown == RowsShown(rows, limit)
  {
    shown := [];
    if limit.Some? && limit.value != 0 && limit.value <= |rows| {
      var n := if limit.value < 0 then 0 else limit.value;
      for i := 0 to n
        invariant shown == rows[..i]
      {
        shown := shown + [rows[i]];
      }
    } else {
      for i := 0 to |rows|
        invariant shown == rows[..i]
      {
        shown := shown + [rows[i]];
      }
      assert rows[..|rows|] == rows;
    }
  }

  // ---------------------------------------------------------------------
  // main: which outputs a run produces

  /** The command-line options after parsing; an absent option is `None`. */
  datatype Options = Options(status: Option<int>, httpMethod: Option<string>,
                             limit: Option<int>, summary: bool, raw: bool)

  /** What one run emits, in order: the summary or the raw records (never
      both), then the rows of the status filter, then those of the method
      filter. An output that is not emitted is `None`. */
  datatype Report = Report(summary: Option<Summary>, raw: Option<seq<Record>>,
                           statusRows: Option<seq<Record>>, methodRows: Option<seq<Record>>)

  /** `main` on the lines of the log file. A line that does not extract ends
      the run before anything is emitted (`None`). */
  method Run(lines: seq<string>, options: Options) returns (report: Option<Report>)
    ensures report.None? <==> ParseAll(lines).None?
    ensures report.Some? ==>
      var data, out := ParseAll(lines).value, report.value;
      && (out.summary.Some? <==> options.summary)
      && (out.summary.Some? ==> out.summary.value == Aggregation(data))
      && (out.raw.Some? <==> !options.summary && options.raw)
      && (out.raw.Some? ==> out.raw.value == data)
      && (out.statusRows.Some? <==> options.status.Some? && options.status.value != 0)
      && (out.statusRows.Some? ==>
            out.statusRows.value == RowsShown(FetchStatus(options.status.value, data), options.limit))
      && (out.methodRows.Some? <==> options.httpMethod.Some? && options.httpMethod.value != "")
      && (out.methodRows.Some? ==>
            out.methodRows.value == RowsShown(FetchMethod(options.httpMethod.value, data), options.limit))
  {
    var result := ProcessLog(lines);
    if result.None? {
      return None;
    }
    var data := result.value;
    var summary: Option<Summary> := None;
    var raw: Option<seq<Record>> := None;
    if options.summary {
      summary := Some(Aggregation(data));
    } else if options.raw {
      raw := Some(data);
    }
    var statusRows: Option<seq<Record>> := None;
    if options.status.Some? && options.status.value != 0 {
      var shown := Display(FetchStatus(options.status.value, data), options.limit);
      statusRows := Some(shown);
    }
    var methodRows: Option<seq<Record>> := None;
    if options.httpMethod.Some? && options.httpMethod.value != "" {
      var shown := Display(FetchMethod(options.httpMethod.value, data), options.limit);
      methodRows := Some(shown);
    }
    report := Some(Report(summary, raw, statusRows, methodRows));
  }
}

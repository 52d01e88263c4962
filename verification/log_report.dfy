/** `prepare_json`: the statistics rows sorted by `time_sum`, largest
    first (a stable sort, so rows with equal sums keep the dictionary's
    first-appearance order), cut to `REPORT_SIZE` rows, each turned into
    the dictionary `ReportParams._asdict()` gives.

    The JSON text itself (`json.dumps`) is not modelled: a row becomes the
    list of its fields, in the order they are serialized. */
module LogReport {
  import opened Wrappers
  import opened Sorting
  import opened LogStats

  function TimeSum(r: Row): real {
    r.timeSum
  }

  /** Python's `s[:n]`: a negative `n` counts from the end. */
  function SliceTo<T>(s: seq<T>, n: int): (r: seq<T>)
    ensures n >= 0 ==> |r| == if n < |s| then n else |s|
    ensures n < 0 ==> |r| == if |s| + n > 0 then |s| + n else 0
    ensures r == s[..|r|]
  {
    if n >= 0 then (if n < |s| then s[..n] else s)
    else if |s| + n > 0 then s[..|s| + n] else []
  }

  /** The rows that go into the report, in report order. */
  function Rank(rows: seq<Row>, size: int): seq<Row> {
    SliceTo(SortDesc(rows, TimeSum), size)
  }

  /** A JSON scalar as `json.dumps` receives it. */
  datatype Json = JStr(s: string) | JInt(i: int) | JNum(x: real)

  const FieldNames: seq<string> :=
    ["url", "count", "count_perc", "time_sum", "time_perc", "time_avg", "time_max", "time_med"]

  /** `ReportParams._asdict()`: the named tuple's fields in declaration
      order. */
  function RowFields(r: Row): (fs: seq<(string, Json)>)
    ensures |fs| == |FieldNames|
    ensures forall i :: 0 <= i < |fs| ==> fs[i].0 == FieldNames[i]
  {
    [("url", JStr(r.url)), ("count", JInt(r.count)), ("count_perc", JNum(r.countPerc)),
     ("time_sum", JNum(r.timeSum)), ("time_perc", JNum(r.timePerc)), ("time_avg", JNum(r.timeAvg)),
     ("time_max", JNum(r.timeMax)), ("time_med", JNum(r.timeMed))]
  }

  /** Reading a report record back, as the report page's script does. */
  function FieldsRow(fs: seq<(string, Json)>): Option<Row> {
    if |fs| != |FieldNames| || exists i :: 0 <= i < |fs| && fs[i].0 != FieldNames[i] then None
    else if !fs[0].1.JStr? || !fs[1].1.JInt? || fs[1].1.i < 0 then None
    else if !(forall i :: 2 <= i < |fs| ==> fs[i].1.JNum?) then None
    else Some(Row(fs[0].1.s, fs[1].1.i, fs[2].1.x, fs[3].1.x, fs[4].1.x, fs[5].1.x, fs[6].1.x, fs[7].1.x))
  }

  /** Every field of a row survives the report. */
  lemma RowFieldsRoundTrip(r: Row)
    ensures FieldsRow(RowFields(r)) == Some(r)
  {
  }

  /** `prepare_json` before serialization. */
  function PrepareJson(rows: seq<Row>, size: int): (out: seq<seq<(string, Json)>>)
    ensures |out| == |Rank(rows, size)|
    ensures forall i :: 0 <= i < |out| ==> FieldsRow(out[i]) == Some(Rank(rows, size)[i])
  {
    var ranked := Rank(rows, size);
    seq(|ranked|, i requires 0 <= i < |ranked| => RowFieldsRoundTrip(ranked[i]); RowFields(ranked[i]))
  }

  /** The report has `min(size, #rows)` rows, ordered by `time_sum` from
      largest to smallest, all taken from the input. */
  lemma RankShape(rows: seq<Row>, size: int)
    requires size >= 0
    ensures |Rank(rows, size)| == if size < |rows| then size else |rows|
    ensures NonIncreasing(Rank(rows, size), TimeSum)
    ensures multiset(Rank(rows, size)) <= multiset(rows)
  {
    var sorted := SortDesc(rows, TimeSum);
    SortDescSorts(rows, TimeSum);
    var r := Rank(rows, size);
    assert sorted == r + sorted[|r|..];
    assert multiset(sorted) == multiset(r) + multiset(sorted[|r|..]);
  }

  /** A report large enough holds every row. */
  lemma RankKeepsAll(rows: seq<Row>, size: int)
    requires size >= |rows|
    ensures multiset(Rank(rows, size)) == multiset(rows)
  {
    SortDescSorts(rows, TimeSum);
  }

  /** No row left out of the report has a larger `time_sum` than a row in
      it. */
  lemma RankCutsSmallest(rows: seq<Row>, size: int)
    ensures var sorted := SortDesc(rows, TimeSum); var r := Rank(rows, size);
      forall i, j :: 0 <= i < |r| <= j < |sorted| ==> sorted[j].timeSum <= r[i].timeSum
  {
    var sorted := SortDesc(rows, TimeSum);
    SortDescSorts(rows, TimeSum);
    var r := Rank(rows, size);
    forall i, j | 0 <= i < |r| <= j < |sorted|
      ensures sorted[j].timeSum <= r[i].timeSum
    {
      assert r[i] == sorted[i];
      assert TimeSum(sorted[i]) >= TimeSum(sorted[j]);
    }
  }

  lemma {:induction false} WithKeyPrefix<T>(s: seq<T>, n: nat, key: T -> real, k: real)
    requires n <= |s|
    ensures WithKey(s, key, k) == WithKey(s[..n], key, k) + WithKey(s[n..], key, k)
  {
    assert s == s[..n] + s[n..];
    WithKeyAppend(s[..n], s[n..], key, k);
  }

  /** Rows with equal `time_sum` appear in the report in the order they had
      in the statistics, and the report holds a leading run of them. */
  lemma RankStable(rows: seq<Row>, size: int, k: real)
    ensures var tied := WithKey(Rank(rows, size), TimeSum, k);
      |tied| <= |WithKey(rows, TimeSum, k)| && tied == WithKey(rows, TimeSum, k)[..|tied|]
  {
    var sorted := SortDesc(rows, TimeSum);
    var r := Rank(rows, size);
    WithKeyPrefix(sorted, |r|, TimeSum, k);
    SortDescStable(rows, TimeSum, k);
  }
}
